/**
  What one background worker does to the world: it publishes the TXT record of a dns-01
  challenge through the deploy hook, waits, starts a watcher that removes the record once
  the authorization is no longer pending, and triggers the upstream.

  The watcher runs beside the worker from before the trigger, so the two are steps of one
  machine; the code of each is a method whose effect is a path of the machine.
*/
module ChallengePreparation {
  import opened Paths
  import opened Wrappers
  import opened Text
  import Delegation

  datatype Challenge = Challenge(kind: string, url: string, token: string)

  datatype Authorization = Authorization(identifier: string, challenges: seq<Challenge>)

  datatype Hook = Hook(deployScript: string, cleanupScript: string, delegation: Delegation.DelegationPolicy)

  /** The record a cleanup has to remove, and the authorization that tells when. */
  datatype Watch = Watch(authzUrl: string, target: Delegation.Target, value: string, token: string)

  datatype Event =
    | Deploy(target: Delegation.Target, value: string, token: string, ok: bool)
    | Trigger(url: string)
    | Cleanup(target: Delegation.Target, value: string, token: string)

  /** The answers of the store, the CA, the key, the resolver, the hooks and the propagation wait. */
  datatype Environment = Environment(
    authzUrls: Option<seq<string>>,
    fetch: string -> Option<Authorization>,
    txt: string -> string,
    lookup: string -> Delegation.Answer,
    deployOk: bool,
    propagated: bool,
    contextAlive: bool,
    triggerOk: bool)

  // ---------- the authorization a challenge belongs to ----------

  function FindChallenge(challenges: seq<Challenge>, url: string): Option<Challenge> {
    if challenges == [] then None
    else if challenges[0].url == url then Some(challenges[0])
    else FindChallenge(challenges[1..], url)
  }

  datatype Parent = Parent(authzUrl: string, authz: Authorization, challenge: Challenge)

  /** The first authorization that can be fetched and lists the challenge. */
  function FindParent(fetch: string -> Option<Authorization>, authzUrls: seq<string>, url: string): Option<Parent> {
    if authzUrls == [] then None
    else
      var authz := fetch(authzUrls[0]);
      var found := if authz.Some? then FindChallenge(authz.value.challenges, url) else None;
      if found.Some? then Some(Parent(authzUrls[0], authz.value, found.value))
      else FindParent(fetch, authzUrls[1..], url)
  }

  ghost predicate Lists(fetch: string -> Option<Authorization>, authzUrl: string, url: string) {
    fetch(authzUrl).Some? && exists c :: c in fetch(authzUrl).value.challenges && c.url == url
  }

  /** The first of the challenges with the URL. */
  ghost predicate FirstAt(challenges: seq<Challenge>, url: string, i: int) {
    0 <= i < |challenges| && challenges[i].url == url && forall j :: 0 <= j < i ==> challenges[j].url != url
  }

  lemma {:induction false} FindChallengeExact(challenges: seq<Challenge>, url: string)
    ensures FindChallenge(challenges, url).Some? <==> exists c :: c in challenges && c.url == url
    ensures forall i :: FirstAt(challenges, url, i) ==> FindChallenge(challenges, url) == Some(challenges[i])
    ensures FindChallenge(challenges, url).Some? ==>
      FindChallenge(challenges, url).value in challenges && FindChallenge(challenges, url).value.url == url
  {
    if challenges != [] {
      FindChallengeExact(challenges[1..], url);
      assert forall c :: c in challenges <==> c == challenges[0] || c in challenges[1..];
      forall i | FirstAt(challenges, url, i) ensures FindChallenge(challenges, url) == Some(challenges[i]) {
        if i > 0 {
          assert challenges[0].url != url;
          assert FirstAt(challenges[1..], url, i - 1);
        }
      }
    }
  }

  /** The first of the order's authorizations that can be fetched and lists the challenge. */
  ghost predicate FirstListing(fetch: string -> Option<Authorization>, authzUrls: seq<string>, url: string, i: int) {
    0 <= i < |authzUrls| && Lists(fetch, authzUrls[i], url) && forall j :: 0 <= j < i ==> !Lists(fetch, authzUrls[j], url)
  }

  lemma ListsIsFound(fetch: string -> Option<Authorization>, authzUrl: string, url: string)
    ensures Lists(fetch, authzUrl, url) <==> fetch(authzUrl).Some? && FindChallenge(fetch(authzUrl).value.challenges, url).Some?
  {
    if fetch(authzUrl).Some? { FindChallengeExact(fetch(authzUrl).value.challenges, url); }
  }

  /**
    A parent is found exactly when some authorization of the order can be fetched and lists
    the challenge; it is the first such authorization.
  */
  lemma {:induction false} FindParentExact(fetch: string -> Option<Authorization>, authzUrls: seq<string>, url: string)
    ensures FindParent(fetch, authzUrls, url).Some? <==> exists a :: a in authzUrls && Lists(fetch, a, url)
    ensures FindParent(fetch, authzUrls, url).Some? ==>
      var p := FindParent(fetch, authzUrls, url).value;
      p.authzUrl in authzUrls && fetch(p.authzUrl) == Some(p.authz) && p.challenge in p.authz.challenges && p.challenge.url == url
    ensures forall i :: FirstListing(fetch, authzUrls, url, i) ==>
      FindParent(fetch, authzUrls, url).Some? && FindParent(fetch, authzUrls, url).value.authzUrl == authzUrls[i]
  {
    if authzUrls != [] {
      FindParentExact(fetch, authzUrls[1..], url);
      ListsIsFound(fetch, authzUrls[0], url);
      if fetch(authzUrls[0]).Some? { FindChallengeExact(fetch(authzUrls[0]).value.challenges, url); }
      assert forall a :: a in authzUrls <==> a == authzUrls[0] || a in authzUrls[1..];
      forall i | FirstListing(fetch, authzUrls, url, i)
        ensures FindParent(fetch, authzUrls, url).Some? && FindParent(fetch, authzUrls, url).value.authzUrl == authzUrls[i]
      {
        if i > 0 {
          assert !Lists(fetch, authzUrls[0], url);
          assert FirstListing(fetch, authzUrls[1..], url, i - 1);
        }
      }
    }
  }

  function DomainOf(identifier: string): string {
    TrimSuffix(TrimSpace(identifier), ".")
  }

  /** A domain with white space around it, and with or without one trailing dot, is the domain. */
  lemma DomainOfSpelling(pre: string, domain: string, post: string)
    requires AllSpace(pre) && AllSpace(post) && Delegation.IsPlainName(domain)
    ensures DomainOf(pre + domain + post) == DomainOf(pre + (domain + ".") + post) == domain
  {
    assert domain[0] in domain && domain[|domain|-1] in domain;
    AllSpaceTrims(pre);
    AllSpaceTrims(post);
    TrimAround(pre, domain, post);
    TrimAround(pre, domain + ".", post);
    assert "" + domain + "" == domain && "" + (domain + ".") + "" == domain + ".";
    AffixLaws(domain, ".");
    assert !HasSuffix(domain, ".");
  }

  // ---------- what is deployed, and when nothing is ----------

  ghost function ParentOf(env: Environment, url: string): Option<Parent> {
    if env.authzUrls.None? then None else FindParent(env.fetch, env.authzUrls.value, url)
  }

  /** Preparation has nothing to publish: no hook, no authorization found, or another challenge type. */
  ghost predicate NothingToDeploy(hook: Hook, env: Environment, url: string) {
    || hook.deployScript == ""
    || (env.authzUrls.Some? && (ParentOf(env, url).None? || ParentOf(env, url).value.challenge.kind != "dns-01"))
  }

  /** The record that proves control: the key's TXT value of the token, at the resolved target. */
  ghost predicate IsRecordOf(hook: Hook, env: Environment, url: string, target: Delegation.Target, value: string, token: string) {
    var parent := ParentOf(env, url);
    && parent.Some? && parent.value.challenge.kind == "dns-01"
    && token == parent.value.challenge.token && token != "" && value == env.txt(token)
    && var domain := DomainOf(parent.value.authz.identifier);
       domain != "" && Delegation.TargetIs(env.lookup, hook.delegation, domain, "_acme-challenge." + domain, Some(target))
  }

  /** There is a record to publish, and nothing before the deploy hook stands in the way. */
  ghost predicate Deployable(hook: Hook, env: Environment, url: string) {
    exists target, value, token :: IsRecordOf(hook, env, url, target, value, token)
  }

  /** Preparation succeeds, so the upstream is triggered. */
  ghost predicate Prepares(hook: Hook, env: Environment, url: string) {
    NothingToDeploy(hook, env, url) ||
    (Deployable(hook, env, url) && env.deployOk && (env.propagated || env.contextAlive))
  }

  datatype Outcome = Triggered | TriggerFailed | PreparationFailed

  // ---------- the worker and its watcher ----------

  datatype Tick = Expired | Unanswered | Status(status: string) {
    /** The watcher goes on waiting after this tick. */
    predicate Pending() {
      this == Unanswered || this == Status("pending")
    }
  }

  /** Everything outside one challenge's processing, fixed for its duration. */
  datatype Context = Context(hook: Hook, env: Environment, url: string)

  datatype WorkerPc =
    | Preparing
    | Propagating      // the record is deployed
    | Ready            // preparation succeeded; the trigger is next
    | Ended(outcome: Outcome)

  datatype WatcherPc = Absent | Watching | Cleaned

  /** `record` is what was deployed successfully, and what a watcher watches. */
  datatype State = State(trace: seq<Event>, worker: WorkerPc, watcher: WatcherPc, record: Option<Watch>)

  datatype Action =
    | Skip
    | Refuse                                // no name, no token or no target: nothing is deployed
    | DeployRecord(record: Watch)
    | Propagate                             // the wait ends; on success the watcher is started
    | TriggerUpstream
    | WatchTick(tick: Tick)

  const START := State([], Preparing, Absent, None)

  /** The record of this challenge, with the authorization it belongs to. */
  ghost predicate IsRecord(x: Context, w: Watch) {
    && !NothingToDeploy(x.hook, x.env, x.url) && IsRecordOf(x.hook, x.env, x.url, w.target, w.value, w.token)
    && w.authzUrl == ParentOf(x.env, x.url).value.authzUrl
  }

  function DeployOf(w: Watch, ok: bool): Event {
    Deploy(w.target, w.value, w.token, ok)
  }

  function CleanupOf(w: Watch): Event {
    Cleanup(w.target, w.value, w.token)
  }

  ghost predicate Enabled(x: Context, s: State, a: Action) {
    match a
    case Skip => s.worker.Preparing? && NothingToDeploy(x.hook, x.env, x.url)
    case Refuse => s.worker.Preparing? && !NothingToDeploy(x.hook, x.env, x.url) && !Deployable(x.hook, x.env, x.url)
    case DeployRecord(w) => s.worker.Preparing? && IsRecord(x, w)
    case Propagate => s.worker.Propagating?
    case TriggerUpstream => s.worker.Ready?
    case WatchTick(_) => s.watcher.Watching? && s.record.Some?
  }

  ghost function Apply(x: Context, s: State, a: Action): State
    requires Enabled(x, s, a)
  {
    match a
    case Skip => s.(worker := Ready)
    case Refuse => s.(worker := Ended(PreparationFailed))
    case DeployRecord(w) =>
      var s' := s.(trace := s.trace + [DeployOf(w, x.env.deployOk)]);
      if x.env.deployOk then s'.(worker := Propagating, record := Some(w)) else s'.(worker := Ended(PreparationFailed))
    case Propagate =>
      if x.env.propagated || x.env.contextAlive
      then s.(worker := Ready, watcher := if x.hook.cleanupScript != "" then Watching else Absent)
      else s.(worker := Ended(PreparationFailed))
    case TriggerUpstream =>
      s.(trace := s.trace + [Trigger(x.url)], worker := Ended(if x.env.triggerOk then Triggered else TriggerFailed))
    case WatchTick(tick) =>
      if tick.Pending() then s else s.(trace := s.trace + [CleanupOf(s.record.value)], watcher := Cleaned)
  }

  ghost predicate Next(x: Context, s: State, s': State) {
    exists a :: Enabled(x, s, a) && s' == Apply(x, s, a)
  }

  ghost function Steps(x: Context): (State, State) -> bool {
    (s, s') => Next(x, s, s')
  }

  ghost predicate IsRun(x: Context, run: seq<State>) {
    IsPath(Steps(x), run) && run[0] == START
  }

  predicate PreparedPc(w: WorkerPc) {
    w == Ready || (w.Ended? && w.outcome != PreparationFailed)
  }

  /** What is in the trace besides the deploy: the trigger and the cleanup, in either order. */
  ghost predicate TraceOf(x: Context, s: State) {
    var d := if s.record.Some? then [DeployOf(s.record.value, true)] else [];
    var t := if s.worker.Ended? && s.worker.outcome != PreparationFailed then [Trigger(x.url)] else [];
    var c := if s.watcher.Cleaned? && s.record.Some? then [CleanupOf(s.record.value)] else [];
    || s.trace == d + t + c
    || s.trace == d + c + t
    || (s.record.None? && s.worker == Ended(PreparationFailed) && exists w :: IsRecord(x, w) && s.trace == [DeployOf(w, false)])
  }

  ghost predicate Inv(x: Context, s: State) {
    && (s.record.Some? ==> IsRecord(x, s.record.value) && x.env.deployOk)
    && (s.worker.Preparing? ==> s.record.None?)
    && (s.worker.Propagating? ==> s.record.Some?)
    && (PreparedPc(s.worker) ==> Prepares(x.hook, x.env, x.url) && (s.record.None? <==> NothingToDeploy(x.hook, x.env, x.url)))
    && (s.worker == Ended(PreparationFailed) ==> !Prepares(x.hook, x.env, x.url))
    && (!s.watcher.Absent? <==> s.record.Some? && PreparedPc(s.worker) && x.hook.cleanupScript != "")
    && TraceOf(x, s)
  }

  lemma RecordMakesDeployable(x: Context, w: Watch)
    requires IsRecord(x, w)
    ensures Deployable(x.hook, x.env, x.url)
  {
  }

  lemma InvStep(x: Context, s: State, a: Action)
    requires Inv(x, s) && Enabled(x, s, a)
    ensures Inv(x, Apply(x, s, a))
  {
    if a.DeployRecord? { RecordMakesDeployable(x, a.record); }
    if s.record.Some? { RecordMakesDeployable(x, s.record.value); }
  }

  /**
    A tick of the watcher, by what it brings: no answer and the status "pending" change
    nothing; the end of the five minutes and any other status clean the record up.
  */
  lemma TickCleansExactly(x: Context, s: State, tick: Tick)
    requires Enabled(x, s, WatchTick(tick))
    ensures var s' := Apply(x, s, WatchTick(tick));
      if tick == Unanswered || tick == Status("pending") then s' == s
      else s'.trace == s.trace + [CleanupOf(s.record.value)] && s'.watcher == Cleaned && s'.worker == s.worker
  {
  }

  lemma RunInv(x: Context, run: seq<State>, i: nat)
    requires IsRun(x, run) && i < |run|
    ensures Inv(x, run[i])
  {
    forall s, s' | Inv(x, s) && Next(x, s, s') ensures Inv(x, s') {
      var a :| Enabled(x, s, a) && s' == Apply(x, s, a);
      InvStep(x, s, a);
    }
    Always(Steps(x), s => Inv(x, s), run, i);
  }

  /**
    In every run, the upstream is triggered only after the key's TXT value was deployed at
    the resolved target - unless there was nothing to deploy.
  */
  lemma TriggerFollowsDeploy(x: Context, run: seq<State>, i: nat, k: nat)
    requires IsRun(x, run) && i < |run| && k < |run[i].trace| && run[i].trace[k].Trigger?
    requires !NothingToDeploy(x.hook, x.env, x.url)
    ensures k > 0 && exists w :: IsRecord(x, w) && run[i].trace[0] == DeployOf(w, true)
  {
    RunInv(x, run, i);
  }

  /** Some authorization of the order can be fetched and lists the challenge. */
  ghost predicate IsListed(x: Context) {
    x.env.authzUrls.Some? && exists a :: a in x.env.authzUrls.value && Lists(x.env.fetch, a, x.url)
  }

  ghost predicate OnlyDns01(x: Context) {
    x.env.authzUrls.Some? ==>
      forall a :: a in x.env.authzUrls.value && x.env.fetch(a).Some? ==>
        forall c :: c in x.env.fetch(a).value.challenges && c.url == x.url ==> c.kind == "dns-01"
  }

  lemma NothingToDeployExactly(x: Context)
    requires x.hook.deployScript != "" && x.env.authzUrls.Some? && OnlyDns01(x)
    ensures NothingToDeploy(x.hook, x.env, x.url) <==> !IsListed(x)
  {
    FindParentExact(x.env.fetch, x.env.authzUrls.value, x.url);
  }

  /**
    With a deploy hook and a readable list of authorizations, a triggered dns-01 challenge
    was deployed exactly when one of them could be fetched and lists it.
  */
  lemma TriggeredDeployedExactly(x: Context, run: seq<State>, i: nat)
    requires IsRun(x, run) && i < |run| && Trigger(x.url) in run[i].trace
    requires x.hook.deployScript != "" && x.env.authzUrls.Some? && OnlyDns01(x)
    ensures (exists w :: IsRecord(x, w) && DeployOf(w, true) in run[i].trace) <==> IsListed(x)
  {
    RunInv(x, run, i);
    NothingToDeployExactly(x);
    if IsListed(x) {
      assert IsRecord(x, run[i].record.value) && run[i].trace[0] == DeployOf(run[i].record.value, true);
    }
  }

  /** A hooked dns-01 challenge whose only authorization cannot be fetched just now. */
  const UNFETCHABLE := Context(
    Hook("deploy.sh", "", Delegation.DelegationPolicy(None, "", [])),
    Environment(Some(["authz"]), _ => None, token => token, _ => Delegation.NotFound, true, true, true, true),
    "challenge")

  /** It is triggered without a record. */
  lemma UnfetchableIsTriggeredUndeployed() returns (run: seq<State>)
    ensures IsRun(UNFETCHABLE, run) && run[|run|-1].trace == [Trigger("challenge")]
    ensures run[|run|-1].worker == Ended(Triggered) && UNFETCHABLE.hook.deployScript != ""
  {
    NothingToDeployExactly(UNFETCHABLE);
    run := [START];
    run := Then(UNFETCHABLE, run, Skip);
    run := Then(UNFETCHABLE, run, TriggerUpstream);
  }

  /** Whatever is cleaned up was deployed before, is this challenge's record, and is cleaned up once. */
  lemma CleanupFollowsItsDeploy(x: Context, run: seq<State>, i: nat, k: nat)
    requires IsRun(x, run) && i < |run| && k < |run[i].trace| && run[i].trace[k].Cleanup?
    ensures k > 0 && exists w :: IsRecord(x, w) && run[i].trace[0] == DeployOf(w, true) && run[i].trace[k] == CleanupOf(w)
    ensures forall j :: 0 <= j < |run[i].trace| && run[i].trace[j].Cleanup? ==> j == k
  {
    RunInv(x, run, i);
  }

  /**
    Once worker and watcher are done, the trace holds exactly what it should: nothing but a
    deploy if preparation failed; otherwise one trigger, and if a record had to be deployed,
    its one deploy and, with a cleanup script, its one cleanup.
  */
  lemma FinishedTrace(x: Context, run: seq<State>, i: nat)
    requires IsRun(x, run) && i < |run| && run[i].worker.Ended? && !run[i].watcher.Watching?
    ensures var s := run[i];
      && (s.worker.outcome == PreparationFailed <==> !Prepares(x.hook, x.env, x.url))
      && (s.worker.outcome == PreparationFailed ==> |s.trace| <= 1 && forall e :: e in s.trace ==> e.Deploy?)
      && (Prepares(x.hook, x.env, x.url) && NothingToDeploy(x.hook, x.env, x.url) ==> s.trace == [Trigger(x.url)])
      && (Prepares(x.hook, x.env, x.url) && !NothingToDeploy(x.hook, x.env, x.url) ==>
            s.record.Some? && IsRecord(x, s.record.value) &&
            multiset(s.trace) == multiset{DeployOf(s.record.value, true), Trigger(x.url)} +
              if x.hook.cleanupScript != "" then multiset{CleanupOf(s.record.value)} else multiset{})
  {
    RunInv(x, run, i);
  }

  // ---------- both orders of trigger and cleanup ----------

  lemma Then(x: Context, run: seq<State>, a: Action) returns (run': seq<State>)
    requires IsRun(x, run) && Enabled(x, run[|run|-1], a)
    ensures IsRun(x, run') && run'[|run'|-1] == Apply(x, run[|run|-1], a)
  {
    run' := Extend(Steps(x), run, Apply(x, run[|run|-1], a));
  }

  lemma RunToReady(x: Context, w: Watch) returns (run: seq<State>)
    requires IsRecord(x, w) && x.env.deployOk && (x.env.propagated || x.env.contextAlive) && x.hook.cleanupScript != ""
    ensures IsRun(x, run) && run[|run|-1] == State([DeployOf(w, true)], Ready, Watching, Some(w))
  {
    run := [START];
    run := Then(x, run, DeployRecord(w));
    run := Then(x, run, Propagate);
  }

  /** Nothing orders the trigger before the cleanup: whenever a watcher is started, both orders occur. */
  lemma CleanupMayPrecedeTrigger(x: Context, w: Watch) returns (run: seq<State>, run': seq<State>)
    requires IsRecord(x, w) && x.env.deployOk && (x.env.propagated || x.env.contextAlive) && x.hook.cleanupScript != ""
    ensures IsRun(x, run) && run[|run|-1].trace == [DeployOf(w, true), CleanupOf(w), Trigger(x.url)]
    ensures IsRun(x, run') && run'[|run'|-1].trace == [DeployOf(w, true), Trigger(x.url), CleanupOf(w)]
  {
    run := RunToReady(x, w);
    run' := Then(x, run, TriggerUpstream);
    run' := Then(x, run', WatchTick(Status("valid")));
    run := Then(x, run, WatchTick(Status("valid")));
    run := Then(x, run, TriggerUpstream);
  }

  // ---------- the code, as paths of the machine ----------

  /** The state an undisturbed worker leaves: its watcher, if any, has not ticked yet. */
  ghost function AfterWorker(trace: seq<Event>, r: Outcome, watch: Option<Watch>, record: Option<Watch>): State {
    State(trace, Ended(r), if watch.Some? then Watching else Absent, record)
  }

  lemma PathSkips(x: Context) returns (s: State)
    requires NothingToDeploy(x.hook, x.env, x.url)
    ensures s == AfterWorker([Trigger(x.url)], if x.env.triggerOk then Triggered else TriggerFailed, None, None)
    ensures Reaches(Steps(x), START, s)
  {
    ReachesSelf(Steps(x), START);
    ReachesStep(Steps(x), START, START, Apply(x, START, Skip));
    var m := Apply(x, START, Skip);
    ReachesStep(Steps(x), START, m, Apply(x, m, TriggerUpstream));
    s := Apply(x, m, TriggerUpstream);
  }

  lemma PathRefuses(x: Context) returns (s: State)
    requires !NothingToDeploy(x.hook, x.env, x.url) && !Deployable(x.hook, x.env, x.url)
    ensures Reaches(Steps(x), START, s) && s == AfterWorker([], PreparationFailed, None, None)
  {
    ReachesSelf(Steps(x), START);
    ReachesStep(Steps(x), START, START, Apply(x, START, Refuse));
    s := Apply(x, START, Refuse);
  }

  lemma PathDeploys(x: Context, w: Watch) returns (s: State)
    requires IsRecord(x, w)
    ensures Reaches(Steps(x), START, s)
    ensures var d := DeployOf(w, x.env.deployOk);
      if !x.env.deployOk then s == AfterWorker([d], PreparationFailed, None, None)
      else if !x.env.propagated && !x.env.contextAlive then s == AfterWorker([d], PreparationFailed, None, Some(w))
      else s == AfterWorker([d, Trigger(x.url)], if x.env.triggerOk then Triggered else TriggerFailed,
                            if x.hook.cleanupScript != "" then Some(w) else None, Some(w))
  {
    ReachesSelf(Steps(x), START);
    ReachesStep(Steps(x), START, START, Apply(x, START, DeployRecord(w)));
    s := Apply(x, START, DeployRecord(w));
    if x.env.deployOk {
      ReachesStep(Steps(x), START, s, Apply(x, s, Propagate));
      s := Apply(x, s, Propagate);
      if s.worker.Ready? {
        ReachesStep(Steps(x), START, s, Apply(x, s, TriggerUpstream));
        s := Apply(x, s, TriggerUpstream);
      }
    }
  }

  class Worker {
    var trace: seq<Event>

    constructor ()
      ensures trace == []
    {
      trace := [];
    }

    method Prepare(hook: Hook, env: Environment, url: string) returns (ok: bool, watch: Option<Watch>)
      modifies this
      ensures NothingToDeploy(hook, env, url) ==> ok && watch == None && trace == old(trace)
      ensures !NothingToDeploy(hook, env, url) && trace == old(trace) ==> !ok && watch == None && !Deployable(hook, env, url)
      ensures trace != old(trace) ==>
        exists target, value, token :: (
          && IsRecordOf(hook, env, url, target, value, token)
          && trace == old(trace) + [Deploy(target, value, token, env.deployOk)]
          && (ok <==> env.deployOk && (env.propagated || env.contextAlive))
          && (if ok && hook.cleanupScript != ""
              then watch == Some(Watch(ParentOf(env, url).value.authzUrl, target, value, token))
              else watch == None))
    {
      if hook.deployScript == "" {
        return true, None;
      }
      if env.authzUrls.None? {
        return false, None;
      }
      var urls := env.authzUrls.value;
      for i := 0 to |urls|
        invariant trace == old(trace)
        invariant FindParent(env.fetch, urls, url) == FindParent(env.fetch, urls[i..], url)
      {
        assert urls[i..][1..] == urls[i+1..];
        var authz := env.fetch(urls[i]);
        if authz.Some? {
          var ch := FindChallenge(authz.value.challenges, url);
          if ch.Some? {
            if ch.value.kind != "dns-01" {
              return true, None;
            }
            ok, watch := PublishRecord(hook, env, url, urls[i], authz.value, ch.value);
            return;
          }
        }
      }
      return true, None;
    }

    method PublishRecord(hook: Hook, env: Environment, url: string, authzUrl: string, authz: Authorization, ch: Challenge)
      returns (ok: bool, watch: Option<Watch>)
      requires ParentOf(env, url) == Some(Parent(authzUrl, authz, ch)) && ch.kind == "dns-01"
      modifies this
      ensures trace == old(trace) ==> !ok && watch == None && !Deployable(hook, env, url)
      ensures trace != old(trace) ==>
        exists target, value, token :: (
          && IsRecordOf(hook, env, url, target, value, token)
          && trace == old(trace) + [Deploy(target, value, token, env.deployOk)]
          && (ok <==> env.deployOk && (env.propagated || env.contextAlive))
          && (if ok && hook.cleanupScript != "" then watch == Some(Watch(authzUrl, target, value, token)) else watch == None))
    {
      watch := None;
      var domain := DomainOf(authz.identifier);
      if domain == "" || ch.token == "" {
        return false, None;
      }
      var value := env.txt(ch.token);
      var target := Delegation.ResolveDNSChallengeTarget(env.lookup, hook.delegation, domain, "_acme-challenge." + domain);
      if target.None? {
        forall t | Delegation.TargetIs(env.lookup, hook.delegation, domain, "_acme-challenge." + domain, Some(t)) ensures false {
          Delegation.TargetIsUnique(env.lookup, hook.delegation, domain, "_acme-challenge." + domain, None, Some(t));
        }
        return false, None;
      }
      assert IsRecordOf(hook, env, url, target.value, value, ch.token);
      trace := trace + [Deploy(target.value, value, ch.token, env.deployOk)];
      assert trace != old(trace);
      if !env.deployOk {
        return false, None;
      }
      if !env.propagated && !env.contextAlive {
        return false, None;
      }
      if hook.cleanupScript != "" {
        watch := Some(Watch(authzUrl, target.value, value, ch.token));
      }
      return true, watch;
    }

    /**
      Prepare, then trigger the upstream unless preparation failed.  The effect of an
      undisturbed call is a path of the machine from its start.
    */
    method Process(hook: Hook, env: Environment, url: string) returns (r: Outcome, watch: Option<Watch>, ghost s: State)
      modifies this
      ensures r != PreparationFailed <==> Prepares(hook, env, url)
      ensures r == Triggered <==> Prepares(hook, env, url) && env.triggerOk
      ensures r == PreparationFailed ==> (trace != old(trace) <==> Deployable(hook, env, url))
      ensures trace == old(trace) + s.trace && Reaches(Steps(Context(hook, env, url)), START, s)
      ensures s == AfterWorker(s.trace, r, watch, s.record) && (watch.Some? ==> watch == s.record)
    {
      ghost var x := Context(hook, env, url);
      var ok;
      ok, watch := Prepare(hook, env, url);
      if trace != old(trace) {
        ghost var target, value, token :|
          && IsRecordOf(hook, env, url, target, value, token)
          && trace == old(trace) + [Deploy(target, value, token, env.deployOk)]
          && (ok <==> env.deployOk && (env.propagated || env.contextAlive))
          && (if ok && hook.cleanupScript != ""
              then watch == Some(Watch(ParentOf(env, url).value.authzUrl, target, value, token))
              else watch == None);
        s := PathDeploys(x, Watch(ParentOf(env, url).value.authzUrl, target, value, token));
      } else if ok {
        s := PathSkips(x);
      } else {
        s := PathRefuses(x);
      }
      if !ok {
        return PreparationFailed, None, s;
      }
      trace := trace + [Trigger(url)];
      return if env.triggerOk then Triggered else TriggerFailed, watch, s;
    }

    /**
      The cleanup watcher.  Each tick either ends the wait (the five minutes are over), or
      brings no answer, or an authorization status; whatever comes, the hook runs once, and
      not before the five minutes are over or the authorization is no longer pending.
    */
    method WatchAndClean(watch: Watch, ticks: seq<Tick>, ghost x: Context, ghost m: State)
      returns (waited: nat, ghost m': State)
      requires m.watcher.Watching? && m.record == Some(watch)
      modifies this
      ensures trace == old(trace) + [Cleanup(watch.target, watch.value, watch.token)]
      ensures waited <= |ticks| && forall i :: 0 <= i < waited ==> ticks[i] == Unanswered || ticks[i] == Status("pending")
      ensures waited < |ticks| ==> ticks[waited] == Expired || (ticks[waited].Status? && ticks[waited].status != "pending")
      ensures Reaches(Steps(x), m, m') && m' == m.(trace := m.trace + [CleanupOf(watch)], watcher := Cleaned)
    {
      waited := 0;
      ReachesSelf(Steps(x), m);
      while waited < |ticks|
        invariant waited <= |ticks| && trace == old(trace)
        invariant forall i :: 0 <= i < waited ==> ticks[i].Pending()
      {
        if ticks[waited].Expired? {
          break;
        }
        if ticks[waited].Unanswered? || ticks[waited].status == "pending" {
          waited := waited + 1;
          continue;
        }
        trace := trace + [Cleanup(watch.target, watch.value, watch.token)];
        ReachesStep(Steps(x), m, m, Apply(x, m, WatchTick(ticks[waited])));
        return waited, Apply(x, m, WatchTick(ticks[waited]));
      }
      trace := trace + [Cleanup(watch.target, watch.value, watch.token)];
      ReachesStep(Steps(x), m, m, Apply(x, m, WatchTick(Expired)));
      m' := Apply(x, m, WatchTick(Expired));
    }
  }
}
