/**
  The upstream client's nonces: an eight-slot ring shared by concurrent signed posts, each
  of which retries a badNonce rejection with another nonce, three attempts in all.
*/
module UpstreamNonces {
  import opened Paths
  import opened Wrappers

  const POOL_SIZE: nat := 8
  const MAX_ATTEMPTS: nat := 3

  // ---------- the ring is a bounded queue ----------

  /** Arrivals go to the back; empty ones and those that find the queue full are dropped. */
  function Put(queue: seq<string>, n: string): seq<string> {
    if n == "" || |queue| >= POOL_SIZE then queue else queue + [n]
  }

  /** The slot `k` positions after slot 0, for at most one turn of the ring. */
  ghost function Slot(k: nat): nat
    requires k < 2 * POOL_SIZE
  {
    if k < POOL_SIZE then k else k - POOL_SIZE
  }

  class NonceRing {
    var nonces: array<string>
    var head: nat
    var tail: nat
    var count: nat

    ghost predicate Valid()
      reads this
    {
      nonces.Length == POOL_SIZE && head < POOL_SIZE && tail < POOL_SIZE && count <= POOL_SIZE &&
      tail == Slot(head + count)
    }

    ghost function Contents(): (s: seq<string>)
      reads this, nonces
      requires Valid()
      ensures |s| == count
    {
      seq(count, i requires 0 <= i < count reads this, nonces requires Valid() => nonces[Slot(head + i)])
    }

    constructor ()
      ensures Valid() && fresh(nonces) && Contents() == []
    {
      nonces := new string[POOL_SIZE](_ => "");
      head, tail, count := 0, 0, 0;
    }

    /** The pooled half of getNonce. */
    method Take() returns (n: Option<string>)
      requires Valid()
      modifies this`head, this`count, nonces
      ensures Valid()
      ensures if old(Contents()) == [] then n == None && Contents() == []
              else n == Some(old(Contents())[0]) && Contents() == old(Contents())[1..]
    {
      if count == 0 {
        return None;
      }
      assert Contents()[0] == nonces[Slot(head + 0)];
      n := Some(nonces[head]);
      nonces[head] := "";
      head := (head + 1) % POOL_SIZE;
      count := count - 1;
      assert head == Slot(old(head) + 1);
      forall i | 0 <= i < count ensures Contents()[i] == old(Contents())[i+1] {
        assert Slot(head + i) == Slot(old(head) + (i + 1)) && Slot(head + i) != old(head);
      }
    }

    method Save(n: string)
      requires Valid()
      modifies this`tail, this`count, nonces
      ensures Valid() && Contents() == Put(old(Contents()), n)
    {
      if n != "" && count < POOL_SIZE {
        nonces[tail] := n;
        tail := (tail + 1) % POOL_SIZE;
        count := count + 1;
        assert tail == Slot(old(tail) + 1);
        forall i | 0 <= i < old(count) ensures Contents()[i] == old(Contents())[i] {
          assert Slot(head + i) != old(tail);
        }
      }
    }
  }

  // ---------- one signed post ----------

  /** A JSON body reads as a problem document and as an order; absent fields are empty. */
  datatype Body = NotJson | Json(problemType: string, detail: string, subproblems: string, orderStatus: string)

  datatype Reply = Reply(status: int, replayNonce: string, body: Body)

  const BAD_NONCE := "urn:ietf:params:acme:error:badNonce"

  predicate IsBadNonce(r: Reply) {
    r.status == 400 && r.body.Json? && r.body.problemType == BAD_NONCE
  }

  /** How one attempt goes: the HEAD answer if the pool is empty, the signing, the POST. */
  datatype Attempt = Attempt(headNonce: string, signOk: bool, reply: Option<Reply>)

  datatype PostResult = NoNonce | NotSigned | NoReply | Rejected | Response(reply: Reply)

  ghost predicate NonEmpty(queue: seq<string>) {
    forall n :: n in queue ==> n != ""
  }

  lemma NonEmptyKept(queue: seq<string>, n: string)
    requires NonEmpty(queue)
    ensures NonEmpty(Put(queue, n))
    ensures queue != [] ==> NonEmpty(queue[1..]) && queue[0] != ""
  {
    if queue != [] {
      assert queue[0] in queue;
      forall m | m in queue[1..] ensures m in queue { }
    }
  }

  /** The reply that section 6.5 of RFC 8555 has retried. */
  ghost predicate RefusesNonce(r: Option<Reply>) {
    r.Some? && r.value.status == 400 && r.value.body.Json? && r.value.body.problemType == "urn:ietf:params:acme:error:badNonce"
  }

  /** The first `k` attempts were all answered badNonce. */
  ghost predicate AllRefused(env: nat -> Attempt, k: nat) {
    forall i: nat :: i < k ==> RefusesNonce(env(i).reply)
  }

  /** A call from its `k`-th attempt on, on the queue: result, nonces signed, queue left. */
  datatype Posted = Posted(result: PostResult, sent: seq<string>, queue: seq<string>)

  /** One attempt: the call stops, or the nonce was refused and the queue is as it is. */
  datatype Turn = Stop(posted: Posted) | Again(nonce: string, queue: seq<string>)

  ghost function TurnOf(queue: seq<string>, attempt: Attempt): Turn {
    var nonce := if queue == [] then attempt.headNonce else queue[0];
    var rest := if queue == [] then [] else queue[1..];
    var reply := attempt.reply;
    if nonce == "" then Stop(Posted(NoNonce, [], rest))
    else if !attempt.signOk then Stop(Posted(NotSigned, [], rest))
    else if reply.None? then Stop(Posted(NoReply, [nonce], rest))
    else if !RefusesNonce(reply) then Stop(Posted(Response(reply.value), [nonce], Put(rest, reply.value.replayNonce)))
    else Again(nonce, Put(rest, reply.value.replayNonce))
  }

  ghost function Post(queue: seq<string>, env: nat -> Attempt, k: nat): Posted
    requires k <= MAX_ATTEMPTS
    decreases MAX_ATTEMPTS - k
  {
    if k == MAX_ATTEMPTS then Posted(Rejected, [], queue)
    else
      match TurnOf(queue, env(k))
      case Stop(p) => p
      case Again(nonce, left) => Prefixed([nonce], Post(left, env, k + 1))
  }

  ghost function Prefixed(sent: seq<string>, p: Posted): Posted {
    p.(sent := sent + p.sent)
  }

  lemma PrefixedTwice(a: seq<string>, b: seq<string>, p: Posted)
    ensures Prefixed(a, Prefixed(b, p)) == Prefixed(a + b, p)
  {
    assert a + (b + p.sent) == (a + b) + p.sent;
  }

  /** Attempts sign and pool no empty nonce. */
  lemma TurnNonEmpty(queue: seq<string>, attempt: Attempt)
    requires NonEmpty(queue)
    ensures match TurnOf(queue, attempt)
      case Stop(p) => NonEmpty(p.queue) && NonEmpty(p.sent) && (p.result.NoNonce? ==> p.queue == [] && attempt.headNonce == "")
      case Again(nonce, left) => nonce != "" && NonEmpty(left)
  {
    NonEmptyKept(queue, "");
    if attempt.reply.Some? {
      NonEmptyKept(if queue == [] then [] else queue[1..], attempt.reply.value.replayNonce);
    }
  }

  /** No empty nonce is signed or pooled. */
  lemma {:induction false} PostNonEmpty(queue: seq<string>, env: nat -> Attempt, k: nat)
    requires NonEmpty(queue) && k <= MAX_ATTEMPTS
    ensures NonEmpty(Post(queue, env, k).queue) && NonEmpty(Post(queue, env, k).sent)
    decreases MAX_ATTEMPTS - k
  {
    if k < MAX_ATTEMPTS {
      var turn := TurnOf(queue, env(k));
      TurnNonEmpty(queue, env(k));
      if turn.Again? { PostNonEmpty(turn.queue, env, k + 1); }
    }
  }

  /** What the answers say about a call that signed `n` nonces in all. */
  ghost predicate EndsAs(p: Posted, env: nat -> Attempt, n: nat) {
    match p.result
    case Response(reply) => n > 0 && AllRefused(env, n - 1) && env(n - 1).reply == Some(reply) && !RefusesNonce(Some(reply))
    case Rejected => n == MAX_ATTEMPTS && AllRefused(env, n)
    case NoReply => n > 0 && AllRefused(env, n - 1) && env(n - 1).reply == None
    case NoNonce => n < MAX_ATTEMPTS && AllRefused(env, n) && env(n).headNonce == "" && p.queue == []
    case NotSigned => n < MAX_ATTEMPTS && AllRefused(env, n) && !env(n).signOk
  }

  /** The call ends as its result says, at the first attempt that is not answered badNonce. */
  lemma {:induction false} PostEnds(queue: seq<string>, env: nat -> Attempt, k: nat)
    requires NonEmpty(queue) && k <= MAX_ATTEMPTS && AllRefused(env, k)
    ensures var p := Post(queue, env, k); k + |p.sent| <= MAX_ATTEMPTS && EndsAs(p, env, k + |p.sent|)
    decreases MAX_ATTEMPTS - k
  {
    if k < MAX_ATTEMPTS {
      var turn := TurnOf(queue, env(k));
      TurnNonEmpty(queue, env(k));
      if turn.Again? { PostEnds(turn.queue, env, k + 1); }
    }
  }

  /**
    What becomes of the reply to attempt `k` of a call that signed `n` nonces.  A 400 with
    the problem type badNonce is not the result: another nonce is signed, unless this was
    the last attempt, or there is no nonce, or it cannot be signed.  Any other reply is the
    result at once.
  */
  ghost predicate RetriedExactly(reply: Option<Reply>, k: nat, n: nat, r: PostResult) {
    match reply
    case None => k + 1 == n && r == NoReply
    case Some(answer) =>
      if answer.status == 400 && answer.body.Json? && answer.body.problemType == "urn:ietf:params:acme:error:badNonce"
      then r != Response(answer) && (k + 1 == n ==> if n == MAX_ATTEMPTS then r == Rejected else r == NoNonce || r == NotSigned)
      else k + 1 == n && r == Response(answer)
  }

  lemma EndsRetryExactly(p: Posted, env: nat -> Attempt, n: nat, k: nat)
    requires EndsAs(p, env, n) && k < n <= MAX_ATTEMPTS
    ensures RetriedExactly(env(k).reply, k, n, p.result)
  {
    if k + 1 < n { assert RefusesNonce(env(k).reply); }
  }

  /** One attempt: a nonce, the signature, the POST, and the nonce that comes back. */
  method TryOnce(ring: NonceRing, attempt: Attempt) returns (r: Option<PostResult>, ghost sent: seq<string>)
    requires ring.Valid()
    modifies ring, ring.nonces
    ensures ring.Valid() && ring.nonces == old(ring.nonces)
    ensures match TurnOf(old(ring.Contents()), attempt)
      case Stop(p) => r == Some(p.result) && sent == p.sent && ring.Contents() == p.queue
      case Again(nonce, left) => r == None && sent == [nonce] && ring.Contents() == left
  {
    sent := [];
    var pooled := ring.Take();
    var nonce := if pooled.Some? then pooled.value else attempt.headNonce;
    if nonce == "" {
      return Some(NoNonce), sent;
    }
    if !attempt.signOk {
      return Some(NotSigned), sent;
    }
    sent := [nonce];
    var reply := attempt.reply;
    if reply.None? {
      return Some(NoReply), sent;
    }
    ring.Save(reply.value.replayNonce);
    if !IsBadNonce(reply.value) {
      return Some(Response(reply.value)), sent;
    }
    return None, sent;
  }

  /**
    The result is the first reply that is not badNonce, if one of the first three attempts
    brings it and all before it were badNonce; after three badNonce replies, a plain error.
    One nonce is signed per attempt, never an empty one.
  */
  method SignedPost(ring: NonceRing, env: nat -> Attempt) returns (r: PostResult, ghost sent: seq<string>)
    requires ring.Valid() && NonEmpty(ring.Contents())
    modifies ring, ring.nonces
    ensures ring.Valid() && Posted(r, sent, ring.Contents()) == Post(old(ring.Contents()), env, 0)
    ensures NonEmpty(ring.Contents()) && NonEmpty(sent) && |sent| <= MAX_ATTEMPTS
    ensures EndsAs(Posted(r, sent, ring.Contents()), env, |sent|)
    ensures forall k: nat :: k < |sent| ==> RetriedExactly(env(k).reply, k, |sent|, r)
  {
    ghost var whole := Post(ring.Contents(), env, 0);
    PostEnds(ring.Contents(), env, 0);
    PostNonEmpty(ring.Contents(), env, 0);
    forall k: nat | k < |whole.sent| ensures RetriedExactly(env(k).reply, k, |whole.sent|, whole.result) {
      EndsRetryExactly(whole, env, |whole.sent|, k);
    }
    sent := [];
    for attempt := 0 to MAX_ATTEMPTS
      invariant ring.Valid() && ring.nonces == old(ring.nonces) && |sent| == attempt
      invariant Prefixed(sent, Post(ring.Contents(), env, attempt)) == whole
    {
      PostUnfolds(ring.Contents(), env, attempt);
      var stop, tried := TryOnce(ring, env(attempt));
      ghost var earlier := sent;
      sent := earlier + tried;
      if stop.Some? {
        return stop.value, sent;
      }
      PrefixedTwice(earlier, tried, Post(ring.Contents(), env, attempt + 1));
    }
    return Rejected, sent;
  }

  // ---------- any number of concurrent posts ----------

  type Caller = nat

  /** `k` attempts of the call have been sent. */
  datatype Pc =
    | Idle
    | Wanting(k: nat)
    | Fetching(k: nat)                        // found the pool empty
    | Holding(k: nat, nonce: string)
    | Awaiting(k: nat)
    | Saving(k: nat, nonce: string, bad: bool)  // a reply arrived with this Replay-Nonce, maybe ""

  datatype State = State(
    queue: seq<string>,
    callers: seq<Pc>,
    issued: multiset<string>,
    sent: seq<string>,
    dropped: multiset<string>)

  datatype Action =
    | Begin(c: Caller)
    | TakePooled(c: Caller)
    | FindEmpty(c: Caller)
    | Fetched(c: Caller, nonce: string)
    | Send(c: Caller)
    | Answered(c: Caller, nonce: string, bad: bool)
    | Store(c: Caller)
    | Quit(c: Caller)  // the HEAD, the signing or the POST failed

  ghost predicate Init(s: State) {
    && s.queue == [] && s.issued == multiset{} && s.sent == [] && s.dropped == multiset{}
    && forall c :: 0 <= c < |s.callers| ==> s.callers[c] == Idle
  }

  ghost predicate Enabled(s: State, a: Action) {
    && a.c < |s.callers|
    && var pc := s.callers[a.c];
       match a
       case Begin(_) => pc.Idle?
       case TakePooled(_) => pc.Wanting? && s.queue != []
       case FindEmpty(_) => pc.Wanting? && s.queue == []
       case Fetched(_, n) => pc.Fetching? && n != ""
       case Send(_) => pc.Holding?
       case Answered(_, _, _) => pc.Awaiting?
       case Store(_) => pc.Saving?
       case Quit(_) => pc.Fetching? || pc.Holding? || pc.Awaiting?
  }

  function Nonempty(n: string): multiset<string> {
    if n == "" then multiset{} else multiset{n}
  }

  /** Whether a caller has the nonce in hand, and how many callers do. */
  function Hand(pc: Pc, n: string): nat {
    if (pc.Holding? || pc.Saving?) && n != "" && pc.nonce == n then 1 else 0
  }

  function InHand(callers: seq<Pc>, n: string): nat {
    if callers == [] then 0 else Hand(callers[0], n) + InHand(callers[1..], n)
  }

  ghost function Apply(s: State, a: Action): State
    requires Enabled(s, a)
  {
    var pc := s.callers[a.c];
    match a
    case Begin(c) => s.(callers := s.callers[c := Wanting(0)])
    case TakePooled(c) => s.(queue := s.queue[1..], callers := s.callers[c := Holding(pc.k, s.queue[0])])
    case FindEmpty(c) => s.(callers := s.callers[c := Fetching(pc.k)])
    case Fetched(c, n) => s.(issued := s.issued + Nonempty(n), callers := s.callers[c := Holding(pc.k, n)])
    case Send(c) => s.(sent := s.sent + [pc.nonce], callers := s.callers[c := Awaiting(pc.k + 1)])
    case Answered(c, n, bad) => s.(issued := s.issued + Nonempty(n), callers := s.callers[c := Saving(pc.k, n, bad)])
    case Store(c) =>
      s.(queue := Put(s.queue, pc.nonce),
         dropped := if |s.queue| >= POOL_SIZE then s.dropped + Nonempty(pc.nonce) else s.dropped,
         callers := s.callers[c := if pc.bad && pc.k < MAX_ATTEMPTS then Wanting(pc.k) else Idle])
    case Quit(c) => s.(dropped := if pc.Holding? then s.dropped + Nonempty(pc.nonce) else s.dropped, callers := s.callers[c := Idle])
  }

  ghost predicate Next(s: State, s': State) {
    exists a :: Enabled(s, a) && s' == Apply(s, a)
  }

  ghost predicate IsRun(run: seq<State>) {
    IsPath(Next, run) && Init(run[0])
  }

  ghost predicate CallerOk(pc: Pc) {
    match pc
    case Idle => true
    case Wanting(k) => k < MAX_ATTEMPTS
    case Fetching(k) => k < MAX_ATTEMPTS
    case Holding(k, n) => k < MAX_ATTEMPTS && n != ""
    case Awaiting(k) => k <= MAX_ATTEMPTS
    case Saving(k, _, _) => k <= MAX_ATTEMPTS
  }

  /** Received = pooled + in hand + sent + dropped. */
  ghost predicate Conserved(s: State, n: string) {
    s.issued[n] == multiset(s.queue)[n] + InHand(s.callers, n) + multiset(s.sent)[n] + s.dropped[n]
  }

  ghost predicate CallersOk(s: State) {
    forall c :: 0 <= c < |s.callers| ==> CallerOk(s.callers[c])
  }

  ghost predicate Inv(s: State) {
    && (forall n :: Conserved(s, n))
    && |s.queue| <= POOL_SIZE && NonEmpty(s.queue) && NonEmpty(s.sent) && CallersOk(s)
  }

  lemma {:induction false} InHandUpdate(callers: seq<Pc>, c: nat, pc: Pc, n: string)
    requires c < |callers|
    ensures InHand(callers[c := pc], n) + Hand(callers[c], n) == InHand(callers, n) + Hand(pc, n)
  {
    var updated := callers[c := pc];
    if c == 0 {
      assert updated[1..] == callers[1..];
    } else {
      InHandUpdate(callers[1..], c - 1, pc, n);
      assert updated[1..] == callers[1..][c-1 := pc];
    }
  }

  lemma QueueConserved(s: State, a: Action, n: string)
    requires Enabled(s, a) && Conserved(s, n) && CallersOk(s) && NonEmpty(s.queue) && (a.TakePooled? || a.Store?)
    ensures Conserved(Apply(s, a), n)
  {
    InHandUpdate(s.callers, a.c, Apply(s, a).callers[a.c], n);
    if a.TakePooled? {
      assert s.queue[0] in s.queue && s.queue == [s.queue[0]] + s.queue[1..];
    }
  }

  lemma RestConserved(s: State, a: Action, n: string)
    requires Enabled(s, a) && Conserved(s, n) && CallersOk(s) && !a.TakePooled? && !a.Store?
    ensures Conserved(Apply(s, a), n)
  {
    InHandUpdate(s.callers, a.c, Apply(s, a).callers[a.c], n);
    assert CallerOk(s.callers[a.c]);
  }

  lemma CallersKept(s: State, a: Action)
    requires Enabled(s, a) && CallersOk(s) && NonEmpty(s.queue) && NonEmpty(s.sent)
    ensures CallersOk(Apply(s, a)) && NonEmpty(Apply(s, a).sent)
  {
    var s' := Apply(s, a);
    assert CallerOk(s.callers[a.c]);
    if a.TakePooled? { assert s.queue[0] in s.queue; }
    assert CallerOk(s'.callers[a.c]);
  }

  lemma InvStep(s: State, a: Action)
    requires Inv(s) && Enabled(s, a)
    ensures Inv(Apply(s, a))
  {
    forall n ensures Conserved(Apply(s, a), n) {
      if a.TakePooled? || a.Store? { QueueConserved(s, a, n); } else { RestConserved(s, a, n); }
    }
    CallersKept(s, a);
    NonEmptyKept(s.queue, if a.Store? then s.callers[a.c].nonce else "");
  }

  lemma RunInv(run: seq<State>, i: nat)
    requires IsRun(run) && i < |run|
    ensures Inv(run[i])
  {
    forall n ensures Conserved(run[0], n) { NothingInHand(run[0].callers, n); }
    forall s, s' | Inv(s) && Next(s, s') ensures Inv(s') {
      var a :| Enabled(s, a) && s' == Apply(s, a);
      InvStep(s, a);
    }
    Always(Next, Inv, run, i);
  }

  lemma {:induction false} NothingInHand(callers: seq<Pc>, n: string)
    requires forall c :: 0 <= c < |callers| ==> callers[c] == Idle
    ensures InHand(callers, n) == 0
  {
    if callers != [] { NothingInHand(callers[1..], n); }
  }

  /** Every nonce received is pooled, in hand, sent or dropped; so none is sent more often than issued. */
  lemma NoncesAreConserved(run: seq<State>, i: nat, n: string)
    requires IsRun(run) && i < |run|
    ensures run[i].issued[n] ==
      multiset(run[i].queue)[n] + InHand(run[i].callers, n) + multiset(run[i].sent)[n] + run[i].dropped[n]
    ensures multiset(run[i].sent)[n] <= run[i].issued[n]
    ensures "" !in run[i].sent && |run[i].queue| <= POOL_SIZE
  {
    RunInv(run, i);
    assert Conserved(run[i], n);
  }

  // ---------- one undisturbed post, as a path of the machine ----------

  lemma Advance(s: State, m: State, a: Action)
    requires Reaches(Next, s, m) && Enabled(m, a)
    ensures Reaches(Next, s, Apply(m, a))
  {
    ReachesStep(Next, s, m, Apply(m, a));
  }

  /** The caller gets its nonce, from the pool or by a HEAD, or finds none. */
  lemma PathToNonce(s: State, m: State, c: Caller, k: nat, headNonce: string) returns (m': State)
    requires Reaches(Next, s, m) && c < |m.callers| && m.callers[c] == Wanting(k) && NonEmpty(m.queue)
    ensures Reaches(Next, s, m') && m'.sent == m.sent
    ensures m'.queue == if m.queue == [] then [] else m.queue[1..]
    ensures var nonce := if m.queue == [] then headNonce else m.queue[0];
      m'.callers == m.callers[c := if nonce == "" then Idle else Holding(k, nonce)]
  {
    if m.queue != [] {
      assert m.queue[0] in m.queue;
      Advance(s, m, TakePooled(c));
      m' := Apply(m, TakePooled(c));
    } else {
      Advance(s, m, FindEmpty(c));
      m' := Apply(m, FindEmpty(c));
      var a := if headNonce == "" then Quit(c) else Fetched(c, headNonce);
      Advance(s, m', a);
      m' := Apply(m', a);
    }
  }

  /** The caller signs and posts its nonce and pools the one that comes back, or gives up on the way. */
  lemma PathSends(s: State, m: State, c: Caller, k: nat, nonce: string, attempt: Attempt) returns (m': State)
    requires Reaches(Next, s, m) && c < |m.callers| && m.callers[c] == Holding(k, nonce)
    ensures Reaches(Next, s, m')
    ensures if !attempt.signOk then m'.sent == m.sent && m'.queue == m.queue && m'.callers == m.callers[c := Idle]
            else if attempt.reply.None? then m'.sent == m.sent + [nonce] && m'.queue == m.queue && m'.callers == m.callers[c := Idle]
            else m'.sent == m.sent + [nonce] && m'.queue == Put(m.queue, attempt.reply.value.replayNonce) &&
                 m'.callers == m.callers[c := if IsBadNonce(attempt.reply.value) && k + 1 < MAX_ATTEMPTS then Wanting(k + 1) else Idle]
  {
    m' := m;
    if attempt.signOk {
      Advance(s, m', Send(c));
      m' := Apply(m', Send(c));
    }
    if !attempt.signOk || attempt.reply.None? {
      Advance(s, m', Quit(c));
      m' := Apply(m', Quit(c));
    } else {
      var a := Answered(c, attempt.reply.value.replayNonce, IsBadNonce(attempt.reply.value));
      Advance(s, m', a);
      m' := Apply(m', a);
      Advance(s, m', Store(c));
      m' := Apply(m', Store(c));
    }
  }

  /** One attempt of an undisturbed caller. */
  lemma PathTurn(s: State, m: State, c: Caller, k: nat, attempt: Attempt) returns (m': State)
    requires Reaches(Next, s, m) && NonEmpty(m.queue) && c < |m.callers| && m.callers[c] == Wanting(k)
    ensures Reaches(Next, s, m')
    ensures match TurnOf(m.queue, attempt)
      case Stop(p) => m'.queue == p.queue && m'.sent == m.sent + p.sent && m'.callers == m.callers[c := Idle]
      case Again(nonce, left) =>
        && m'.queue == left && m'.sent == m.sent + [nonce]
        && m'.callers == m.callers[c := if k + 1 < MAX_ATTEMPTS then Wanting(k + 1) else Idle]
  {
    var nonce := if m.queue == [] then attempt.headNonce else m.queue[0];
    NonEmptyKept(m.queue, "");
    m' := PathToNonce(s, m, c, k, attempt.headNonce);
    if nonce != "" {
      m' := PathSends(s, m', c, k, nonce, attempt);
    }
  }

  /** The caller is idle again, and queue and sent nonces are as the call leaves them. */
  ghost predicate DoneAs(m: State, m': State, c: Caller, p: Posted)
    requires c < |m.callers|
  {
    m'.callers == m.callers[c := Idle] && m'.queue == p.queue && m'.sent == m.sent + p.sent
  }

  lemma PostUnfolds(queue: seq<string>, env: nat -> Attempt, k: nat)
    requires k < MAX_ATTEMPTS
    ensures Post(queue, env, k) ==
      match TurnOf(queue, env(k))
      case Stop(p) => p
      case Again(nonce, left) => Prefixed([nonce], Post(left, env, k + 1))
  {
  }

  lemma DonePrefixed(m: State, again: State, m': State, c: Caller, nonce: string, rest: Posted)
    requires c < |m.callers| && |again.callers| == |m.callers|
    requires again.callers[c := Idle] == m.callers[c := Idle] && again.sent == m.sent + [nonce]
    requires DoneAs(again, m', c, rest)
    ensures DoneAs(m, m', c, Prefixed([nonce], rest))
  {
    assert (m.sent + [nonce]) + rest.sent == m.sent + ([nonce] + rest.sent);
  }

  ghost predicate Attempting(m: State, c: Caller, k: nat) {
    c < |m.callers| && NonEmpty(m.queue) && m.callers[c] == if k < MAX_ATTEMPTS then Wanting(k) else Idle
  }

  /** One attempt, towards what the whole call does. */
  lemma PathAttempt(s: State, m: State, c: Caller, env: nat -> Attempt, k: nat) returns (m': State)
    requires Reaches(Next, s, m) && k < MAX_ATTEMPTS && Attempting(m, c, k)
    ensures Reaches(Next, s, m') && |m'.callers| == |m.callers|
    ensures if TurnOf(m.queue, env(k)).Stop? then DoneAs(m, m', c, Post(m.queue, env, k))
            else Attempting(m', c, k + 1) &&
                 forall m'' :: DoneAs(m', m'', c, Post(m'.queue, env, k + 1)) ==> DoneAs(m, m'', c, Post(m.queue, env, k))
  {
    PostUnfolds(m.queue, env, k);
    TurnNonEmpty(m.queue, env(k));
    m' := PathTurn(s, m, c, k, env(k));
    var turn := TurnOf(m.queue, env(k));
    if turn.Again? {
      forall m'' | DoneAs(m', m'', c, Post(turn.queue, env, k + 1)) ensures DoneAs(m, m'', c, Post(m.queue, env, k)) {
        DonePrefixed(m, m', m'', c, turn.nonce, Post(turn.queue, env, k + 1));
      }
    }
  }

  /** From its `k`-th attempt on, an undisturbed call is a path that ends with the caller idle again. */
  lemma {:induction false} PostContinues(s: State, m: State, c: Caller, env: nat -> Attempt, k: nat) returns (m': State)
    requires Reaches(Next, s, m) && k <= MAX_ATTEMPTS && Attempting(m, c, k)
    ensures Reaches(Next, s, m') && DoneAs(m, m', c, Post(m.queue, env, k))
    decreases MAX_ATTEMPTS - k
  {
    if k == MAX_ATTEMPTS {
      m' := m;
    } else {
      m' := PathAttempt(s, m, c, env, k);
      if TurnOf(m.queue, env(k)).Again? {
        m' := PostContinues(s, m', c, env, k + 1);
      }
    }
  }

  /**
    What `SignedPost` does to the queue and to the nonces sent, an idle caller of the machine
    can do from any state with that queue; so what holds over all runs holds of the code.
  */
  lemma PostIsPath(s: State, c: Caller, env: nat -> Attempt) returns (s': State)
    requires NonEmpty(s.queue) && c < |s.callers| && s.callers[c] == Idle
    ensures Reaches(Next, s, s') && s'.callers == s.callers
    ensures s'.queue == Post(s.queue, env, 0).queue && s'.sent == s.sent + Post(s.queue, env, 0).sent
  {
    ReachesSelf(Next, s);
    Advance(s, s, Begin(c));
    s' := PostContinues(s, Apply(s, Begin(c)), c, env, 0);
  }

  lemma TwoPlacesCountTwice(s: seq<string>, j: nat, k: nat)
    requires j < k < |s| && s[j] == s[k]
    ensures multiset(s)[s[j]] >= 2
  {
    assert s == s[..k] + s[k..];
    assert s[..k][j] == s[j] && s[k..][0] == s[j];
    assert s[j] in multiset(s[..k]) && s[j] in multiset(s[k..]);
  }

  /** A CA that never issues a nonce twice never sees one twice. */
  lemma NoReplay(run: seq<State>, i: nat, j: nat, k: nat)
    requires IsRun(run) && i < |run| && j < k < |run[i].sent|
    requires forall n :: run[i].issued[n] <= 1
    ensures run[i].sent[j] != run[i].sent[k]
  {
    NoncesAreConserved(run, i, run[i].sent[j]);
    if run[i].sent[j] == run[i].sent[k] {
      TwoPlacesCountTwice(run[i].sent, j, k);
    }
  }
}
