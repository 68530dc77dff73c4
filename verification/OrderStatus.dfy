/**
  The status the gateway stores for an order: written by order polls and by finalize
  calls, which may overlap.  A finalize the CA definitively rejects stores "invalid".
*/
module OrderStatus {
  import opened Wrappers
  import Nonces = UpstreamNonces

  // ---------- from the CA's reply to the client's problem ----------

  /** What FinalizeOrder returns: the order's status, a problem document, or another error. */
  datatype Finalized =
    | Order(status: string)
    | AcmeProblem(problemType: string, detail: string, subproblems: string, httpStatus: int)
    | Failed(message: string)

  /** `message` is the text of an error that is not a problem document. */
  function FinalizeResult(post: Nonces.PostResult, message: string): Finalized {
    if !post.Response? then Failed(message)
    else if post.reply.body.NotJson? then Failed(message)
    else if post.reply.status == 200 then Order(post.reply.body.orderStatus)
    else AcmeProblem(post.reply.body.problemType, post.reply.body.detail, post.reply.body.subproblems, post.reply.status)
  }

  datatype ClientProblem = ClientProblem(problemType: string, detail: string, subproblems: string, status: int)

  const SERVER_INTERNAL := "urn:ietf:params:acme:error:serverInternal"

  /** Whatever the CA said, the client gets a typed problem with an error status, the CA's own where it gave one. */
  function RelayUpstreamError(fallback: string, err: Finalized): (r: ClientProblem)
    requires !err.Order?
    ensures 400 <= r.status <= 599 && r.problemType != "" && (r.detail == "" ==> fallback == "")
    ensures err.AcmeProblem? ==> r.subproblems == err.subproblems
    ensures err.AcmeProblem? && 400 <= err.httpStatus <= 599 ==> r.status == err.httpStatus
    ensures err.AcmeProblem? && err.problemType != "" ==> r.problemType == err.problemType
    ensures err.AcmeProblem? && err.detail != "" ==> r.detail == err.detail
    ensures err.Failed? ==> r.status == 500 && fallback <= r.detail && r.detail[|fallback|..] == ": " + err.message
  {
    match err
    case AcmeProblem(typ, detail, subproblems, status) =>
      ClientProblem(if typ == "" then SERVER_INTERNAL else typ,
                    if detail == "" then fallback else detail,
                    subproblems,
                    if status < 400 || status > 599 then 502 else status)
    case Failed(message) => ClientProblem(SERVER_INTERNAL, fallback + ": " + message, "", 500)
  }

  /** What the client gets, read off the CA's reply: its own fields where it gave them, else a server error. */
  lemma RelaysTheReply(post: Nonces.PostResult, fallback: string, message: string)
    requires !FinalizeResult(post, message).Order?
    ensures var r := RelayUpstreamError(fallback, FinalizeResult(post, message));
      if post.Response? && post.reply.body.Json? then
        && r.problemType == (if post.reply.body.problemType != "" then post.reply.body.problemType else SERVER_INTERNAL)
        && r.detail == (if post.reply.body.detail != "" then post.reply.body.detail else fallback)
        && r.subproblems == post.reply.body.subproblems
        && r.status == (if 400 <= post.reply.status <= 599 then post.reply.status else 502)
      else r == ClientProblem(SERVER_INTERNAL, fallback + ": " + message, "", 500)
  {
  }

  predicate IsDefinitiveRejection(status: int) {
    400 <= status < 500 && status != 408 && status != 429
  }

  predicate Invalidates(post: Nonces.PostResult) {
    var result := FinalizeResult(post, "");
    !result.Order? && IsDefinitiveRejection(RelayUpstreamError("finalizing upstream order", result).status)
  }

  /** Only a JSON problem with a 4xx status other than 408 and 429 invalidates, and each of those does. */
  lemma InvalidatesExactly(post: Nonces.PostResult)
    ensures Invalidates(post) <==>
      post.Response? && post.reply.body.Json? && 400 <= post.reply.status < 500 && post.reply.status !in {408, 429}
  {
    if post.Response? && post.reply.body.Json? && post.reply.status != 200 {
      assert FinalizeResult(post, "").AcmeProblem?;
    }
  }

  /**
    The finalize call.  Running out of nonces never invalidates the order; what does is the
    first reply that is not a 400 with type badNonce, if it is another JSON problem with a
    definitive status.
  */
  method FinalizeOrder(ring: Nonces.NonceRing, env: nat -> Nonces.Attempt) returns (post: Nonces.PostResult)
    requires ring.Valid() && Nonces.NonEmpty(ring.Contents())
    modifies ring, ring.nonces
    ensures ring.Valid() && Nonces.NonEmpty(ring.Contents())
    ensures (forall k: nat :: k < 3 ==> IsBadNonceReply(env(k).reply)) ==> !Invalidates(post)
    ensures Invalidates(post) ==> exists k: nat :: (
      && k < 3 && (forall j: nat :: j < k ==> IsBadNonceReply(env(j).reply)) && env(k).reply == Some(post.reply)
      && !IsBadNonceReply(env(k).reply) && post.reply.body.Json? && 400 <= post.reply.status < 500 && post.reply.status !in {408, 429})
  {
    ghost var sent;
    post, sent := Nonces.SignedPost(ring, env);
    InvalidatesExactly(post);
    if post.Response? {
      assert !IsBadNonceReply(env(|sent| - 1).reply);
    }
  }

  ghost predicate IsBadNonceReply(r: Option<Nonces.Reply>) {
    r.Some? && r.value.status == 400 && r.value.body.Json? && r.value.body.problemType == "urn:ietf:params:acme:error:badNonce"
  }

  // ---------- overlapping polls and finalize calls on one order ----------

  type RequestId = nat

  /**
    A poll reads the stored status, asks the CA, and writes the answer if it differs from
    what it read; a finalize call asks the CA and writes.  Reading, the CA's answer and the
    write are three separate steps.  `latest` is the fold of the history: what the CA last
    answered, or "invalid" after a rejected finalize.
  */
  datatype State = State(
    stored: string,
    seen: map<RequestId, string>,     // polls that have read the order and wait for the CA
    pending: map<RequestId, string>,  // statuses answered but not yet written
    latest: string)

  datatype Action =
    | ReadOrder(q: RequestId)
    | PollAnswered(q: RequestId, status: string)
    | PollFails(q: RequestId)
    | FinalizeAnswered(q: RequestId, post: Nonces.PostResult)
    | Write(q: RequestId)
    | WriteFails(q: RequestId)  // the error is ignored

  ghost predicate Enabled(s: State, a: Action) {
    match a
    case ReadOrder(q) => q !in s.seen && q !in s.pending
    case PollAnswered(q, _) => q in s.seen && q !in s.pending
    case PollFails(q) => q in s.seen
    case FinalizeAnswered(q, _) => q !in s.seen && q !in s.pending
    case Write(q) => q in s.pending
    case WriteFails(q) => q in s.pending
  }

  /** What an answered finalize is to store, if anything. */
  function Outcome(post: Nonces.PostResult): Option<string> {
    var result := FinalizeResult(post, "");
    if result.Order? then Some(result.status)
    else if Invalidates(post) then Some("invalid")
    else None
  }

  ghost function Apply(s: State, a: Action): State
    requires Enabled(s, a)
  {
    match a
    case ReadOrder(q) => s.(seen := s.seen[q := s.stored])
    case PollAnswered(q, status) =>
      s.(seen := s.seen - {q}, latest := status, pending := if status != s.seen[q] then s.pending[q := status] else s.pending)
    case PollFails(q) => s.(seen := s.seen - {q})
    case FinalizeAnswered(q, post) =>
      if Outcome(post).None? then s
      else s.(latest := Outcome(post).value, pending := s.pending[q := Outcome(post).value])
    case Write(q) => s.(stored := s.pending[q], pending := s.pending - {q})
    case WriteFails(q) => s.(pending := s.pending - {q})
  }

  /**
    An answered finalize, read off the reply: a JSON reply with status 200 makes its own
    order status the latest and, once written, the stored one; a JSON problem with a
    definitive 4xx status does so with "invalid"; any other answer changes nothing.
  */
  lemma FinalizeStoresExactly(s: State, q: RequestId, post: Nonces.PostResult)
    requires q !in s.seen && q !in s.pending
    ensures var s' := Apply(s, FinalizeAnswered(q, post));
      if post.Response? && post.reply.body.Json? && post.reply.status == 200 then
        q in s'.pending && s'.latest == Apply(s', Write(q)).stored == post.reply.body.orderStatus
      else if post.Response? && post.reply.body.Json? && 400 <= post.reply.status < 500 && post.reply.status !in {408, 429} then
        q in s'.pending && s'.latest == Apply(s', Write(q)).stored == "invalid"
      else s' == s
  {
    InvalidatesExactly(post);
  }

  /** An answered poll: the CA's status is the latest, and written unless it is what the poll had read. */
  lemma PollStoresExactly(s: State, q: RequestId, status: string)
    requires q in s.seen && q !in s.pending
    ensures var s' := Apply(s, PollAnswered(q, status));
      && s'.latest == status && s'.stored == s.stored
      && (q in s'.pending <==> status != s.seen[q]) && (q in s'.pending ==> Apply(s', Write(q)).stored == status)
  {
  }

  /** From the order's creation with the status the CA first reported. */
  ghost predicate IsRun(run: seq<State>, acts: seq<Action>) {
    && |run| == |acts| + 1
    && run[0].seen == map[] && run[0].pending == map[] && run[0].stored == run[0].latest
    && forall i :: 0 <= i < |acts| ==> Enabled(run[i], acts[i]) && run[i+1] == Apply(run[i], acts[i])
  }

  // ---------- when the store follows the history ----------

  /** The store agrees with the history, or will once the pending writes are done, in whatever order. */
  ghost predicate Settles(s: State) {
    if s.pending == map[] then s.stored == s.latest
    else forall q :: q in s.pending ==> s.pending[q] == s.latest
  }

  /** The CA's answer that a step brings, if it brings one. */
  ghost function AnswerOf(a: Action): Option<string> {
    match a
    case PollAnswered(_, status) => Some(status)
    case FinalizeAnswered(_, post) => Outcome(post)
    case _ => None
  }

  /** An answer arrives while a different, older one is still to be written: that write may come last. */
  ghost predicate OvertakesWrite(s: State, a: Action) {
    AnswerOf(a).Some? && exists q :: q in s.pending && s.pending[q] != AnswerOf(a).value
  }

  /** The CA reports what the poll had read, so nothing is written, but the stored status changed in between. */
  ghost predicate SkipsStaleWrite(s: State, a: Action) {
    a.PollAnswered? && a.q in s.seen && a.status == s.seen[a.q] && a.status != s.stored && s.pending == map[]
  }

  /** The only write still to come fails, and would have changed the store. */
  ghost predicate LosesWrite(s: State, a: Action) {
    a.WriteFails? && a.q in s.pending && s.pending.Keys == {a.q} && s.pending[a.q] != s.stored
  }

  ghost predicate Unsettles(s: State, a: Action) {
    OvertakesWrite(s, a) || SkipsStaleWrite(s, a) || LosesWrite(s, a)
  }

  /** One step of a settled state settles again exactly when it is none of the three. */
  lemma StepSettlesExactly(s: State, a: Action)
    requires Settles(s) && Enabled(s, a)
    ensures Settles(Apply(s, a)) <==> !Unsettles(s, a)
  {
    var s' := Apply(s, a);
    if AnswerOf(a).Some? && !SkipsStaleWrite(s, a) && s'.pending == s.pending && s.pending != map[] {
      var q :| q in s.pending;
    }
    if AnswerOf(a).Some? && OvertakesWrite(s, a) {
      var q :| q in s.pending && s.pending[q] != AnswerOf(a).value;
      assert q != a.q && q in s'.pending && s'.pending[q] != s'.latest;
    }
    if a.Write? || a.WriteFails? { LastPending(s, a.q); }
  }

  lemma LastPending(s: State, q: RequestId)
    requires q in s.pending
    ensures s.pending - {q} == map[] <==> s.pending.Keys == {q}
  {
    forall p | p in s.pending && p != q ensures p in s.pending - {q} { }
  }

  lemma {:induction false} SettledUntil(run: seq<State>, acts: seq<Action>, i: nat)
    requires IsRun(run, acts) && i < |run|
    requires forall k :: 0 <= k < i ==> !Unsettles(run[k], acts[k])
    ensures Settles(run[i])
  {
    if i > 0 {
      SettledUntil(run, acts, i - 1);
      StepSettlesExactly(run[i-1], acts[i-1]);
    }
  }

  /**
    In every run, the stored status follows the history throughout exactly when no answer
    overtakes a write, no poll skips a stale write and no last write is lost.
  */
  lemma StoredIsFoldExactly(run: seq<State>, acts: seq<Action>)
    requires IsRun(run, acts)
    ensures (forall i :: 0 <= i < |run| ==> Settles(run[i])) <==> (forall i :: 0 <= i < |acts| ==> !Unsettles(run[i], acts[i]))
  {
    if forall i :: 0 <= i < |acts| ==> !Unsettles(run[i], acts[i]) {
      forall i | 0 <= i < |run| ensures Settles(run[i]) { SettledUntil(run, acts, i); }
    }
    if forall i :: 0 <= i < |run| ==> Settles(run[i]) {
      forall i | 0 <= i < |acts| ensures !Unsettles(run[i], acts[i]) {
        assert Settles(run[i]) && Settles(run[i+1]);
        StepSettlesExactly(run[i], acts[i]);
      }
    }
  }

  /** The last write to come is not of the CA's latest answer. */
  ghost predicate WritesLate(s: State, a: Action) {
    a.Write? && a.q in s.pending && s.pending.Keys == {a.q} && s.pending[a.q] != s.latest
  }

  /** The last write to come fails while the store disagrees with the history. */
  ghost predicate GivesUp(s: State, a: Action) {
    a.WriteFails? && a.q in s.pending && s.pending.Keys == {a.q} && s.stored != s.latest
  }

  ghost predicate AgreesAtRest(s: State) {
    s.pending == map[] ==> s.stored == s.latest
  }

  ghost predicate BreaksRest(s: State, a: Action) {
    WritesLate(s, a) || SkipsStaleWrite(s, a) || GivesUp(s, a)
  }

  lemma {:induction false} RestUntil(run: seq<State>, acts: seq<Action>, i: nat)
    requires IsRun(run, acts) && i < |run|
    requires forall k :: 0 <= k < i ==> !BreaksRest(run[k], acts[k])
    ensures AgreesAtRest(run[i])
  {
    if i > 0 {
      RestUntil(run, acts, i - 1);
      StepAtRest(run[i-1], acts[i-1]);
    }
  }

  /** The schedule a run happens to take is good at rest exactly when its last writes are the latest ones. */
  lemma AtRestExactly(run: seq<State>, acts: seq<Action>)
    requires IsRun(run, acts)
    ensures (forall i :: 0 <= i < |run| ==> AgreesAtRest(run[i])) <==> (forall i :: 0 <= i < |acts| ==> !BreaksRest(run[i], acts[i]))
  {
    if forall i :: 0 <= i < |acts| ==> !BreaksRest(run[i], acts[i]) {
      forall i | 0 <= i < |run| ensures AgreesAtRest(run[i]) { RestUntil(run, acts, i); }
    }
    if forall i :: 0 <= i < |run| ==> AgreesAtRest(run[i]) {
      forall i | 0 <= i < |acts| ensures !BreaksRest(run[i], acts[i]) {
        assert AgreesAtRest(run[i]) && AgreesAtRest(run[i+1]);
        StepAtRest(run[i], acts[i]);
      }
    }
  }

  lemma StepAtRest(s: State, a: Action)
    requires AgreesAtRest(s) && Enabled(s, a)
    ensures AgreesAtRest(Apply(s, a)) <==> !BreaksRest(s, a)
  {
    if a.Write? || a.WriteFails? { LastPending(s, a.q); }
    if a.PollAnswered? || a.FinalizeAnswered? {
      assert s.pending != map[] ==> Apply(s, a).pending != map[] by {
        if q :| q in s.pending { assert q in Apply(s, a).pending; }
      }
      assert a.q in Apply(s, a).pending ==> Apply(s, a).pending != map[];
    }
  }

  // ---------- what settling means ----------

  /** The pending writes, done in this order with nothing in between. */
  ghost function Drained(s: State, order: seq<RequestId>): string
    requires forall q :: q in order ==> q in s.pending
  {
    if order == [] then s.stored else s.pending[order[|order|-1]]
  }

  /** The same, write by write. */
  ghost function WriteAll(s: State, order: seq<RequestId>): State
    requires forall q :: q in order ==> q in s.pending
    requires forall i, k :: 0 <= i < k < |order| ==> order[i] != order[k]
    decreases |order|
  {
    if order == [] then s else WriteAll(Apply(s, Write(order[0])), order[1..])
  }

  lemma {:induction false} WriteAllDrains(s: State, order: seq<RequestId>)
    requires forall q :: q in order ==> q in s.pending
    requires forall i, k :: 0 <= i < k < |order| ==> order[i] != order[k]
    ensures WriteAll(s, order).stored == Drained(s, order) && WriteAll(s, order).latest == s.latest
    ensures WriteAll(s, order).pending == s.pending - (set q | q in order)
    decreases |order|
  {
    if order != [] {
      WriteAllDrains(Apply(s, Write(order[0])), order[1..]);
      assert order == [order[0]] + order[1..];
    }
  }

  ghost predicate IsOrderOf(s: State, order: seq<RequestId>) {
    && (forall q :: q in order <==> q in s.pending)
    && forall i, k :: 0 <= i < k < |order| ==> order[i] != order[k]
  }

  lemma {:induction false} Listing(keys: set<RequestId>) returns (order: seq<RequestId>)
    ensures (forall q :: q in order <==> q in keys) && forall i, k :: 0 <= i < k < |order| ==> order[i] != order[k]
    decreases |keys|
  {
    if keys == {} {
      order := [];
    } else {
      var q :| q in keys;
      var rest := Listing(keys - {q});
      order := rest + [q];
    }
  }

  /** A state settles exactly when every order of its pending writes ends with the latest status stored. */
  lemma SettlesMeansEveryOrder(s: State)
    ensures Settles(s) <==> forall order :: IsOrderOf(s, order) ==> WriteAll(s, order).stored == s.latest
  {
    forall order | IsOrderOf(s, order) ensures WriteAll(s, order).stored == Drained(s, order) { WriteAllDrains(s, order); }
    if Settles(s) {
      forall order | IsOrderOf(s, order) ensures Drained(s, order) == s.latest {
        if order != [] { assert order[|order|-1] in s.pending; }
      }
    } else if s.pending == map[] {
      assert IsOrderOf(s, []) && WriteAll(s, []).stored != s.latest;
    } else {
      var q :| q in s.pending && s.pending[q] != s.latest;
      var rest := Listing(s.pending.Keys - {q});
      var order := rest + [q];
      assert IsOrderOf(s, order) && Drained(s, order) == s.pending[q];
    }
  }

  // ---------- one request at a time ----------

  /** A poll reads, and a finalize is answered, only when nothing else is open; and writes succeed. */
  ghost predicate OneAtATime(run: seq<State>, acts: seq<Action>)
    requires |run| == |acts| + 1
  {
    forall i :: 0 <= i < |acts| ==>
      && !acts[i].WriteFails?
      && (acts[i].ReadOrder? || acts[i].FinalizeAnswered? ==> run[i].seen == map[] && run[i].pending == map[])
  }

  ghost predicate AtMostOneOpen(s: State) {
    && (s.seen != map[] ==> s.pending == map[])
    && (forall p, q :: p in s.seen && q in s.seen ==> p == q)
    && (forall p :: p in s.seen ==> s.seen[p] == s.stored)
  }

  lemma {:induction false} SequentialRunsNeverUnsettle(run: seq<State>, acts: seq<Action>, i: nat)
    requires IsRun(run, acts) && OneAtATime(run, acts) && i <= |acts|
    ensures AtMostOneOpen(run[i]) && forall k :: 0 <= k < i ==> !Unsettles(run[k], acts[k])
  {
    if i > 0 {
      SequentialRunsNeverUnsettle(run, acts, i - 1);
      var s, a := run[i-1], acts[i-1];
      assert Enabled(s, a) && run[i] == Apply(s, a);
    }
  }

  /** Without overlap, the stored status is the fold whenever no write is open. */
  lemma SequentialSeesStored(run: seq<State>, acts: seq<Action>, i: nat)
    requires IsRun(run, acts) && OneAtATime(run, acts) && i < |run|
    ensures Settles(run[i]) && (run[i].pending == map[] ==> run[i].stored == run[i].latest)
  {
    SequentialRunsNeverUnsettle(run, acts, |acts|);
    StoredIsFoldExactly(run, acts);
  }

  // ---------- how overlap breaks it ----------

  const REJECTION := Nonces.Response(Nonces.Reply(403, "", Nonces.Json("urn:ietf:params:acme:error:badCSR", "no", "", "")))

  lemma Extend(run: seq<State>, acts: seq<Action>, a: Action) returns (run': seq<State>, acts': seq<Action>)
    requires IsRun(run, acts) && Enabled(run[|acts|], a)
    ensures IsRun(run', acts') && acts' == acts + [a] && run'[|acts'|] == Apply(run[|acts|], a)
  {
    run', acts' := run + [Apply(run[|acts|], a)], acts + [a];
  }

  /** A skipped write: the CA said "ready" last, the stored status is "invalid" and stays so. */
  lemma OverlappingPollLosesReport() returns (run: seq<State>, acts: seq<Action>)
    ensures IsRun(run, acts)
    ensures acts == [ReadOrder(0), FinalizeAnswered(1, REJECTION), Write(1), PollAnswered(0, "ready")]
    ensures run[|acts|] == State("invalid", map[], map[], "ready")
  {
    InvalidatesExactly(REJECTION);
    run, acts := [State("ready", map[], map[], "ready")], [];
    run, acts := Extend(run, acts, ReadOrder(0));
    run, acts := Extend(run, acts, FinalizeAnswered(1, REJECTION));
    run, acts := Extend(run, acts, Write(1));
    assert run[|acts|].pending == map[];
    run, acts := Extend(run, acts, PollAnswered(0, "ready"));
    assert run[|acts|].seen == map[];
  }

  /** A late write: the finalize was rejected last, the stored status is "ready". */
  lemma LateWriteHidesRejection() returns (run: seq<State>, acts: seq<Action>)
    ensures IsRun(run, acts)
    ensures acts == [ReadOrder(0), PollAnswered(0, "ready"), FinalizeAnswered(1, REJECTION), Write(1), Write(0)]
    ensures run[|acts|] == State("ready", map[], map[], "invalid")
  {
    InvalidatesExactly(REJECTION);
    run, acts := [State("pending", map[], map[], "pending")], [];
    run, acts := Extend(run, acts, ReadOrder(0));
    run, acts := Extend(run, acts, PollAnswered(0, "ready"));
    run, acts := Extend(run, acts, FinalizeAnswered(1, REJECTION));
    run, acts := Extend(run, acts, Write(1));
    run, acts := Extend(run, acts, Write(0));
    assert run[|acts|].pending == map[] && run[|acts|].seen == map[];
  }

  /** A stored "invalid" is not final: an undisturbed poll replaces it by whatever the CA reports. */
  lemma InvalidIsOverwritten(s: State, q: RequestId, status: string)
    requires s.stored == "invalid" && q !in s.seen && q !in s.pending
    ensures var s' := Apply(Apply(s, ReadOrder(q)), PollAnswered(q, status));
      if q in s'.pending then Apply(s', Write(q)).stored == status else s'.stored == status
  {
  }
}
