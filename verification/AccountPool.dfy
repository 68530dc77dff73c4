/**
  The upstream account pool: one dedicated upstream account per gateway account.

  `GetClientForAccount` is double-checked locking over three shared things: the
  in-memory client cache, a map of registration mutexes and the table
  `upstream_accounts_by_account`.  Any number of request threads run it at once, and
  the process may be restarted at any moment, which loses memory but keeps the table.
  Each action below is one critical section or one call into the CA or the database.
*/
module AccountPool {
  import opened Paths
  import opened Wrappers

  type ThreadId = nat
  type OrderId = string
  type PrivateKey(==,!new,0)

  /** The pair a dedicated upstream account is registered for. */
  datatype Binding = Binding(upstream: string, account: string)

  /** What a client signs with, and what a table row holds: the key and the account URL. */
  datatype Credential = Credential(key: PrivateKey, accountUrl: string)

  datatype Pc =
    | Missed                        // the unlocked look at the cache found nothing
    | Holding                       // holds the registration mutex
    | Rechecked                     // the second look at the cache found nothing
    | Fresh(key: PrivateKey)        // no row in the table: a new key was generated
    | Registered(cred: Credential)  // the CA accepted the key; nothing persisted yet
    | Ready(cred: Credential)       // the row exists, read or just written
    | Published(cred: Credential)   // the client is in the cache
    | Obtained(cred: Credential)    // returned to the handler, mutex released

  /** A request thread: a new order (`order == None`) or an operation on a stored order. */
  datatype Thread = Thread(binding: Binding, order: Option<OrderId>, pc: Pc)

  /** An order with upstream slot -1, and the credential it was submitted upstream with. */
  datatype OrderRow = OrderRow(binding: Binding, submittedWith: Credential)

  /** An operation on a stored order (poll, authorization, challenge, finalize, certificate). */
  datatype Use = Use(order: OrderId, cred: Credential)

  datatype State = State(
    // persistent
    table: map<Binding, Credential>,
    orders: map<OrderId, OrderRow>,
    // lost at a restart
    cache: map<Binding, Credential>,
    locks: map<string, ThreadId>,
    threads: map<ThreadId, Thread>,
    // what an observer of the whole history sees
    uses: seq<Use>,
    registrations: multiset<Binding>,  // registrations the CA confirmed
    lost: multiset<Binding>,           // confirmed registrations that never reached the table
    initialRows: set<Binding>)

  datatype Action =
    | Start(t: ThreadId, binding: Binding, order: Option<OrderId>)
    | Acquire(t: ThreadId)
    | Recheck(t: ThreadId)
    | Load(t: ThreadId, freshKey: PrivateKey)
    | Register(t: ThreadId, accountUrl: string)
    | Save(t: ThreadId)
    | SaveFails(t: ThreadId, written: bool)  // an error may be reported after the row was written
    | Publish(t: ThreadId)
    | Release(t: ThreadId)
    | GiveUp(t: ThreadId)                    // an error with no registration pending
    | SubmitOrder(t: ThreadId, newOrder: OrderId)
    | UseClient(t: ThreadId)
    | Abandon(t: ThreadId)                   // the handler fails after it obtained the client
    | Restart

  /** The key of the mutex map.  Distinct bindings may share a name; equal ones always do. */
  function LockName(b: Binding): string {
    "acct:" + b.upstream + ":" + b.account
  }

  ghost predicate HoldsLock(pc: Pc) {
    !pc.Missed? && !pc.Obtained?
  }

  ghost predicate Init(s: State) {
    && s.orders == map[] && s.cache == map[] && s.locks == map[] && s.threads == map[]
    && s.uses == [] && s.registrations == multiset{} && s.lost == multiset{}
    && s.initialRows == s.table.Keys
  }

  ghost predicate Enabled(s: State, a: Action) {
    match a
    case Start(t, b, order) =>
      t !in s.threads &&
      (order.Some? ==> order.value in s.orders && s.orders[order.value].binding == b)
    case Acquire(t) =>
      t in s.threads && s.threads[t].pc.Missed? && LockName(s.threads[t].binding) !in s.locks
    case Recheck(t) => t in s.threads && s.threads[t].pc.Holding?
    case Load(t, _) => t in s.threads && s.threads[t].pc.Rechecked?
    case Register(t, url) => t in s.threads && s.threads[t].pc.Fresh? && url != ""
    case Save(t) => t in s.threads && s.threads[t].pc.Registered?
    case SaveFails(t, _) => t in s.threads && s.threads[t].pc.Registered?
    case Publish(t) => t in s.threads && s.threads[t].pc.Ready?
    case Release(t) => t in s.threads && s.threads[t].pc.Published?
    case GiveUp(t) => t in s.threads && (s.threads[t].pc.Rechecked? || s.threads[t].pc.Fresh? || s.threads[t].pc.Ready?)
    case SubmitOrder(t, o) =>
      t in s.threads && s.threads[t].pc.Obtained? && s.threads[t].order.None? && o !in s.orders
    case UseClient(t) => t in s.threads && s.threads[t].pc.Obtained? && s.threads[t].order.Some?
    case Abandon(t) => t in s.threads && s.threads[t].pc.Obtained?
    case Restart => true
  }

  ghost function Goto(s: State, t: ThreadId, pc: Pc): State
    requires t in s.threads
  {
    s.(threads := s.threads[t := s.threads[t].(pc := pc)])
  }

  /** The deferred unlock of a thread that returns with an error. */
  ghost function Unwind(s: State, t: ThreadId): State
    requires t in s.threads
  {
    s.(locks := s.locks - {LockName(s.threads[t].binding)}, threads := s.threads - {t})
  }

  /** The bindings whose registration is confirmed but not persisted. */
  ghost function InFlight(s: State): set<Binding> {
    set t | t in s.threads && s.threads[t].pc.Registered? :: s.threads[t].binding
  }

  ghost function Apply(s: State, a: Action): State
    requires Enabled(s, a)
  {
    match a
    case Start(t, b, order) =>
      var pc := if b in s.cache then Obtained(s.cache[b]) else Missed;
      s.(threads := s.threads[t := Thread(b, order, pc)])
    case Acquire(t) =>
      Goto(s, t, Holding).(locks := s.locks[LockName(s.threads[t].binding) := t])
    case Recheck(t) =>
      var b := s.threads[t].binding;
      Goto(s, t, if b in s.cache then Published(s.cache[b]) else Rechecked)
    case Load(t, freshKey) =>
      var b := s.threads[t].binding;
      Goto(s, t, if b in s.table then Ready(s.table[b]) else Fresh(freshKey))
    case Register(t, url) =>
      Goto(s, t, Registered(Credential(s.threads[t].pc.key, url)))
      .(registrations := s.registrations + multiset{s.threads[t].binding})
    case Save(t) =>
      var cred := s.threads[t].pc.cred;
      Goto(s, t, Ready(cred)).(table := s.table[s.threads[t].binding := cred])
    case SaveFails(t, written) =>
      var b := s.threads[t].binding;
      if written
      then Unwind(s, t).(table := s.table[b := s.threads[t].pc.cred])
      else Unwind(s, t).(lost := s.lost + multiset{b})
    case Publish(t) =>
      var cred := s.threads[t].pc.cred;
      Goto(s, t, Published(cred)).(cache := s.cache[s.threads[t].binding := cred])
    case Release(t) =>
      Goto(s, t, Obtained(s.threads[t].pc.cred))
      .(locks := s.locks - {LockName(s.threads[t].binding)})
    case GiveUp(t) => Unwind(s, t)
    case SubmitOrder(t, o) =>
      s.(threads := s.threads - {t},
         orders := s.orders[o := OrderRow(s.threads[t].binding, s.threads[t].pc.cred)])
    case UseClient(t) =>
      s.(threads := s.threads - {t},
         uses := s.uses + [Use(s.threads[t].order.value, s.threads[t].pc.cred)])
    case Abandon(t) => s.(threads := s.threads - {t})
    case Restart =>
      s.(cache := map[], locks := map[], threads := map[],
         lost := s.lost + multiset(InFlight(s)))
  }

  ghost predicate Next(s: State, s': State) {
    exists a :: Enabled(s, a) && s' == Apply(s, a)
  }

  ghost predicate IsRun(run: seq<State>) {
    IsPath(Next, run) && Init(run[0])
  }

  // ---------- the invariant ----------

  ghost predicate InTable(s: State, b: Binding, cred: Credential) {
    b in s.table && s.table[b] == cred
  }

  ghost predicate ThreadOk(s: State, t: ThreadId)
    requires t in s.threads
  {
    var th := s.threads[t];
    && (HoldsLock(th.pc) ==> LockName(th.binding) in s.locks && s.locks[LockName(th.binding)] == t)
    && (th.pc.Fresh? || th.pc.Registered? ==> th.binding !in s.table)
    && (th.pc.Ready? || th.pc.Published? || th.pc.Obtained? ==> InTable(s, th.binding, th.pc.cred))
    && (th.order.Some? ==> th.order.value in s.orders && s.orders[th.order.value].binding == th.binding)
  }

  ghost predicate Agrees(s: State) {
    && (forall b :: b in s.cache ==> InTable(s, b, s.cache[b]))
    && (forall o :: o in s.orders ==> InTable(s, s.orders[o].binding, s.orders[o].submittedWith))
    && (forall i :: 0 <= i < |s.uses| ==>
          s.uses[i].order in s.orders && s.orders[s.uses[i].order].submittedWith == s.uses[i].cred)
  }

  ghost function Indicator(p: bool): nat {
    if p then 1 else 0
  }

  ghost predicate CountedFor(s: State, b: Binding) {
    && (b in s.initialRows ==> b in s.table)
    && s.registrations[b] ==
         s.lost[b] + Indicator(b in InFlight(s)) + Indicator(b in s.table && b !in s.initialRows)
  }

  ghost predicate Counted(s: State) {
    forall b :: CountedFor(s, b)
  }

  ghost predicate ThreadsOk(s: State) {
    forall t :: t in s.threads ==> ThreadOk(s, t)
  }

  ghost predicate Inv(s: State) {
    ThreadsOk(s) && Agrees(s) && Counted(s)
  }

  lemma MutualExclusion(s: State, t: ThreadId, u: ThreadId)
    requires ThreadsOk(s) && t in s.threads && u in s.threads
    requires HoldsLock(s.threads[t].pc) && HoldsLock(s.threads[u].pc)
    requires LockName(s.threads[t].binding) == LockName(s.threads[u].binding)
    ensures t == u
  {
    assert ThreadOk(s, t) && ThreadOk(s, u);
  }

  /** What a step of thread `t` for binding `b` leaves alone. */
  ghost predicate OthersUntouched(s: State, s': State, t: ThreadId, b: Binding) {
    && (forall u :: u != t ==> (u in s'.threads <==> u in s.threads))
    && (forall u :: u != t && u in s.threads ==> s'.threads[u] == s.threads[u])
    && (forall n :: n in s.locks && (n != LockName(b) || s.locks[n] != t) ==> n in s'.locks && s'.locks[n] == s.locks[n])
  }

  ghost predicate RowsOnlyAdded(s: State, s': State, t: ThreadId, b: Binding) {
    && (forall c :: c in s.table ==> c in s'.table && s'.table[c] == s.table[c])
    && (forall c :: c in s'.table && c !in s.table ==>
          c == b && t in s.threads && s.threads[t].binding == b && s.threads[t].pc.Registered?)
    && (forall o :: o in s.orders ==> o in s'.orders && s'.orders[o] == s.orders[o])
  }

  ghost predicate Local(s: State, s': State, t: ThreadId, b: Binding) {
    OthersUntouched(s, s', t, b) && RowsOnlyAdded(s, s', t, b)
  }

  ghost function BindingOf(s: State, a: Action): Binding
    requires Enabled(s, a) && !a.Restart?
  {
    if a.Start? then a.binding else s.threads[a.t].binding
  }

  /** Steps that take or release a mutex; a thread releases only its own. */
  ghost predicate MovesLock(a: Action) {
    a.Acquire? || a.SaveFails? || a.Release? || a.GiveUp?
  }

  lemma LockStepLeavesOthers(s: State, a: Action)
    requires ThreadsOk(s) && Enabled(s, a) && MovesLock(a)
    ensures OthersUntouched(s, Apply(s, a), a.t, BindingOf(s, a))
  {
    assert ThreadOk(s, a.t);
  }

  lemma StepLeavesOthers(s: State, a: Action)
    requires ThreadsOk(s) && Enabled(s, a) && !a.Restart?
    ensures OthersUntouched(s, Apply(s, a), a.t, BindingOf(s, a))
  {
    if MovesLock(a) { LockStepLeavesOthers(s, a); }
  }

  lemma StepOnlyAddsRows(s: State, a: Action)
    requires ThreadsOk(s) && Enabled(s, a) && !a.Restart?
    ensures RowsOnlyAdded(s, Apply(s, a), a.t, BindingOf(s, a))
  {
    if a.t in s.threads { assert ThreadOk(s, a.t); }
  }

  lemma StepIsLocal(s: State, a: Action)
    requires ThreadsOk(s) && Enabled(s, a) && !a.Restart?
    ensures Local(s, Apply(s, a), a.t, BindingOf(s, a))
  {
    StepLeavesOthers(s, a);
    StepOnlyAddsRows(s, a);
  }

  lemma OtherThreadKept(s: State, s': State, t: ThreadId, b: Binding, u: ThreadId)
    requires ThreadsOk(s) && Local(s, s', t, b) && u != t && u in s.threads
    ensures ThreadOk(s', u)
  {
    assert ThreadOk(s, u);
    var c := s.threads[u].binding;
    if c in s'.table && c !in s.table && HoldsLock(s.threads[u].pc) {
      MutualExclusion(s, t, u);
    }
  }

  lemma OwnThreadKept(s: State, a: Action)
    requires ThreadsOk(s) && Agrees(s) && Enabled(s, a) && !a.Restart? && a.t in Apply(s, a).threads
    ensures ThreadOk(Apply(s, a), a.t)
  {
    if a.t in s.threads { assert ThreadOk(s, a.t); }
  }

  lemma ThreadsKept(s: State, a: Action)
    requires ThreadsOk(s) && Agrees(s) && Enabled(s, a) && !a.Restart?
    ensures ThreadsOk(Apply(s, a))
  {
    var s', b := Apply(s, a), BindingOf(s, a);
    StepIsLocal(s, a);
    forall t | t in s'.threads ensures ThreadOk(s', t) {
      if t == a.t {
        OwnThreadKept(s, a);
      } else {
        OtherThreadKept(s, s', a.t, b, t);
      }
    }
  }

  lemma RecordingAgrees(s: State, a: Action)
    requires ThreadsOk(s) && Agrees(s) && Enabled(s, a) && (a.Publish? || a.SubmitOrder? || a.UseClient?)
    ensures Agrees(Apply(s, a))
  {
    assert ThreadOk(s, a.t);
  }

  lemma AgreementKept(s: State, a: Action)
    requires ThreadsOk(s) && Agrees(s) && Enabled(s, a) && !a.Restart?
    ensures Agrees(Apply(s, a))
  {
    if a.Publish? || a.SubmitOrder? || a.UseClient? {
      RecordingAgrees(s, a);
    } else {
      StepOnlyAddsRows(s, a);
    }
  }

  /** The binding thread `t` has in flight, and those every other thread has. */
  ghost function Mine(s: State, t: ThreadId): set<Binding> {
    if t in s.threads && s.threads[t].pc.Registered? then {s.threads[t].binding} else {}
  }

  ghost function Others(s: State, t: ThreadId): set<Binding> {
    set u | u in s.threads && u != t && s.threads[u].pc.Registered? :: s.threads[u].binding
  }

  lemma InFlightSplit(s: State, t: ThreadId)
    ensures InFlight(s) == Mine(s, t) + Others(s, t)
  {
    forall b ensures b in InFlight(s) <==> b in Mine(s, t) + Others(s, t) {
      if b in InFlight(s) {
        var u :| u in s.threads && s.threads[u].pc.Registered? && s.threads[u].binding == b;
        if u != t { assert b in Others(s, t); }
      }
    }
  }

  lemma OthersDisjoint(s: State, t: ThreadId)
    requires ThreadsOk(s) && t in s.threads && HoldsLock(s.threads[t].pc)
    ensures s.threads[t].binding !in Others(s, t)
  {
    if s.threads[t].binding in Others(s, t) {
      var u :| u in s.threads && u != t && s.threads[u].pc.Registered? && s.threads[u].binding == s.threads[t].binding;
      MutualExclusion(s, t, u);
    }
  }

  /** One step moves the count of its own binding and of no other. */
  ghost predicate Balanced(s: State, s': State, t: ThreadId, b: Binding) {
    && s'.initialRows == s.initialRows
    && (forall c :: c != b ==> s'.registrations[c] == s.registrations[c] && s'.lost[c] == s.lost[c])
    && s'.registrations[b] + s.lost[b] + Indicator(b in Mine(s, t)) + Indicator(b in s.table) ==
       s.registrations[b] + s'.lost[b] + Indicator(b in Mine(s', t)) + Indicator(b in s'.table)
  }

  lemma SaveFailsIsBalanced(s: State, a: Action)
    requires ThreadsOk(s) && Enabled(s, a) && a.SaveFails?
    ensures Balanced(s, Apply(s, a), a.t, BindingOf(s, a))
  {
    assert ThreadOk(s, a.t);
  }

  lemma RegisteringIsBalanced(s: State, a: Action)
    requires ThreadsOk(s) && Enabled(s, a) && (a.Register? || a.Save?)
    ensures Balanced(s, Apply(s, a), a.t, BindingOf(s, a))
  {
    assert ThreadOk(s, a.t);
  }

  lemma StepIsBalanced(s: State, a: Action)
    requires ThreadsOk(s) && Enabled(s, a) && !a.Restart?
    ensures Balanced(s, Apply(s, a), a.t, BindingOf(s, a))
  {
    if a.Register? || a.Save? {
      RegisteringIsBalanced(s, a);
    } else if a.SaveFails? {
      SaveFailsIsBalanced(s, a);
    }
  }

  lemma CountKept(s: State, s': State, t: ThreadId, b: Binding, c: Binding)
    requires CountedFor(s, c) && Local(s, s', t, b) && Balanced(s, s', t, b)
    requires Mine(s, t) <= {b} && Mine(s', t) <= {b}
    requires Mine(s, t) + Mine(s', t) != {} ==> b !in Others(s, t)
    ensures CountedFor(s', c)
  {
    InFlightSplit(s, t);
    InFlightSplit(s', t);
    assert Others(s', t) == Others(s, t);
  }

  lemma StepKeepsCount(s: State, a: Action)
    requires ThreadsOk(s) && Counted(s) && Enabled(s, a) && !a.Restart?
    ensures Counted(Apply(s, a))
  {
    var s', b := Apply(s, a), BindingOf(s, a);
    StepIsLocal(s, a);
    StepIsBalanced(s, a);
    if a.t in s.threads && HoldsLock(s.threads[a.t].pc) { OthersDisjoint(s, a.t); }
    forall c ensures CountedFor(s', c) {
      CountKept(s, s', a.t, b, c);
    }
  }

  lemma RestartKept(s: State)
    requires Inv(s)
    ensures Inv(Apply(s, Restart))
  {
    var s' := Apply(s, Restart);
    assert InFlight(s') == {};
    forall b ensures CountedFor(s', b) { assert CountedFor(s, b); }
  }

  lemma InvStep(s: State, a: Action)
    requires Inv(s) && Enabled(s, a)
    ensures Inv(Apply(s, a))
  {
    if a.Restart? {
      RestartKept(s);
    } else {
      ThreadsKept(s, a);
      AgreementKept(s, a);
      StepKeepsCount(s, a);
    }
  }

  // ---------- whole runs ----------

  lemma RunInv(run: seq<State>, i: nat)
    requires IsRun(run) && i < |run|
    ensures Inv(run[i])
  {
    assert InFlight(run[0]) == {};
    forall s, s' | Inv(s) && Next(s, s') ensures Inv(s') {
      var a :| Enabled(s, a) && s' == Apply(s, a);
      InvStep(s, a);
    }
    Always(Next, Inv, run, i);
  }

  ghost predicate RowsKept(s: State, s': State) {
    && (forall b :: b in s.table ==> InTable(s', b, s.table[b]))
    && (forall o :: o in s.orders ==> o in s'.orders && s'.orders[o] == s.orders[o])
    && s'.initialRows == s.initialRows
  }

  lemma StepKeepsRows(s: State, a: Action)
    requires ThreadsOk(s) && Enabled(s, a)
    ensures RowsKept(s, Apply(s, a))
  {
    if !a.Restart? {
      StepOnlyAddsRows(s, a);
      StepIsBalanced(s, a);
    }
  }

  /** A stored row is never replaced or removed, although the statement is INSERT OR REPLACE. */
  lemma {:induction false} RowNeverReplaced(run: seq<State>, i: nat, j: nat)
    requires IsRun(run) && i <= j < |run|
    ensures RowsKept(run[i], run[j])
  {
    if i < j {
      RowNeverReplaced(run, i, j - 1);
      RunInv(run, j - 1);
      StepOf(Next, run, j);
      var a :| Enabled(run[j-1], a) && run[j] == Apply(run[j-1], a);
      StepKeepsRows(run[j-1], a);
    }
  }

  /**
    Whatever the interleaving and however often the process restarts in between, two
    threads that obtain a client for the same pair obtain the same key and account URL.
  */
  lemma OneCredentialPerBinding(run: seq<State>, i: nat, j: nat, t: ThreadId, u: ThreadId)
    requires IsRun(run) && i <= j < |run|
    requires t in run[i].threads && run[i].threads[t].pc.Obtained?
    requires u in run[j].threads && run[j].threads[u].pc.Obtained?
    requires run[i].threads[t].binding == run[j].threads[u].binding
    ensures run[i].threads[t].pc.cred == run[j].threads[u].pc.cred
  {
    RunInv(run, i);
    RunInv(run, j);
    RowNeverReplaced(run, i, j);
    assert ThreadOk(run[i], t) && ThreadOk(run[j], u);
  }

  /** The dns-01 TXT value: a digest of the token joined to the key's thumbprint. */
  function Dns01Txt(thumbprint: PrivateKey -> string, digest: string -> string, key: PrivateKey, token: string): string {
    digest(token + "." + thumbprint(key))
  }

  lemma DotComesFirst(a: string, x: string)
    requires '.' !in a
    ensures (a + "." + x)[0] == '.' <==> a == ""
  {
    if a != "" { assert a[0] in a; }
  }

  lemma {:induction false} DotSeparates(a: string, x: string, b: string, y: string)
    requires '.' !in a && '.' !in b && a + "." + x == b + "." + y
    ensures a == b && x == y
  {
    var s, t := a + "." + x, b + "." + y;
    DotComesFirst(a, x);
    DotComesFirst(b, y);
    if a == "" {
      assert s[1..] == x && t[1..] == y;
    } else {
      assert s[0] == a[0] && t[0] == b[0];
      assert s[1..] == a[1..] + "." + x && t[1..] == b[1..] + "." + y;
      DotSeparates(a[1..], x, b[1..], y);
      assert a == [a[0]] + a[1..] && b == [b[0]] + b[1..];
    }
  }

  /**
    Why the key matters: with a digest and a thumbprint that tell their inputs apart, a TXT
    value belongs to one token and one key.
  */
  lemma TxtBelongsToOneKey(thumbprint: PrivateKey -> string, digest: string -> string,
                           key: PrivateKey, token: string, key': PrivateKey, token': string)
    requires forall x, y :: digest(x) == digest(y) ==> x == y
    requires forall k, l :: thumbprint(k) == thumbprint(l) ==> k == l
    requires '.' !in token && '.' !in token'
    ensures Dns01Txt(thumbprint, digest, key, token) == Dns01Txt(thumbprint, digest, key', token') <==> key == key' && token == token'
  {
    var x, y := token + "." + thumbprint(key), token' + "." + thumbprint(key');
    if digest(x) == digest(y) {
      DotSeparates(token, thumbprint(key), token', thumbprint(key'));
    }
  }

  /**
    Every operation on an order, at any later time and after any restarts, signs with the
    credential the order was submitted with; so the TXT value of a token never changes
    over the order's life, whatever the digest and thumbprint functions are.
  */
  lemma OrderKeepsItsCredential(run: seq<State>, i: nat, j: nat, o: OrderId, n: nat,
                                thumbprint: PrivateKey -> string, digest: string -> string, token: string)
    requires IsRun(run) && i <= j < |run|
    requires o in run[i].orders && n < |run[j].uses| && run[j].uses[n].order == o
    ensures run[j].uses[n].cred == run[i].orders[o].submittedWith
    ensures Dns01Txt(thumbprint, digest, run[j].uses[n].cred.key, token) ==
            Dns01Txt(thumbprint, digest, run[i].orders[o].submittedWith.key, token)
  {
    RunInv(run, j);
    RowNeverReplaced(run, i, j);
  }

  /**
    Confirmed registrations of a pair exceed the ones lost to a failed or interrupted save
    by at most one, and by exactly one while a save is pending or once a row was added.
  */
  lemma RegistrationsBounded(run: seq<State>, i: nat, b: Binding)
    requires IsRun(run) && i < |run|
    ensures run[i].lost[b] <= run[i].registrations[b] <= run[i].lost[b] + 1
    ensures run[i].registrations[b] == run[i].lost[b] + 1 <==>
            (b in InFlight(run[i]) || (b in run[i].table && b !in run[0].table))
    ensures b in run[i].cache ==> InTable(run[i], b, run[i].cache[b])
  {
    RunInv(run, i);
    RowNeverReplaced(run, 0, i);
    assert CountedFor(run[i], b);
    if b in InFlight(run[i]) {
      var t :| t in run[i].threads && run[i].threads[t].pc.Registered? && run[i].threads[t].binding == b;
      assert ThreadOk(run[i], t);
    }
  }

  // ---------- the code of one call, as a path of the machine ----------

  lemma Advance(s: State, m: State, a: Action)
    requires Reaches(Next, s, m) && Enabled(m, a)
    ensures Reaches(Next, s, Apply(m, a))
  {
    ReachesStep(Next, s, m, Apply(m, a));
  }

  /** The steps of an undisturbed thread, phase by phase. */
  lemma PathHits(s: State, b: Binding, t: ThreadId) returns (s': State)
    requires t !in s.threads && b in s.cache
    ensures Reaches(Next, s, s') && s'.cache == s.cache && s'.table == s.table && s'.locks == s.locks
    ensures s'.threads == s.threads[t := Thread(b, None, Obtained(s.cache[b]))]
  {
    ReachesSelf(Next, s);
    Advance(s, s, Start(t, b, None));
    s' := Apply(s, Start(t, b, None));
  }

  lemma PathToMutex(s: State, b: Binding, t: ThreadId) returns (s': State)
    requires t !in s.threads && LockName(b) !in s.locks && b !in s.cache
    ensures Reaches(Next, s, s') && s'.cache == s.cache && s'.table == s.table
    ensures s'.locks == s.locks[LockName(b) := t] && s'.threads == s.threads[t := Thread(b, None, Rechecked)]
    ensures s'.locks - {LockName(b)} == s.locks && s'.threads - {t} == s.threads
  {
    ReachesSelf(Next, s);
    var s1 := Apply(s, Start(t, b, None));
    Advance(s, s, Start(t, b, None));
    var s2 := Apply(s1, Acquire(t));
    Advance(s, s1, Acquire(t));
    Advance(s, s2, Recheck(t));
    s' := Apply(s2, Recheck(t));
  }

  lemma PathGivesUp(s: State, m: State, t: ThreadId) returns (s': State)
    requires Reaches(Next, s, m) && Enabled(m, GiveUp(t))
    ensures Reaches(Next, s, s') && s'.cache == m.cache && s'.table == m.table
    ensures s'.locks == m.locks - {LockName(m.threads[t].binding)} && s'.threads == m.threads - {t}
  {
    Advance(s, m, GiveUp(t));
    s' := Apply(m, GiveUp(t));
  }

  lemma PathLoads(s: State, m: State, t: ThreadId, freshKey: PrivateKey) returns (s': State)
    requires Reaches(Next, s, m) && Enabled(m, Load(t, freshKey))
    ensures Reaches(Next, s, s') && s'.cache == m.cache && s'.table == m.table && s'.locks == m.locks
    ensures var th := m.threads[t];
      s'.threads == m.threads[t := th.(pc := if th.binding in m.table then Ready(m.table[th.binding]) else Fresh(freshKey))]
  {
    Advance(s, m, Load(t, freshKey));
    s' := Apply(m, Load(t, freshKey));
  }

  lemma PathSaves(s: State, m: State, t: ThreadId, reported: bool, written: bool) returns (s': State)
    requires Reaches(Next, s, m) && Enabled(m, Save(t)) && (reported ==> written)
    ensures Reaches(Next, s, s') && s'.cache == m.cache
    ensures var th := m.threads[t];
      && s'.table == (if written then m.table[th.binding := th.pc.cred] else m.table)
      && s'.locks == (if reported then m.locks else m.locks - {LockName(th.binding)})
      && s'.threads == if reported then m.threads[t := th.(pc := Ready(th.pc.cred))] else m.threads - {t}
  {
    if reported {
      Advance(s, m, Save(t));
      s' := Apply(m, Save(t));
    } else {
      Advance(s, m, SaveFails(t, written));
      s' := Apply(m, SaveFails(t, written));
    }
  }

  lemma PathRegisters(s: State, m: State, t: ThreadId, url: string, reported: bool, written: bool) returns (s': State)
    requires Reaches(Next, s, m) && Enabled(m, Register(t, url)) && (reported ==> written)
    ensures Reaches(Next, s, s') && s'.cache == m.cache
    ensures var th, cred := m.threads[t], Credential(m.threads[t].pc.key, url);
      && s'.table == (if written then m.table[th.binding := cred] else m.table)
      && s'.locks == (if reported then m.locks else m.locks - {LockName(th.binding)})
      && s'.threads == if reported then m.threads[t := th.(pc := Ready(cred))] else m.threads - {t}
  {
    Advance(s, m, Register(t, url));
    s' := PathSaves(s, Apply(m, Register(t, url)), t, reported, written);
  }

  lemma PathPublishes(s: State, m: State, t: ThreadId) returns (s': State)
    requires Reaches(Next, s, m) && Enabled(m, Publish(t))
    ensures var th := m.threads[t];
      && Reaches(Next, s, s') && s'.table == m.table && s'.cache == m.cache[th.binding := th.pc.cred]
      && s'.locks == m.locks - {LockName(th.binding)} && s'.threads == m.threads[t := th.(pc := Obtained(th.pc.cred))]
  {
    Advance(s, m, Publish(t));
    var m1 := Apply(m, Publish(t));
    Advance(s, m1, Release(t));
    s' := Apply(m1, Release(t));
  }

  /** What the configuration, the database, the key generator and the CA answer one call. */
  datatype Environment = Environment(
    configured: bool, loadOk: bool, keyOk: bool, freshKey: PrivateKey, clientOk: bool,
    registration: Option<string>, saveOk: bool, savedAnyway: bool)
  {
    /** Nothing failed before the CA, or the stored row, has to be asked. */
    predicate Prepared() {
      configured && loadOk && keyOk && clientOk
    }

    /** The CA accepts a new key and the row reaches the table. */
    predicate WritesRow() {
      Prepared() && registration.Some? && (saveOk || savedAnyway)
    }
  }

  class Pool {
    var accountClients: map<Binding, Credential>
    var table: map<Binding, Credential>

    /** With the mutex held and the cache missed, find the row or make it. */
    method EnsureRow(b: Binding, env: Environment, ghost s: State, ghost m: State, ghost t: ThreadId)
      returns (cred: Option<Credential>, ghost s': State)
      requires Reaches(Next, s, m) && m.table == table
      requires t in m.threads && m.threads[t] == Thread(b, None, Rechecked)
      requires env.registration.Some? ==> env.registration.value != ""
      modifies this`table
      ensures Reaches(Next, s, s') && s'.table == table && s'.cache == m.cache
      ensures cred.Some? <==> env.Prepared() && (b in old(table) || (env.registration.Some? && env.saveOk))
      ensures table == if b !in old(table) && env.WritesRow()
                       then old(table)[b := Credential(env.freshKey, env.registration.value)] else old(table)
      ensures cred.Some? ==> b in table && table[b] == cred.value && s'.locks == m.locks &&
                             s'.threads == m.threads[t := Thread(b, None, Ready(cred.value))]
      ensures cred.None? ==> s'.locks == m.locks - {LockName(b)} && s'.threads == m.threads - {t}
    {
      if !env.configured || !env.loadOk || !env.keyOk {
        s' := PathGivesUp(s, m, t);
        return None, s';
      }
      s' := PathLoads(s, m, t, env.freshKey);
      if !env.clientOk || (b !in table && env.registration.None?) {
        s' := PathGivesUp(s, s', t);
        return None, s';
      }
      if b in table {
        return Some(table[b]), s';
      }
      var made := Credential(env.freshKey, env.registration.value);
      if env.saveOk || env.savedAnyway {
        table := table[b := made];
      }
      s' := PathRegisters(s, s', t, env.registration.value, env.saveOk, env.saveOk || env.savedAnyway);
      cred := if env.saveOk then Some(made) else None;
    }

    /**
      One undisturbed call.  Seen from any machine state with this cache and table, its
      effect is a path of thread `t`, which ends holding the returned client, or gone.
    */
    method GetClientForAccount(b: Binding, env: Environment, ghost s: State, ghost t: ThreadId)
      returns (client: Option<Credential>, ghost s': State)
      requires s.cache == accountClients && s.table == table
      requires t !in s.threads && LockName(b) !in s.locks
      requires env.registration.Some? ==> env.registration.value != ""
      modifies this
      ensures Reaches(Next, s, s')
      ensures s'.cache == accountClients && s'.table == table && s'.locks == s.locks
      ensures s'.threads == if client.Some? then s.threads[t := Thread(b, None, Obtained(client.value))] else s.threads
      ensures accountClients == if client.Some? then old(accountClients)[b := client.value] else old(accountClients)
      ensures b in old(accountClients) ==> client == Some(old(accountClients)[b]) && table == old(table)
      ensures b !in old(accountClients) ==>
        && (client.Some? <==> env.Prepared() && (b in old(table) || (env.registration.Some? && env.saveOk)))
        && (client.Some? ==> b in table && client.value == table[b])
        && table == if b !in old(table) && env.WritesRow()
                    then old(table)[b := Credential(env.freshKey, env.registration.value)] else old(table)
    {
      if b in accountClients {
        s' := PathHits(s, b, t);
        return Some(accountClients[b]), s';
      }
      s' := PathToMutex(s, b, t);
      client, s' := EnsureRow(b, env, s, s', t);
      if client.Some? {
        accountClients := accountClients[b := client.value];
        s' := PathPublishes(s, s', t);
      }
    }
  }
}
