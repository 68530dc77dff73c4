/**
  The pool of slot accounts per upstream: clients created together under the pool's
  mutex, picked round-robin, and registered with the CA on first use.
*/
module SlotPool {
  import opened Paths
  import opened Wrappers
  import AccountPool
  import opened Division

  type Key = AccountPool.PrivateKey

  /** A client as it was created; the empty URL means its account is still to be registered. */
  datatype Client = Client(key: Key, accountUrl: string)

  /** What the table and the key generator answer for one slot. */
  datatype SlotSource = LoadError | Stored(key: Key, accountUrl: string) | Fresh(key: Key)

  /** The slots a new set of clients has. */
  function SlotCount(accountCount: int): nat {
    if accountCount < 1 then 1 else accountCount
  }

  ghost predicate Loads(source: nat -> SlotSource, count: nat) {
    forall slot: nat :: slot < count ==> !source(slot).LoadError?
  }

  /** The upstream is configured and all its slots can be loaded; there is always a slot 0. */
  ghost predicate Available(configured: bool, accountCount: int, source: nat -> SlotSource) {
    configured && forall slot: nat :: slot == 0 || slot < accountCount ==> !source(slot).LoadError?
  }

  function NewClient(source: SlotSource): Client
    requires !source.LoadError?
  {
    match source
    case Stored(key, url) => Client(key, url)
    case Fresh(key) => Client(key, "")
  }

  /** The stored key with its account, or the fresh key with none. */
  ghost predicate MadeFrom(c: Client, source: SlotSource) {
    match source
    case LoadError => false
    case Stored(key, url) => c.key == key && c.accountUrl == url
    case Fresh(key) => c.key == key && c.accountUrl == ""
  }

  /** One pick, as an order remembers it: the upstream and the slot, and the client that submitted it. */
  datatype Picked = Picked(upstream: string, slot: nat, client: Client)

  class Pool {
    var clients: map<string, seq<Client>>
    var nextSlot: map<string, nat>

    /** Every pick made so far. */
    ghost var picks: seq<Picked>

    ghost predicate Valid()
      reads this
    {
      CountersOk(clients, nextSlot, picks) && PicksOk(clients, picks)
    }

    constructor ()
      ensures Valid() && picks == []
    {
      clients, nextSlot, picks := map[], map[], [];
    }

    /** Creates all clients of an upstream on first use, or none of them. */
    method GetOrCreateAll(upstream: string, configured: bool, accountCount: int, source: nat -> SlotSource) returns (ok: bool)
      requires Valid()
      modifies this`clients
      ensures Valid() && (upstream in old(clients) ==> clients == old(clients))
      ensures ok <==> upstream in old(clients) || Available(configured, accountCount, source)
      ensures ok <==> upstream in clients
      ensures !ok ==> clients == old(clients)
      ensures ok && upstream !in old(clients) ==>
        && clients == old(clients)[upstream := clients[upstream]]
        && |clients[upstream]| == (if accountCount >= 1 then accountCount else 1)
        && forall slot: nat :: slot < |clients[upstream]| ==> MadeFrom(clients[upstream][slot], source(slot))
    {
      if upstream in clients {
        return true;
      }
      if !configured {
        return false;
      }
      var count := SlotCount(accountCount);
      var created: seq<Client> := [];
      for slot := 0 to count
        invariant |created| == slot && Loads(source, slot)
        invariant forall i: nat :: i < slot ==> created[i] == NewClient(source(i))
      {
        if source(slot).LoadError? {
          return false;
        }
        created := created + [NewClient(source(slot))];
      }
      NeverPicked(picks, upstream);
      DivisionIs(0, count, 0, 0);
      clients := clients[upstream := created];
      return true;
    }

    /**
      The part of NextClient under the mutex: the m-th pick of an upstream, whatever was
      picked of others in between, is slot m modulo the number of its slots.
    */
    method NextClient(upstream: string, configured: bool, accountCount: int, source: nat -> SlotSource)
      returns (pick: Option<Picked>)
      requires Valid()
      modifies this
      ensures Valid()
      ensures pick.Some? <==> upstream in old(clients) || Available(configured, accountCount, source)
      ensures pick.Some? ==>
        && upstream in clients && pick.value.upstream == upstream
        && pick.value.slot == PickCount(old(picks), upstream) % |clients[upstream]|
        && pick.value.client == clients[upstream][pick.value.slot]
        && picks == old(picks) + [pick.value]
      ensures pick.None? ==> picks == old(picks) && clients == old(clients)
      ensures forall u :: u in old(clients) ==> u in clients && clients[u] == old(clients)[u]
    {
      var ok := GetOrCreateAll(upstream, configured, accountCount, source);
      if !ok {
        return None;
      }
      var n := |clients[upstream]|;
      PickStep(CounterOf(nextSlot, upstream), PickCount(picks, upstream), n);
      Euclid(CounterOf(nextSlot, upstream), n);
      var slot := CounterOf(nextSlot, upstream) % n;
      nextSlot := nextSlot[upstream := (slot + 1) % n];
      pick := Some(Picked(upstream, slot, clients[upstream][slot]));
      PickKeepsCounters(clients, old(nextSlot), nextSlot, picks, pick.value);
      PickKeepsPicks(clients, picks, pick.value);
      picks := picks + [pick.value];
    }

    /**
      The client of a stored order: whichever pick the order was created with, its slot
      leads back to the client that submitted it.  A slot no pick can have made is read as 0.
    */
    method GetSlot(upstream: string, configured: bool, accountCount: int, source: nat -> SlotSource, slot: int)
      returns (client: Option<Client>)
      requires Valid()
      modifies this`clients
      ensures Valid()
      ensures client.Some? <==> upstream in old(clients) || Available(configured, accountCount, source)
      ensures forall p :: p in picks && p.upstream == upstream && p.slot == slot ==> client == Some(p.client)
      ensures client.Some? ==> upstream in clients && client.value in clients[upstream]
      ensures client.Some? && !(0 <= slot < |clients[upstream]|) ==> client.value == clients[upstream][0]
    {
      var ok := GetOrCreateAll(upstream, configured, accountCount, source);
      if !ok {
        return None;
      }
      return Some(clients[upstream][if slot < 0 || slot >= |clients[upstream]| then 0 else slot]);
    }
  }

  function CounterOf(nextSlot: map<string, nat>, u: string): nat {
    if u in nextSlot then nextSlot[u] else 0
  }

  /** How many of the picks are for the upstream. */
  function PickCount(picks: seq<Picked>, u: string): nat {
    if picks == [] then 0
    else PickCount(picks[..|picks|-1], u) + if picks[|picks|-1].upstream == u then 1 else 0
  }

  /** The m-th pick of the upstream is slot m modulo n, whatever is picked of others in between. */
  ghost predicate RoundRobin(picks: seq<Picked>, u: string, n: nat)
    requires n > 0
  {
    forall i :: 0 <= i < |picks| && picks[i].upstream == u ==> picks[i].slot == PickCount(picks[..i], u) % n
  }

  /** The counter of an upstream is the number of its picks, modulo its slots. */
  ghost predicate CountersOk(clients: map<string, seq<Client>>, nextSlot: map<string, nat>, picks: seq<Picked>) {
    && (forall u :: u in clients ==> |clients[u]| > 0 && CounterOf(nextSlot, u) == PickCount(picks, u) % |clients[u]|)
    && (forall u :: u in nextSlot ==> u in clients)
  }

  ghost predicate PickOk(clients: map<string, seq<Client>>, p: Picked) {
    p.upstream in clients && p.slot < |clients[p.upstream]| && clients[p.upstream][p.slot] == p.client
  }

  ghost predicate PicksOk(clients: map<string, seq<Client>>, picks: seq<Picked>) {
    && (forall p :: p in picks ==> PickOk(clients, p))
    && (forall u :: u in clients && |clients[u]| > 0 ==> RoundRobin(picks, u, |clients[u]|))
  }

  lemma PickKeepsCounters(clients: map<string, seq<Client>>, nextSlot: map<string, nat>, nextSlot': map<string, nat>,
                          picks: seq<Picked>, p: Picked)
    requires CountersOk(clients, nextSlot, picks) && p.upstream in clients
    requires nextSlot' == nextSlot[p.upstream := (PickCount(picks, p.upstream) + 1) % |clients[p.upstream]|]
    ensures CountersOk(clients, nextSlot', picks + [p])
  {
    assert (picks + [p])[..|picks|] == picks;
  }

  lemma PickKeepsPicks(clients: map<string, seq<Client>>, picks: seq<Picked>, p: Picked)
    requires PicksOk(clients, picks) && PickOk(clients, p)
    requires p.slot == PickCount(picks, p.upstream) % |clients[p.upstream]|
    ensures PicksOk(clients, picks + [p])
  {
    forall u | u in clients && |clients[u]| > 0 ensures RoundRobin(picks + [p], u, |clients[u]|) {
      forall i | 0 <= i < |picks| + 1 && (picks + [p])[i].upstream == u
        ensures (picks + [p])[i].slot == PickCount((picks + [p])[..i], u) % |clients[u]|
      {
        assert (picks + [p])[..i] == picks[..i];
        assert picks[..|picks|] == picks;
      }
    }
  }

  lemma {:induction false} NeverPicked(picks: seq<Picked>, u: string)
    requires forall p :: p in picks ==> p.upstream != u
    ensures PickCount(picks, u) == 0
  {
    if picks != [] {
      assert picks[|picks|-1] in picks;
      NeverPicked(picks[..|picks|-1], u);
    }
  }

  // ---------- round-robin ----------

  lemma ModStep(k: nat, n: nat)
    requires n > 0
    ensures if k % n + 1 == n then (k + 1) / n == k / n + 1 && (k + 1) % n == 0
            else (k + 1) / n == k / n && (k + 1) % n == k % n + 1
  {
    var q, r := k / n, k % n;
    Euclid(k, n);
    if r + 1 == n {
      Difference(q + 1, q, n);
      DivisionIs(k + 1, n, q + 1, 0);
    } else {
      DivisionIs(k + 1, n, q, r + 1);
    }
  }

  /** A counter that is the number of picks modulo n stays so. */
  lemma PickStep(counter: nat, picks: nat, n: nat)
    requires n > 0 && counter == picks % n
    ensures counter % n == picks % n && (counter % n + 1) % n == (picks + 1) % n
  {
    Euclid(picks, n);
    DivisionIs(counter, n, 0, counter);
    ModStep(picks, n);
    if counter + 1 == n { DivisionIs(n, n, 1, 0); } else { DivisionIs(counter + 1, n, 0, counter + 1); }
  }

  /** How many of the picks for the upstream chose the slot. */
  function Chosen(picks: seq<Picked>, u: string, slot: nat): nat {
    if picks == [] then 0
    else
      var last := picks[|picks|-1];
      Chosen(picks[..|picks|-1], u, slot) + if last.upstream == u && last.slot == slot then 1 else 0
  }

  lemma RoundRobinBefore(picks: seq<Picked>, u: string, n: nat, k: nat)
    requires n > 0 && RoundRobin(picks, u, n) && k <= |picks|
    ensures RoundRobin(picks[..k], u, n)
  {
    forall i | 0 <= i < k ensures picks[..k][..i] == picks[..i] { }
  }

  /** After k picks over n slots, slot s was chosen k/n times, and once more if s < k % n. */
  lemma {:induction false} ChoiceIsBalanced(picks: seq<Picked>, u: string, n: nat, slot: nat)
    requires slot < n && RoundRobin(picks, u, n)
    ensures var k := PickCount(picks, u);
      Chosen(picks, u, slot) == k / n + if slot < k % n then 1 else 0
  {
    if picks == [] {
      DivisionIs(0, n, 0, 0);
    } else {
      var k := |picks| - 1;
      RoundRobinBefore(picks, u, n, k);
      ChoiceIsBalanced(picks[..k], u, n, slot);
      if picks[k].upstream == u {
        ModStep(PickCount(picks[..k], u), n);
      }
    }
  }

  lemma CloseNumbersDiffer(a: nat, b: nat, n: nat)
    requires n > 0 && a < b < a + n
    ensures a % n != b % n
  {
    Euclid(a, n);
    Euclid(b, n);
    Difference(b / n, a / n, n);
    Multiple(b / n - a / n, n);
  }

  /** Among as many consecutive picks of one upstream as it has slots, no slot repeats. */
  lemma ConsecutivePicksDiffer(picks: seq<Picked>, u: string, n: nat, i: nat, j: nat)
    requires n > 0 && RoundRobin(picks, u, n)
    requires i < j < |picks| && picks[i].upstream == picks[j].upstream == u
    requires PickCount(picks[..j], u) < PickCount(picks[..i], u) + n
    ensures picks[i].slot != picks[j].slot
  {
    PicksGrow(picks[..j], i, u);
    assert picks[..j][..i] == picks[..i];
    CloseNumbersDiffer(PickCount(picks[..i], u), PickCount(picks[..j], u), n);
  }

  /** The pick of an upstream with number m lies in the stretch during which its count passes m. */
  lemma {:induction false} PickNumbered(picks: seq<Picked>, u: string, lo: nat, hi: nat, m: nat) returns (i: nat)
    requires lo <= hi <= |picks| && PickCount(picks[..lo], u) <= m < PickCount(picks[..hi], u)
    ensures lo <= i < hi && picks[i].upstream == u && PickCount(picks[..i], u) == m
    decreases hi
  {
    var h := picks[..hi];
    assert h[..|h|-1] == picks[..hi-1] && h[|h|-1] == picks[hi-1];
    if picks[hi-1].upstream == u && PickCount(picks[..hi-1], u) == m {
      i := hi - 1;
    } else {
      i := PickNumbered(picks, u, lo, hi - 1, m);
    }
  }

  /** The number in [a, a + n) that is `slot` modulo n. */
  lemma NumberOfSlot(a: nat, n: nat, slot: nat) returns (m: nat)
    requires slot < n
    ensures a <= m < a + n && m % n == slot
  {
    var q, r := a / n, a % n;
    Euclid(a, n);
    if r <= slot {
      m := q * n + slot;
      DivisionIs(m, n, q, slot);
    } else {
      Difference(q + 1, q, n);
      m := (q + 1) * n + slot;
      DivisionIs(m, n, q + 1, slot);
    }
  }

  /** The slots that a stretch of the picks chose for an upstream. */
  function SlotsIn(picks: seq<Picked>, u: string, lo: nat, hi: nat): set<nat>
    requires lo <= hi <= |picks|
  {
    set i | lo <= i < hi && picks[i].upstream == u :: picks[i].slot
  }

  /** As many consecutive picks of an upstream as it has slots choose every slot - so each exactly once. */
  lemma ConsecutivePicksCoverAll(picks: seq<Picked>, u: string, n: nat, lo: nat, hi: nat)
    requires n > 0 && RoundRobin(picks, u, n) && lo <= hi <= |picks|
    requires PickCount(picks[..hi], u) == PickCount(picks[..lo], u) + n
    ensures forall slot :: slot in SlotsIn(picks, u, lo, hi) <==> 0 <= slot < n
  {
    forall slot: nat | slot < n ensures slot in SlotsIn(picks, u, lo, hi) {
      var m := NumberOfSlot(PickCount(picks[..lo], u), n, slot);
      var i := PickNumbered(picks, u, lo, hi, m);
      assert picks[i].slot == slot;
    }
    forall i | lo <= i < hi && picks[i].upstream == u ensures picks[i].slot < n {
      Euclid(PickCount(picks[..i], u), n);
    }
  }

  /** What a pool of the code has picked is round-robin for each of its upstreams, so the three lemmas above are about it. */
  lemma PoolIsRoundRobin(pool: Pool, u: string, slot: nat)
    requires pool.Valid() && u in pool.clients && slot < |pool.clients[u]|
    ensures var n, k := |pool.clients[u]|, PickCount(pool.picks, u);
      RoundRobin(pool.picks, u, n) && Chosen(pool.picks, u, slot) == k / n + if slot < k % n then 1 else 0
  {
    ChoiceIsBalanced(pool.picks, u, |pool.clients[u]|, slot);
  }

  lemma {:induction false} PicksGrow(picks: seq<Picked>, i: nat, u: string)
    requires i < |picks| && picks[i].upstream == u
    ensures PickCount(picks, u) > PickCount(picks[..i], u)
  {
    var k := |picks| - 1;
    if i < k {
      assert picks[..k][..i] == picks[..i];
      PicksGrow(picks[..k], i, u);
    }
  }

  // ---------- registration on first use ----------

  datatype Slot = Slot(upstream: string, index: nat)

  type ThreadId = nat

  datatype Pc =
    | Missed       // the client had no account URL
    | Holding      // holds the slot's mutex
    | Registering  // still no account URL under the mutex
    | Saving       // the CA confirmed: the URL is set, the row is not written
    | Served       // returned to the caller

  datatype Thread = Thread(slot: Slot, pc: Pc)

  /** One process, from the creation of the clients: `loaded` had a stored account then. */
  datatype State = State(
    loaded: set<Slot>,
    registered: set<Slot>,   // the client's account URL is set
    persisted: set<Slot>,    // the table has a row
    locks: map<string, ThreadId>,
    threads: map<ThreadId, Thread>,
    registrations: multiset<Slot>,
    lost: set<Slot>)         // the save failed and wrote nothing

  datatype Action =
    | Start(t: ThreadId, slot: Slot)
    | Acquire(t: ThreadId)
    | Recheck(t: ThreadId)
    | Register(t: ThreadId)
    | RegisterFails(t: ThreadId)
    | Save(t: ThreadId)
    | SaveFails(t: ThreadId, written: bool)  // an error may be reported after the row was written
    | Leave(t: ThreadId)

  /** The key of the mutex map; `digits` prints the slot's index. */
  function LockName(slot: Slot, digits: nat -> string): string {
    slot.upstream + ":" + digits(slot.index)
  }

  ghost predicate Init(s: State) {
    && s.registered == s.loaded && s.persisted == s.loaded && s.locks == map[] && s.threads == map[]
    && s.registrations == multiset{} && s.lost == {}
  }

  ghost predicate Enabled(s: State, a: Action, digits: nat -> string) {
    match a
    case Start(t, _) => t !in s.threads
    case Acquire(t) => t in s.threads && s.threads[t].pc.Missed? && LockName(s.threads[t].slot, digits) !in s.locks
    case Recheck(t) => t in s.threads && s.threads[t].pc.Holding?
    case Register(t) => t in s.threads && s.threads[t].pc.Registering?
    case RegisterFails(t) => t in s.threads && s.threads[t].pc.Registering?
    case Save(t) => t in s.threads && s.threads[t].pc.Saving?
    case SaveFails(t, _) => t in s.threads && s.threads[t].pc.Saving?
    case Leave(t) => t in s.threads && s.threads[t].pc.Served?
  }

  ghost function Goto(s: State, t: ThreadId, pc: Pc): State
    requires t in s.threads
  {
    s.(threads := s.threads[t := s.threads[t].(pc := pc)])
  }

  ghost function Unlock(s: State, slot: Slot, digits: nat -> string): State {
    s.(locks := s.locks - {LockName(slot, digits)})
  }

  ghost function Apply(s: State, a: Action, digits: nat -> string): State
    requires Enabled(s, a, digits)
  {
    match a
    case Start(t, slot) => s.(threads := s.threads[t := Thread(slot, if slot in s.registered then Served else Missed)])
    case Acquire(t) => Goto(s, t, Holding).(locks := s.locks[LockName(s.threads[t].slot, digits) := t])
    case Recheck(t) =>
      var slot := s.threads[t].slot;
      if slot in s.registered then Unlock(Goto(s, t, Served), slot, digits) else Goto(s, t, Registering)
    case Register(t) =>
      var slot := s.threads[t].slot;
      Goto(s, t, Saving).(registered := s.registered + {slot}, registrations := s.registrations + multiset{slot})
    case RegisterFails(t) => Unlock(s, s.threads[t].slot, digits).(threads := s.threads - {t})
    case Save(t) =>
      var slot := s.threads[t].slot;
      Unlock(Goto(s, t, Served), slot, digits).(persisted := s.persisted + {slot})
    case SaveFails(t, written) =>
      var slot := s.threads[t].slot;
      var s' := Unlock(s, slot, digits).(threads := s.threads - {t});
      if written then s'.(persisted := s.persisted + {slot}) else s'.(lost := s.lost + {slot})
    case Leave(t) => s.(threads := s.threads - {t})
  }

  ghost predicate Next(s: State, s': State, digits: nat -> string) {
    exists a :: Enabled(s, a, digits) && s' == Apply(s, a, digits)
  }

  ghost function Steps(digits: nat -> string): (State, State) -> bool {
    (s, s') => Next(s, s', digits)
  }

  ghost predicate IsRun(run: seq<State>, digits: nat -> string) {
    IsPath(Steps(digits), run) && Init(run[0])
  }

  ghost predicate HoldsLock(pc: Pc) {
    pc.Holding? || pc.Registering? || pc.Saving?
  }

  ghost predicate ThreadOk(s: State, t: ThreadId, digits: nat -> string)
    requires t in s.threads
  {
    var th := s.threads[t];
    && (HoldsLock(th.pc) ==> LockName(th.slot, digits) in s.locks && s.locks[LockName(th.slot, digits)] == t)
    && (th.pc.Registering? ==> th.slot !in s.registered)
    && (th.pc.Saving? ==> th.slot in s.registered && th.slot !in s.persisted && th.slot !in s.lost)
    && (th.pc.Served? ==> th.slot in s.registered)
  }

  ghost predicate BeingSaved(s: State, slot: Slot) {
    exists t :: t in s.threads && s.threads[t] == Thread(slot, Saving)
  }

  ghost predicate SlotOk(s: State, slot: Slot) {
    && (slot in s.registered <==> slot in s.loaded || s.registrations[slot] == 1)
    && s.registrations[slot] <= 1
    && (slot in s.loaded ==> s.registrations[slot] == 0)
    && (slot in s.persisted || slot in s.lost ==> slot in s.registered)
    && !(slot in s.persisted && slot in s.lost)
    && (slot in s.registered && slot !in s.persisted && slot !in s.lost ==> BeingSaved(s, slot))
  }

  ghost predicate Inv(s: State, digits: nat -> string) {
    && (forall t :: t in s.threads ==> ThreadOk(s, t, digits))
    && (forall slot :: SlotOk(s, slot))
  }

  lemma ThreadKept(s: State, a: Action, digits: nat -> string, u: ThreadId)
    requires Inv(s, digits) && Enabled(s, a, digits) && u in Apply(s, a, digits).threads
    ensures ThreadOk(Apply(s, a, digits), u, digits)
  {
    if u in s.threads { assert ThreadOk(s, u, digits); }
    if a.t in s.threads {
      assert ThreadOk(s, a.t, digits);
      assert SlotOk(s, s.threads[a.t].slot);
    }
  }

  lemma SlotKept(s: State, a: Action, digits: nat -> string, slot: Slot)
    requires Inv(s, digits) && Enabled(s, a, digits)
    ensures SlotOk(Apply(s, a, digits), slot)
  {
    var s' := Apply(s, a, digits);
    assert SlotOk(s, slot);
    if a.t in s.threads { assert ThreadOk(s, a.t, digits); }
    if BeingSaved(s, slot) {
      var t :| t in s.threads && s.threads[t] == Thread(slot, Saving);
      if t != a.t { assert t in s'.threads && s'.threads[t] == Thread(slot, Saving); }
    }
    if a.Register? && s.threads[a.t].slot == slot {
      assert s'.threads[a.t] == Thread(slot, Saving);
    }
  }

  lemma InvStep(s: State, a: Action, digits: nat -> string)
    requires Inv(s, digits) && Enabled(s, a, digits)
    ensures Inv(Apply(s, a, digits), digits)
  {
    var s' := Apply(s, a, digits);
    forall t | t in s'.threads ensures ThreadOk(s', t, digits) { ThreadKept(s, a, digits, t); }
    forall slot ensures SlotOk(s', slot) { SlotKept(s, a, digits, slot); }
  }

  lemma RunInv(run: seq<State>, digits: nat -> string, i: nat)
    requires IsRun(run, digits) && i < |run|
    ensures Inv(run[i], digits)
  {
    forall s, s' | Inv(s, digits) && Next(s, s', digits) ensures Inv(s', digits) {
      var a :| Enabled(s, a, digits) && s' == Apply(s, a, digits);
      InvStep(s, a, digits);
    }
    Always(Steps(digits), s => Inv(s, digits), run, i);
  }

  /**
    Whatever the interleaving, a slot is registered at most once per process, never when a
    stored account was loaded, and every served thread has a registered client.  A
    registered slot lacks its row exactly when its save failed without writing, or is still
    to come.
  */
  lemma RegisteredOncePerProcess(run: seq<State>, digits: nat -> string, i: nat, slot: Slot)
    requires IsRun(run, digits) && i < |run|
    ensures run[i].registrations[slot] <= 1 && (slot in run[i].loaded ==> run[i].registrations[slot] == 0)
    ensures forall t :: t in run[i].threads && run[i].threads[t].pc.Served? ==> run[i].threads[t].slot in run[i].registered
    ensures slot in run[i].registered && slot !in run[i].persisted <==> slot in run[i].lost || BeingSaved(run[i], slot)
  {
    RunInv(run, digits, i);
    assert SlotOk(run[i], slot);
    forall t | t in run[i].threads ensures ThreadOk(run[i], t, digits) { }
  }

  /** A lost save is never made up for: the slot stays registered and without a row for the process's life. */
  lemma {:induction false} FailedSaveStays(run: seq<State>, digits: nat -> string, i: nat, j: nat, slot: Slot)
    requires IsRun(run, digits) && i <= j < |run| && slot in run[i].lost
    ensures slot in run[j].lost && slot in run[j].registered && slot !in run[j].persisted
  {
    RunInv(run, digits, j);
    assert SlotOk(run[j], slot);
    if i < j {
      FailedSaveStays(run, digits, i, j - 1, slot);
      StepOf(Steps(digits), run, j);
    }
  }

  lemma Then(run: seq<State>, a: Action, digits: nat -> string) returns (run': seq<State>)
    requires IsRun(run, digits) && Enabled(run[|run|-1], a, digits)
    ensures IsRun(run', digits) && |run'| > |run| && run'[|run'|-1] == Apply(run[|run|-1], a, digits)
  {
    run' := Extend(Steps(digits), run, Apply(run[|run|-1], a, digits));
  }

  /** "Registered implies persisted" fails: a slot is registered, idle, and has no row. */
  lemma LostSaveLeavesNoRow(slot: Slot, digits: nat -> string) returns (run: seq<State>)
    ensures IsRun(run, digits)
    ensures var s := run[|run|-1]; slot in s.registered && slot !in s.persisted && s.threads == map[] && slot in s.lost
  {
    run := [State({}, {}, {}, map[], map[], multiset{}, {})];
    run := Then(run, Start(0, slot), digits);
    run := Then(run, Acquire(0), digits);
    run := Then(run, Recheck(0), digits);
    run := Then(run, Register(0), digits);
    run := Then(run, SaveFails(0, false), digits);
    assert run[|run|-1].threads == map[];
  }
}
