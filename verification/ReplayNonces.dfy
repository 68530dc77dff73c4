/**
  The nonces the gateway issues to its own clients.

  Expiry is stored in whole seconds, so up to a second of the ten minutes is lost; a
  consume compares against it with the full clock.  A prune leaves the comparison to the
  database, which compares texts; all that is asked of it is never to take a row too early.
*/
module ReplayNonces {

  type Time = nat  // nanoseconds

  const SECOND: Time := 1_000_000_000
  const TTL: Time := 600 * SECOND

  /** Nonce value to expiry, in seconds. */
  type Table = map<string, nat>

  function Expiry(issuedAt: Time): nat {
    (issuedAt + TTL) / SECOND
  }

  lemma ExpiryBounds(issuedAt: Time)
    ensures issuedAt + 599 * SECOND < Expiry(issuedAt) * SECOND <= issuedAt + TTL
  {
  }

  predicate Accepts(t: Table, n: string, now: Time) {
    n in t && now <= t[n] * SECOND
  }

  /** A prune at `now` that picks `chosen`: those of them at or past their expiry go. */
  function Pruned(t: Table, now: Time, chosen: set<string>): Table {
    map n | n in t && !(n in chosen && t[n] * SECOND <= now) :: t[n]
  }

  // ---------- runs ----------

  datatype Event = Issue(value: string, at: Time) | Consume(value: string, at: Time) | Prune(at: Time, chosen: set<string>)

  datatype State = State(table: Table, issued: multiset<string>, accepted: multiset<string>)

  /** One statement or transaction on the table, with the successful issues and consumes counted. */
  function Step(s: State, e: Event): State {
    match e
    case Issue(n, at) =>
      if n in s.table then s
      else s.(table := s.table[n := Expiry(at)], issued := s.issued + multiset{n})
    case Consume(n, at) =>
      s.(table := s.table - {n}, accepted := if Accepts(s.table, n, at) then s.accepted + multiset{n} else s.accepted)
    case Prune(at, chosen) => s.(table := Pruned(s.table, at, chosen))
  }

  function Run(es: seq<Event>): State {
    if es == [] then State(map[], multiset{}, multiset{}) else Step(Run(es[..|es|-1]), es[|es|-1])
  }

  // ---------- the code ----------

  /** How the database answers `expires_at <= now` for an expiry in seconds. */
  type Comparison = (nat, Time) -> bool

  ghost predicate NeverEarly(atOrPast: Comparison) {
    forall expiry: nat, now: Time :: atOrPast(expiry, now) ==> expiry * SECOND <= now
  }

  const DAY: nat := 86400

  /** The comparison of times, and that of an RFC 3339 text with one that has a space after the date. */
  function ByTime(expiry: nat, now: Time): bool {
    expiry * SECOND <= now
  }

  function ByText(expiry: nat, now: Time): bool {
    expiry / DAY < now / SECOND / DAY
  }

  lemma DaysInOrder(expiry: nat, now: Time)
    ensures expiry / DAY < now / SECOND / DAY ==> expiry * SECOND <= now
    ensures expiry * SECOND <= now ==> expiry / DAY <= now / SECOND / DAY
  {
  }

  /** Neither comparison takes a row early; by text, exactly the rows expired on the same day stay. */
  lemma ComparisonsAreNeverEarly()
    ensures NeverEarly(ByTime) && NeverEarly(ByText)
    ensures forall expiry: nat, now: Time ::
      ByTime(expiry, now) && !ByText(expiry, now) <==> expiry * SECOND <= now && expiry / DAY == now / SECOND / DAY
  {
    forall expiry: nat, now: Time
      ensures ByText(expiry, now) ==> expiry * SECOND <= now
      ensures ByTime(expiry, now) && !ByText(expiry, now) <==> expiry * SECOND <= now && expiry / DAY == now / SECOND / DAY
    {
      DaysInOrder(expiry, now);
    }
  }

  class NonceStore {
    var rows: Table

    /** What was done so far; the table and the successes are those of the run. */
    ghost var history: seq<Event>

    ghost predicate Valid()
      reads this
    {
      rows == Run(history).table
    }

    constructor ()
      ensures Valid() && history == []
    {
      rows, history := map[], [];
    }

    /** The insert fails on a value that is still stored. */
    method IssueNonce(value: string, now: Time) returns (ok: bool)
      requires Valid()
      modifies this
      ensures Valid() && history == old(history) + [Issue(value, now)]
      ensures ok <==> value !in old(rows)
      ensures rows == if ok then old(rows)[value := Expiry(now)] else old(rows)
      ensures Run(history).issued == Run(old(history)).issued + if ok then multiset{value} else multiset{}
    {
      RunAppends(history, Issue(value, now));
      history := history + [Issue(value, now)];
      if value in rows {
        return false;
      }
      rows := rows[value := Expiry(now)];
      return true;
    }

    /** Known or not, valid or expired, the value is gone afterwards. */
    method ConsumeNonce(value: string, now: Time) returns (ok: bool)
      requires Valid()
      modifies this
      ensures Valid() && history == old(history) + [Consume(value, now)]
      ensures ok <==> Accepts(old(rows), value, now)
      ensures rows == old(rows) - {value}
      ensures Run(history).accepted == Run(old(history)).accepted + if ok then multiset{value} else multiset{}
    {
      RunAppends(history, Consume(value, now));
      history := history + [Consume(value, now)];
      if value !in rows {
        return false;
      }
      var expiresAt := rows[value];
      rows := rows - {value};
      return now <= expiresAt * SECOND;
    }

    /** DELETE FROM nonces WHERE the database puts the expiry at or before now. */
    method DeleteWhere(now: Time, atOrPast: Comparison)
      modifies this`rows
      ensures forall n :: n in rows <==> n in old(rows) && !atOrPast(old(rows)[n], now)
      ensures forall n :: n in rows ==> rows[n] == old(rows)[n]
    {
      var todo := rows.Keys;
      while todo != {}
        invariant todo <= rows.Keys <= old(rows).Keys
        invariant forall n :: n in rows ==> rows[n] == old(rows)[n]
        invariant forall n :: n in old(rows) && n !in todo ==> (n in rows <==> !atOrPast(old(rows)[n], now))
        decreases |todo|
      {
        var n :| n in todo;
        if atOrPast(rows[n], now) {
          rows := rows - {n};
        }
        todo := todo - {n};
      }
    }

    method PruneExpiredNonces(now: Time, atOrPast: Comparison)
      requires Valid() && NeverEarly(atOrPast)
      modifies this
      ensures forall n :: n in rows <==> n in old(rows) && !atOrPast(old(rows)[n], now)
      ensures forall n :: n in rows ==> rows[n] == old(rows)[n]
      ensures Valid() && history == old(history) + [Prune(now, old(rows).Keys - rows.Keys)]
    {
      DeleteWhere(now, atOrPast);
      ghost var chosen := old(rows).Keys - rows.Keys;
      RunAppends(history, Prune(now, chosen));
      assert rows == Pruned(old(rows), now, chosen);
      history := history + [Prune(now, chosen)];
    }
  }

  lemma RunAppends(es: seq<Event>, e: Event)
    ensures Run(es + [e]) == Step(Run(es), e)
  {
    assert (es + [e])[..|es|] == es;
  }

  // ---------- what every run keeps ----------

  ghost predicate Ordered(es: seq<Event>) {
    forall i, j :: 0 <= i <= j < |es| ==> es[i].at <= es[j].at
  }

  /** Accepted consumes of a value, and its stored row if any, never exceed its issues. */
  lemma {:induction false} AcceptedAtMostIssued(es: seq<Event>, n: string)
    ensures Run(es).accepted[n] + (if n in Run(es).table then 1 else 0) <= Run(es).issued[n]
  {
    if es != [] { AcceptedAtMostIssued(es[..|es|-1], n); }
  }

  ghost predicate IssuedAt(es: seq<Event>, i: nat, n: string) {
    i < |es| && es[i].Issue? && es[i].value == n && n !in Run(es[..i]).table
  }

  /** After its issue at `i`, nothing consumed the value. */
  ghost predicate Unconsumed(es: seq<Event>, i: nat, n: string) {
    forall j :: i < j < |es| ==> !(es[j].Consume? && es[j].value == n)
  }

  lemma {:induction false} RowHasIssue(es: seq<Event>, n: string) returns (i: nat)
    requires n in Run(es).table
    ensures IssuedAt(es, i, n) && Unconsumed(es, i, n) && Run(es).table[n] == Expiry(es[i].at)
  {
    var k := |es| - 1;
    var before := es[..k];
    if es[k].Issue? && es[k].value == n && n !in Run(before).table {
      i := k;
    } else {
      i := RowHasIssue(before, n);
      assert es[..i] == before[..i];
      assert forall j :: i < j < k ==> es[j] == before[j];
    }
  }

  /** An accepted nonce was issued at most 600 seconds before, and not consumed since. */
  lemma AcceptedIsFresh(es: seq<Event>, n: string, now: Time) returns (i: nat)
    requires Accepts(Run(es).table, n, now)
    ensures IssuedAt(es, i, n) && Unconsumed(es, i, n) && now <= es[i].at + TTL
  {
    i := RowHasIssue(es, n);
    ExpiryBounds(es[i].at);
  }

  lemma RowKept(s: State, e: Event, n: string)
    requires n in s.table && !(e.Consume? && e.value == n) && e.at < s.table[n] * SECOND
    ensures n in Step(s, e).table && Step(s, e).table[n] == s.table[n]
  {
  }

  /** A row survives while no event is late enough to expire it or consumes it. */
  lemma {:induction false} RowSurvives(es: seq<Event>, i: nat, n: string, expiry: nat)
    requires IssuedAt(es, i, n) && Unconsumed(es, i, n) && expiry == Expiry(es[i].at)
    requires forall j :: 0 <= j < |es| ==> es[j].at < expiry * SECOND
    ensures n in Run(es).table && Run(es).table[n] == expiry
  {
    var k := |es| - 1;
    var before := es[..k];
    assert Run(es) == Step(Run(before), es[k]);
    if i < k {
      assert before[..i] == es[..i];
      assert forall j :: 0 <= j < k ==> before[j] == es[j];
      assert IssuedAt(before, i, n) && Unconsumed(before, i, n);
      RowSurvives(before, i, n, expiry);
      RowKept(Run(before), es[k], n);
    }
  }

  /** An unconsumed nonce younger than 599 seconds is accepted, whatever was pruned meanwhile. */
  lemma YoungIsAccepted(es: seq<Event>, i: nat, n: string, now: Time)
    requires Ordered(es) && IssuedAt(es, i, n) && Unconsumed(es, i, n)
    requires es[|es|-1].at <= now < es[i].at + 599 * SECOND
    ensures Accepts(Run(es).table, n, now)
  {
    ExpiryBounds(es[i].at);
    RowSurvives(es, i, n, Expiry(es[i].at));
  }

  // ---------- pruning is invisible ----------

  function WithoutPrunes(es: seq<Event>): seq<Event> {
    if es == [] then []
    else
      var last := es[|es|-1];
      WithoutPrunes(es[..|es|-1]) + if last.Prune? then [] else [last]
  }

  /** A random value is not issued twice. */
  ghost predicate FreshIssues(es: seq<Event>) {
    forall i, j :: 0 <= i < j < |es| && es[i].Issue? && es[j].Issue? ==> es[i].value != es[j].value
  }

  /** `t` is `u` without some rows that expired at or before `limit`. */
  ghost predicate PrunedUpTo(t: Table, u: Table, limit: Time) {
    && (forall n :: n in t ==> n in u && u[n] == t[n])
    && (forall n :: n in u && n !in t ==> u[n] * SECOND <= limit)
  }

  ghost predicate IssuedIn(es: seq<Event>, n: string) {
    exists i :: 0 <= i < |es| && es[i].Issue? && es[i].value == n
  }

  lemma {:induction false} StoredWasIssued(es: seq<Event>, n: string)
    requires n in Run(WithoutPrunes(es)).table
    ensures IssuedIn(es, n)
  {
    var k := |es| - 1;
    var before, last := es[..k], es[k];
    WithoutPrunesStep(es);
    if last.Issue? && last.value == n {
      assert es[k].Issue? && es[k].value == n;
    } else {
      StoredWasIssued(before, n);
      var i :| 0 <= i < |before| && before[i].Issue? && before[i].value == n;
      assert es[i].Issue? && es[i].value == n;
    }
  }

  lemma WithoutPrunesStep(es: seq<Event>)
    requires es != []
    ensures var before, last := es[..|es|-1], es[|es|-1];
      Run(WithoutPrunes(es)) == if last.Prune? then Run(WithoutPrunes(before)) else Step(Run(WithoutPrunes(before)), last)
  {
    var before, last := es[..|es|-1], es[|es|-1];
    if last.Prune? {
      assert WithoutPrunes(es) == WithoutPrunes(before);
    } else {
      var w := WithoutPrunes(es);
      assert w[..|w|-1] == WithoutPrunes(before) && w[|w|-1] == last;
    }
  }

  lemma LastIssueIsFresh(es: seq<Event>)
    requires es != [] && FreshIssues(es)
    ensures FreshIssues(es[..|es|-1])
    ensures es[|es|-1].Issue? ==> !IssuedIn(es[..|es|-1], es[|es|-1].value)
  {
  }

  lemma PrunedUpToStep(s: State, u: State, e: Event, limit: Time)
    requires PrunedUpTo(s.table, u.table, limit)
    requires e.Prune? ==> e.at <= limit
    requires e.Issue? ==> e.value !in u.table
    ensures PrunedUpTo(Step(s, e).table, if e.Prune? then u.table else Step(u, e).table, limit)
  {
  }

  lemma {:induction false} PrunesOnlyDropExpired(es: seq<Event>, limit: Time)
    requires FreshIssues(es) && forall i :: 0 <= i < |es| && es[i].Prune? ==> es[i].at <= limit
    ensures PrunedUpTo(Run(es).table, Run(WithoutPrunes(es)).table, limit)
  {
    if es != [] {
      var k := |es| - 1;
      var before, last := es[..k], es[k];
      PrunesOnlyDropExpired(before, limit);
      WithoutPrunesStep(es);
      LastIssueIsFresh(es);
      if last.Issue? && last.value in Run(WithoutPrunes(before)).table {
        StoredWasIssued(before, last.value);
      }
      PrunedUpToStep(Run(before), Run(WithoutPrunes(before)), last, limit);
    }
  }

  /** No consume strictly later than the prunes can tell whether they happened. */
  lemma PruningIsInvisibleLater(es: seq<Event>, n: string, now: Time)
    requires FreshIssues(es) && forall i :: 0 <= i < |es| && es[i].Prune? ==> es[i].at < now
    ensures Accepts(Run(es).table, n, now) <==> Accepts(Run(WithoutPrunes(es)).table, n, now)
  {
    if now > 0 { PrunesOnlyDropExpired(es, now - 1); } else { NoPrunes(es); }
  }

  lemma {:induction false} NoPrunes(es: seq<Event>)
    requires forall i :: 0 <= i < |es| ==> !es[i].Prune?
    ensures WithoutPrunes(es) == es
  {
    if es != [] {
      NoPrunes(es[..|es|-1]);
      assert es == es[..|es|-1] + [es[|es|-1]];
    }
  }

  /** A prune decides a later-or-equal consume exactly when it takes the row and both fall on the expiry instant. */
  lemma PruneMattersOnlyAtExpiry(t: Table, n: string, prunedAt: Time, chosen: set<string>, now: Time)
    requires prunedAt <= now
    ensures Accepts(Pruned(t, prunedAt, chosen), n, now) != Accepts(t, n, now) <==>
            n in t && n in chosen && t[n] * SECOND == prunedAt == now
  {
  }
}
