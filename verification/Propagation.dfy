/**
  Waiting until enough authoritative nameservers serve a TXT record.

  Each poll asks every nameserver once; a nameserver counts while its last
  `minConsecutive` answers were all correct, and the wait ends with a quorum of them.
*/
module Propagation {
  import opened Wrappers
  import opened Text
  import Delegation

  // ---------- the quorum ----------

  function Ceil(x: real): int {
    -((-x).Floor)
  }

  function ClampPercent(percent: int): int {
    if percent <= 0 || percent > 100 then 100 else percent
  }

  function QuorumRequirement(total: int, percent: int): int {
    if total <= 0 then 0 else Ceil((total as real) * (ClampPercent(percent) as real) / 100.0)
  }

  /** The least number of nameservers that is at least the percentage; never zero, never all plus one. */
  lemma QuorumRequirementIsLeast(total: int, percent: int)
    requires total > 0
    ensures var r := QuorumRequirement(total, percent);
      && 1 <= r <= total
      && forall k: int :: k >= r <==> 100 * k >= total * ClampPercent(percent)
    ensures 1 <= percent <= 100 ==> ClampPercent(percent) == percent
    ensures percent < 1 || percent > 100 ==> ClampPercent(percent) == 100
  {
    var p := ClampPercent(percent);
    var product := total * p;
    assert 1 <= product <= 100 * total;
    assert (total as real) * (p as real) == product as real;
    var r := Ceil(product as real / 100.0);
    assert 100.0 * (r as real - 1.0) < product as real <= 100.0 * (r as real);
    assert (100 * (r - 1)) as real < product as real <= (100 * r) as real;
  }

  // ---------- nameserver discovery ----------

  /** Byte-wise order, as the sort uses. */
  predicate Leq(a: string, b: string) {
    a == "" || (b != "" && (a[0] < b[0] || (a[0] == b[0] && Leq(a[1..], b[1..]))))
  }

  lemma {:induction false} LeqTotal(a: string, b: string)
    ensures Leq(a, b) || Leq(b, a)
  {
    if a != "" && b != "" { LeqTotal(a[1..], b[1..]); }
  }

  lemma {:induction false} LeqTransitive(a: string, b: string, c: string)
    requires Leq(a, b) && Leq(b, c)
    ensures Leq(a, c)
  {
    if a != "" && a[0] == b[0] == c[0] { LeqTransitive(a[1..], b[1..], c[1..]); }
  }

  lemma {:induction false} LeqAntisymmetric(a: string, b: string)
    requires Leq(a, b) && Leq(b, a)
    ensures a == b
  {
    if a != "" {
      LeqAntisymmetric(a[1..], b[1..]);
      assert a == [a[0]] + a[1..] && b == [b[0]] + b[1..];
    }
  }

  ghost predicate Sorted(s: seq<string>) {
    forall i, j :: 0 <= i <= j < |s| ==> Leq(s[i], s[j])
  }

  predicate Distinct(s: seq<string>) {
    forall i, j :: 0 <= i < j < |s| ==> s[i] != s[j]
  }

  function Insert(x: string, s: seq<string>): (r: seq<string>)
    ensures multiset(r) == multiset(s) + multiset{x}
  {
    if s == [] then [x]
    else
      assert s == [s[0]] + s[1..];
      if Leq(x, s[0]) then [x] + s else [s[0]] + Insert(x, s[1..])
  }

  function Sort(s: seq<string>): (r: seq<string>)
    ensures multiset(r) == multiset(s)
  {
    if s == [] then []
    else
      assert s == [s[0]] + s[1..];
      Insert(s[0], Sort(s[1..]))
  }

  lemma ConsSorted(x: string, s: seq<string>)
    requires Sorted(s) && forall y :: y in s ==> Leq(x, y)
    ensures Sorted([x] + s)
  {
    LeqTotal(x, x);
    var r := [x] + s;
    forall i, j | 0 <= i <= j < |r| ensures Leq(r[i], r[j]) {
      if 0 < i { assert Leq(s[i-1], s[j-1]); }
      else if 0 < j { assert s[j-1] in s; }
    }
  }

  lemma {:induction false} InsertSorted(x: string, s: seq<string>)
    requires Sorted(s)
    ensures Sorted(Insert(x, s))
  {
    if s == [] {
      ConsSorted(x, s);
      assert [x] + s == [x];
    } else if Leq(x, s[0]) {
      forall y | y in s ensures Leq(x, y) {
        var j :| 0 <= j < |s| && s[j] == y;
        LeqTransitive(x, s[0], y);
      }
      ConsSorted(x, s);
    } else {
      LeqTotal(x, s[0]);
      InsertSorted(x, s[1..]);
      forall y | y in Insert(x, s[1..]) ensures Leq(s[0], y) {
        assert y in multiset(Insert(x, s[1..]));
        assert y == x || y in multiset(s[1..]);
      }
      ConsSorted(s[0], Insert(x, s[1..]));
    }
  }

  lemma {:induction false} SortSorts(s: seq<string>)
    ensures Sorted(Sort(s))
  {
    if s != [] {
      SortSorts(s[1..]);
      InsertSorted(s[0], Sort(s[1..]));
    }
  }

  /** Drops every element equal to its left neighbour. */
  function Compact(s: seq<string>): seq<string> {
    if |s| <= 1 then s
    else if s[0] == s[1] then Compact(s[1..])
    else [s[0]] + Compact(s[1..])
  }

  /** On sorted input, compaction leaves each element exactly once. */
  lemma {:induction false} CompactSorted(s: seq<string>)
    requires Sorted(s)
    ensures Distinct(Compact(s))
    ensures forall x :: x in Compact(s) <==> x in s
  {
    if |s| > 1 {
      CompactSorted(s[1..]);
      if s[0] != s[1] && s[0] in s[1..] {
        var j :| 1 <= j < |s| && s[j] == s[0];
        LeqAntisymmetric(s[0], s[1]);
      }
    }
  }

  function NormalizedHosts(raw: seq<string>): seq<string> {
    if raw == [] then []
    else
      var host := Delegation.Normalize(raw[0]);
      (if host != "" then [host] else []) + NormalizedHosts(raw[1..])
  }

  lemma {:induction false} NormalizedHostsContent(raw: seq<string>, h: string)
    ensures h in NormalizedHosts(raw) <==> h != "" && exists x :: x in raw && Delegation.Normalize(x) == h
  {
    if raw != [] {
      NormalizedHostsContent(raw[1..], h);
      assert forall x :: x in raw <==> x == raw[0] || x in raw[1..];
    }
  }

  /** The NS answer for one name; None is an error. */
  type NsLookup = string -> Option<seq<string>>

  /** A name's labels from the `i`-th on, as a name. */
  function Suffix(labels: seq<string>, i: nat): string
    requires i < |labels|
  {
    Join(labels[i..], '.')
  }

  /** Joining some of the labels of a name and splitting again gives the labels back. */
  lemma {:induction false} JoinedLabelsSplit(labels: seq<string>)
    requires |labels| > 0 && forall l :: l in labels ==> '.' !in l
    ensures Split(Join(labels, '.'), '.') == labels
  {
    OneLabelSplits(labels[0]);
    if |labels| > 1 {
      JoinedLabelsSplit(labels[1..]);
      SplitConcat(labels[0], Join(labels[1..], '.'), '.');
      assert labels == [labels[0]] + labels[1..];
    }
  }

  lemma {:induction false} OneLabelSplits(s: string)
    requires '.' !in s
    ensures Split(s, '.') == [s]
  {
    if s != "" {
      OneLabelSplits(s[1..]);
      assert [s[0]] + s[1..] == s;
    }
  }

  lemma {:induction false} LabelsHaveNoDots(s: string, l: string)
    requires l in Split(s, '.')
    ensures '.' !in l
  {
    if s != "" {
      var rest := Split(s[1..], '.');
      if l in rest {
        LabelsHaveNoDots(s[1..], l);
      } else if s[0] != '.' {
        LabelsHaveNoDots(s[1..], rest[0]);
      }
    }
  }

  /** The i-th name that is asked for: the name without its first i labels. */
  lemma SuffixIsEnclosingName(fqdn: string, i: nat)
    requires i < |LabelsOf(fqdn)|
    ensures Split(Suffix(LabelsOf(fqdn), i), '.') == LabelsOf(fqdn)[i..]
    ensures i == 0 ==> Suffix(LabelsOf(fqdn), i) == Delegation.Normalize(fqdn)
    ensures i > 0 ==> Delegation.Normalize(fqdn) == Join(LabelsOf(fqdn)[..i], '.') + ['.'] + Suffix(LabelsOf(fqdn), i)
  {
    var name, labels := Delegation.Normalize(fqdn), LabelsOf(fqdn);
    forall l | l in labels[i..] ensures '.' !in l { LabelsHaveNoDots(name, l); }
    JoinedLabelsSplit(labels[i..]);
    JoinSplit(name, '.');
    assert labels[0..] == labels && labels[..i] + labels[i..] == labels;
    if i > 0 { JoinConcat(labels[..i], labels[i..], '.'); }
  }

  function HostsAt(lookup: NsLookup, candidate: string): seq<string> {
    var nss := lookup(candidate);
    if nss.None? then [] else Compact(Sort(NormalizedHosts(nss.value)))
  }

  /** The closest enclosing name, never a single label, whose NS answer yields a host. */
  ghost predicate ZoneCut(lookup: NsLookup, labels: seq<string>, i: nat) {
    && i < |labels| - 1 && HostsAt(lookup, Suffix(labels, i)) != []
    && forall j: nat :: j < i ==> HostsAt(lookup, Suffix(labels, j)) == []
  }

  function LabelsOf(fqdn: string): seq<string> {
    Split(Delegation.Normalize(fqdn), '.')
  }

  lemma HostsAtDistinct(lookup: NsLookup, candidate: string)
    ensures Distinct(HostsAt(lookup, candidate))
    ensures forall h :: h in HostsAt(lookup, candidate) <==>
      h != "" && lookup(candidate).Some? && exists x :: x in lookup(candidate).value && Delegation.Normalize(x) == h
  {
    var nss := lookup(candidate);
    if nss.Some? {
      var hosts := NormalizedHosts(nss.value);
      SortSorts(hosts);
      CompactSorted(Sort(hosts));
      forall h ensures h in Sort(hosts) <==> h in hosts {
        assert h in Sort(hosts) <==> h in multiset(Sort(hosts));
        assert h in hosts <==> h in multiset(hosts);
      }
      forall h ensures h in hosts <==> h != "" && exists x :: x in nss.value && Delegation.Normalize(x) == h {
        NormalizedHostsContent(nss.value, h);
      }
    }
  }

  method ClosestNameservers(lookup: NsLookup, labels: seq<string>) returns (hosts: seq<string>)
    requires |labels| > 0
    ensures Distinct(hosts)
    ensures hosts != [] ==> exists i: nat :: (ZoneCut(lookup, labels, i) && hosts == HostsAt(lookup, Suffix(labels, i)))
    ensures hosts == [] ==> forall i :: !ZoneCut(lookup, labels, i)
  {
    for i := 0 to |labels| - 1
      invariant forall j: nat :: j < i ==> HostsAt(lookup, Suffix(labels, j)) == []
    {
      hosts := HostsAt(lookup, Suffix(labels, i));
      HostsAtDistinct(lookup, Suffix(labels, i));
      if hosts != [] {
        assert ZoneCut(lookup, labels, i);
        return;
      }
    }
    return [];
  }

  method AuthoritativeNameservers(lookup: NsLookup, fqdn: string) returns (hosts: seq<string>)
    ensures Distinct(hosts)
    ensures hosts != [] ==>
      exists i: nat :: (ZoneCut(lookup, LabelsOf(fqdn), i) && hosts == HostsAt(lookup, Suffix(LabelsOf(fqdn), i)))
    ensures hosts == [] ==> Delegation.Normalize(fqdn) == "" || forall i :: !ZoneCut(lookup, LabelsOf(fqdn), i)
  {
    if Delegation.Normalize(fqdn) == "" {
      return [];
    }
    hosts := ClosestNameservers(lookup, LabelsOf(fqdn));
  }

  // ---------- the wait ----------

  datatype Answer = Correct | Wrong | Error

  /** What nameserver `ns` answers in poll `poll`. */
  type Answers = (nat, string) -> Answer

  /** The nameserver's last `m` answers, up to and including poll `p`, were all correct. */
  ghost predicate Streak(answers: Answers, ns: string, p: nat, m: nat) {
    m <= p + 1 && forall q: nat :: p + 1 - m <= q <= p ==> answers(q, ns) == Correct
  }

  ghost function StableAt(hosts: seq<string>, answers: Answers, p: nat, m: nat): set<string> {
    set ns | ns in hosts && Streak(answers, ns, p, m)
  }

  function Required(hosts: seq<string>, percent: int): int {
    var r := QuorumRequirement(|hosts|, percent);
    if r < 1 then 1 else r
  }

  ghost predicate QuorumAt(hosts: seq<string>, answers: Answers, m: nat, percent: int, p: nat) {
    |StableAt(hosts, answers, p, m)| >= Required(hosts, percent)
  }

  datatype Outcome = Quorum(poll: nat) | TimedOut | Cancelled

  /** No poll before `p` ended the wait. */
  ghost predicate StillWaiting(hosts: seq<string>, answers: Answers, m: nat, percent: int, cancelled: nat -> bool, p: nat) {
    forall q: nat :: q < p ==> !QuorumAt(hosts, answers, m, percent, q) && !cancelled(q)
  }

  /** `polls` polls start before the deadline; `cancelled(q)` says the pause after poll q is cut short. */
  ghost predicate Ends(hosts: seq<string>, answers: Answers, m: nat, percent: int, cancelled: nat -> bool, polls: nat, r: Outcome) {
    match r
    case Quorum(p) =>
      p < polls && QuorumAt(hosts, answers, m, percent, p) && StillWaiting(hosts, answers, m, percent, cancelled, p)
    case Cancelled =>
      exists p: nat :: p < polls && cancelled(p) && !QuorumAt(hosts, answers, m, percent, p) &&
        StillWaiting(hosts, answers, m, percent, cancelled, p)
    case TimedOut => StillWaiting(hosts, answers, m, percent, cancelled, polls)
  }

  /** The counter the code keeps: consecutive correct answers in the first `n` polls. */
  ghost function Counter(answers: Answers, ns: string, n: nat): nat {
    if n == 0 || answers(n - 1, ns) != Correct then 0 else Counter(answers, ns, n - 1) + 1
  }

  lemma {:induction false} CounterIsStreak(answers: Answers, ns: string, p: nat, m: nat)
    requires m > 0
    ensures Counter(answers, ns, p + 1) >= m <==> Streak(answers, ns, p, m)
  {
    if answers(p, ns) == Correct && m > 1 {
      if p > 0 {
        CounterIsStreak(answers, ns, p - 1, m - 1);
        if Streak(answers, ns, p, m) {
          assert Streak(answers, ns, p - 1, m - 1);
        }
        if Streak(answers, ns, p - 1, m - 1) {
          forall q: nat | p + 1 - m <= q <= p ensures answers(q, ns) == Correct { }
        }
      }
    }
  }

  function Get(counts: map<string, int>, ns: string): int {
    if ns in counts then counts[ns] else 0
  }

  /** One poll of every nameserver, updating the counters and counting the stable ones. */
  method PollAll(hosts: seq<string>, answers: Answers, p: nat, m: nat, counts: map<string, int>)
    returns (counts': map<string, int>, stable: nat)
    requires Distinct(hosts) && m > 0
    requires forall ns :: ns in hosts ==> Get(counts, ns) == Counter(answers, ns, p)
    ensures forall ns :: ns in hosts ==> Get(counts', ns) == Counter(answers, ns, p + 1)
    ensures stable == |StableAt(hosts, answers, p, m)|
  {
    counts', stable := counts, 0;
    for k := 0 to |hosts|
      invariant forall i :: 0 <= i < k ==> Get(counts', hosts[i]) == Counter(answers, hosts[i], p + 1)
      invariant forall i :: k <= i < |hosts| ==> Get(counts', hosts[i]) == Counter(answers, hosts[i], p)
      invariant stable == |StableAt(hosts[..k], answers, p, m)|
    {
      var ns := hosts[k];
      CounterIsStreak(answers, ns, p, m);
      StableGrows(hosts, k, answers, p, m);
      var answer := answers(p, ns);
      if answer.Error? {
        counts' := counts'[ns := 0];
        continue;
      }
      counts' := counts'[ns := if answer.Correct? then Get(counts', ns) + 1 else 0];
      if counts'[ns] >= m {
        stable := stable + 1;
      }
    }
    assert hosts[..|hosts|] == hosts;
  }

  lemma StableGrows(hosts: seq<string>, k: nat, answers: Answers, p: nat, m: nat)
    requires Distinct(hosts) && k < |hosts|
    ensures |StableAt(hosts[..k+1], answers, p, m)| ==
            |StableAt(hosts[..k], answers, p, m)| + if Streak(answers, hosts[k], p, m) then 1 else 0
  {
    var before, after := StableAt(hosts[..k], answers, p, m), StableAt(hosts[..k+1], answers, p, m);
    assert hosts[..k+1] == hosts[..k] + [hosts[k]];
    assert hosts[k] !in hosts[..k];
    if Streak(answers, hosts[k], p, m) {
      assert after == before + {hosts[k]};
    } else {
      assert after == before;
    }
  }

  /** The wait ends at the first poll with a quorum, or is cancelled, or times out, and says which. */
  method WaitForQuorum(hosts: seq<string>, answers: Answers, m: nat, percent: int, cancelled: nat -> bool, polls: nat)
    returns (r: Outcome)
    requires Distinct(hosts) && m > 0
    ensures Ends(hosts, answers, m, percent, cancelled, polls, r)
  {
    var required := Required(hosts, percent);
    var counts: map<string, int> := map[];
    var p := 0;
    while p < polls
      invariant p <= polls
      invariant forall ns :: ns in hosts ==> Get(counts, ns) == Counter(answers, ns, p)
      invariant StillWaiting(hosts, answers, m, percent, cancelled, p)
    {
      var stable;
      counts, stable := PollAll(hosts, answers, p, m, counts);
      if stable >= required {
        return Quorum(p);
      }
      if cancelled(p) {
        return Cancelled;
      }
      p := p + 1;
    }
    return TimedOut;
  }

  /** Disabled, no hosts found, how the polls ended, or a settling delay after the quorum that was cut short. */
  datatype Wait = Skipped | NoNameservers | Ended(outcome: Outcome) | SettleCancelled(poll: nat)

  /** The zone cut of a name whose hosts the wait polled. */
  ghost predicate PollsEnd(lookup: NsLookup, labels: seq<string>, answers: Answers, m: nat, percent: int,
                           cancelled: nat -> bool, polls: nat, r: Outcome) {
    exists i: nat :: ZoneCut(lookup, labels, i) && Ends(HostsAt(lookup, Suffix(labels, i)), answers, m, percent, cancelled, polls, r)
  }

  /**
    The whole wait.  `settleCut` says that a settling delay is configured and that a
    cancellation interrupts it; it matters only after a quorum.
  */
  method WaitForDNSPropagation(enabled: bool, lookup: NsLookup, fqdn: string, answers: Answers, m: nat, percent: int,
                               cancelled: nat -> bool, polls: nat, settleCut: bool) returns (r: Wait)
    requires m > 0
    ensures r.Skipped? <==> !enabled
    ensures var labels := LabelsOf(fqdn);
      match r
      case Skipped => true
      case NoNameservers => Delegation.Normalize(fqdn) == "" || forall i :: !ZoneCut(lookup, labels, i)
      case Ended(outcome) => PollsEnd(lookup, labels, answers, m, percent, cancelled, polls, outcome) && (outcome.Quorum? ==> !settleCut)
      case SettleCancelled(p) => PollsEnd(lookup, labels, answers, m, percent, cancelled, polls, Quorum(p)) && settleCut
  {
    if !enabled {
      return Skipped;
    }
    var hosts := AuthoritativeNameservers(lookup, fqdn);
    if hosts == [] {
      return NoNameservers;
    }
    var outcome := WaitForQuorum(hosts, answers, m, percent, cancelled, polls);
    if outcome.Quorum? && settleCut {
      return SettleCancelled(outcome.poll);
    }
    return Ended(outcome);
  }

  /** The end of a wait is determined by the answers, the cancellations and the deadline. */
  lemma EndIsUnique(hosts: seq<string>, answers: Answers, m: nat, percent: int, cancelled: nat -> bool, polls: nat,
                    r: Outcome, q: Outcome)
    requires Ends(hosts, answers, m, percent, cancelled, polls, r)
    requires Ends(hosts, answers, m, percent, cancelled, polls, q)
    ensures r == q
  {
    var i := EndPoll(hosts, answers, m, percent, cancelled, polls, r);
    var j := EndPoll(hosts, answers, m, percent, cancelled, polls, q);
    assert i == j;
  }

  lemma EndPoll(hosts: seq<string>, answers: Answers, m: nat, percent: int, cancelled: nat -> bool, polls: nat, r: Outcome)
    returns (p: nat)
    requires Ends(hosts, answers, m, percent, cancelled, polls, r)
    ensures p <= polls && StillWaiting(hosts, answers, m, percent, cancelled, p)
    ensures r.TimedOut? <==> p == polls
    ensures r.Quorum? ==> r.poll == p && QuorumAt(hosts, answers, m, percent, p)
    ensures r.Cancelled? ==> cancelled(p) && !QuorumAt(hosts, answers, m, percent, p)
  {
    match r
    case Quorum(poll) => p := poll;
    case TimedOut => p := polls;
    case Cancelled =>
      p :| p < polls && cancelled(p) && !QuorumAt(hosts, answers, m, percent, p) &&
        StillWaiting(hosts, answers, m, percent, cancelled, p);
  }

  /** A quorum means the configured share of distinct nameservers answered `m` polls in a row. */
  lemma QuorumIsSound(hosts: seq<string>, answers: Answers, m: nat, percent: int, cancelled: nat -> bool, polls: nat, p: nat)
    requires hosts != []
    requires Ends(hosts, answers, m, percent, cancelled, polls, Quorum(p))
    ensures exists good: set<string> ::
      && 100 * |good| >= |hosts| * ClampPercent(percent)
      && forall ns :: ns in good ==> ns in hosts && Streak(answers, ns, p, m)
  {
    QuorumRequirementIsLeast(|hosts|, percent);
    var good := StableAt(hosts, answers, p, m);
    assert 100 * |good| >= |hosts| * ClampPercent(percent);
  }

  /**
    If enough nameservers answer correctly from poll `k` on, the wait reaches its quorum by
    poll k + m - 1, unless the deadline or a cancellation comes first.
  */
  lemma SteadyAnswersReachQuorum(hosts: seq<string>, answers: Answers, m: nat, percent: int, cancelled: nat -> bool,
                                 polls: nat, r: Outcome, good: set<string>, k: nat)
    requires hosts != [] && m > 0
    requires Ends(hosts, answers, m, percent, cancelled, polls, r)
    requires 100 * |good| >= |hosts| * ClampPercent(percent)
    requires forall ns :: ns in good ==> ns in hosts
    requires forall ns, q: nat :: ns in good && q >= k ==> answers(q, ns) == Correct
    requires k + m <= polls && forall q: nat :: q < k + m - 1 ==> !cancelled(q)
    ensures r.Quorum? && r.poll <= k + m - 1
  {
    var p := k + m - 1;
    QuorumRequirementIsLeast(|hosts|, percent);
    var stable := StableAt(hosts, answers, p, m);
    forall ns | ns in good ensures ns in stable { }
    Subset(good, stable);
    assert QuorumAt(hosts, answers, m, percent, p);
    var e := EndPoll(hosts, answers, m, percent, cancelled, polls, r);
    assert e <= p;
  }

  lemma {:induction false} Subset<T>(a: set<T>, b: set<T>)
    requires a <= b
    ensures |a| <= |b|
  {
    assert b == a + (b - a);
  }

  // ---------- why the hosts must be distinct ----------

  /** The counters after one poll in which every listed nameserver answers correctly. */
  function CountAll(hosts: seq<string>, counts: map<string, int>): map<string, int> {
    if hosts == [] then counts
    else CountAll(hosts[1..], counts[hosts[0] := Get(counts, hosts[0]) + 1])
  }

  function CountPolls(hosts: seq<string>, n: nat): map<string, int> {
    if n == 0 then map[] else CountAll(hosts, CountPolls(hosts, n - 1))
  }

  lemma {:induction false} CountAllAddsOccurrences(hosts: seq<string>, counts: map<string, int>, ns: string)
    ensures Get(CountAll(hosts, counts), ns) == Get(counts, ns) + multiset(hosts)[ns]
  {
    if hosts != [] {
      assert hosts == [hosts[0]] + hosts[1..];
      CountAllAddsOccurrences(hosts[1..], counts[hosts[0] := Get(counts, hosts[0]) + 1], ns);
    }
  }

  /** A counter counts polls times occurrences, so it counts polls exactly when the host is listed once. */
  lemma {:induction false} CounterCountsPollsWhenListedOnce(hosts: seq<string>, n: nat, ns: string)
    requires n > 0
    ensures Get(CountPolls(hosts, n), ns) == n * multiset(hosts)[ns]
    ensures Get(CountPolls(hosts, n), ns) == n <==> multiset(hosts)[ns] == 1
  {
    CountAllAddsOccurrences(hosts, CountPolls(hosts, n - 1), ns);
    if n > 1 { CounterCountsPollsWhenListedOnce(hosts, n - 1, ns); }
  }
}
