/**
  Where a dns-01 record is written: the bounded CNAME chase, and the policy that
  restricts a delegated name to the configured zones.
*/
module Delegation {
  import opened Wrappers
  import opened Text

  /** At most one trailing dot goes, so "a.." becomes "a.": not idempotent. */
  function Normalize(s: string): string {
    TrimSpace(ToLower(TrimSuffix(s, ".")))
  }

  lemma NormalizeNotIdempotent()
    ensures Normalize("a..") == "a." && Normalize("a.") == "a"
  {
    assert TrimSuffix("a..", ".") == "a." && TrimSuffix("a.", ".") == "a";
    assert ToLower("a.") == "a." && ToLower("a") == "a";
  }

  ghost predicate IsLower(s: string) {
    forall c :: c in s ==> LowerChar(c) == c
  }

  lemma {:induction false} TrimSpaceWithin(s: string, c: char)
    requires c in TrimSpace(s)
    ensures c in s
  {
    if s != "" && IsSpace(s[0]) {
      TrimSpaceWithin(s[1..], c);
    } else {
      TrimRightEnds(s);
    }
  }

  lemma LowerEndsInDot(r: string)
    ensures HasSuffix(ToLower(r), ".") <==> HasSuffix(r, ".")
  {
    if r != "" {
      assert ToLower(r)[|r|-1] == LowerChar(r[|r|-1]);
    }
  }

  lemma TrimmedEndsInDot(t: string)
    ensures HasSuffix(TrimSpace(ToLower(t)), ".") <==> HasSuffix(TrimRight(t), ".")
  {
    TrimSpaceEndsAsTrimRight(ToLower(t), '.');
    TrimRightOfLower(t);
    LowerEndsInDot(TrimRight(t));
  }

  /** A normal form ends in a dot exactly when the name does, less one dot and then less white space. */
  lemma NormalizeEndsInDot(s: string)
    ensures HasSuffix(Normalize(s), ".") <==> HasSuffix(TrimRight(TrimSuffix(s, ".")), ".")
  {
    TrimmedEndsInDot(TrimSuffix(s, "."));
  }

  lemma NormalizeOfUndotted(n: string)
    requires !HasSuffix(n, ".") && IsLower(n) && TrimSpace(n) == n
    ensures Normalize(n) == n
  {
    assert ToLower(n) == n;
  }

  /**
    Normalizing twice is normalizing once exactly when the name, less one trailing dot and
    then less trailing white space, does not end in a dot.
  */
  lemma NormalizeIdempotentExactly(s: string)
    ensures Normalize(Normalize(s)) == Normalize(s) <==> !HasSuffix(TrimRight(TrimSuffix(s, ".")), ".")
  {
    var t, n := ToLower(TrimSuffix(s, ".")), Normalize(s);
    NormalizeEndsInDot(s);
    if HasSuffix(n, ".") {
      TrimSpaceTwice(ToLower(TrimSuffix(n, ".")));
      assert |Normalize(n)| < |n|;
    } else {
      TrimSpaceTwice(t);
      forall c | c in n ensures LowerChar(c) == c { TrimSpaceWithin(t, c); }
      NormalizeOfUndotted(n);
    }
  }

  /** A name as it is meant: lower case, no white space, no dot at its end. */
  predicate IsPlainName(s: string) {
    s != "" && s[|s|-1] != '.' && forall c :: c in s ==> !IsSpace(c) && LowerChar(c) == c
  }

  /** A plain name is normal, with or without one trailing dot. */
  lemma PlainNameIsNormal(s: string)
    requires IsPlainName(s)
    ensures Normalize(s) == s && Normalize(s + ".") == s && TrimSpace(s) == s && TrimSpace(s + ".") == s + "."
  {
    assert s[0] in s && s[|s|-1] in s;
    assert !HasSuffix(s, ".") && HasSuffix(s + ".", ".");
    assert (s + ".")[..|s|] == s;
    assert ToLower(s) == s;
    TrimIdle(s);
    TrimIdle(s + ".");
  }

  lemma {:induction false} TrimmedIsWithin(s: string)
    ensures IsLower(s) ==> IsLower(TrimSpace(s))
  {
    forall c | IsLower(s) && c in TrimSpace(s) ensures LowerChar(c) == c { TrimSpaceWithin(s, c); }
  }

  lemma LowerIsLower(s: string)
    ensures IsLower(ToLower(s))
  {
    forall c | c in ToLower(s) ensures LowerChar(c) == c {
      var i :| 0 <= i < |s| && ToLower(s)[i] == c;
      assert c == LowerChar(s[i]);
    }
  }

  /** Names that differ in case only have one normal form, and it has no capital letters. */
  lemma NormalizeIgnoresCase(s: string, t: string)
    requires EqualFold(s, t)
    ensures Normalize(s) == Normalize(t) && IsLower(Normalize(s))
  {
    assert |ToLower(s)| == |s| && |ToLower(t)| == |t|;
    assert forall i :: 0 <= i < |s| ==> LowerChar(s[i]) == ToLower(s)[i] == ToLower(t)[i] == LowerChar(t[i]);
    assert HasSuffix(s, ".") <==> HasSuffix(t, ".");
    assert ToLower(TrimSuffix(s, ".")) == ToLower(TrimSuffix(t, "."));
    LowerIsLower(TrimSuffix(s, "."));
    TrimmedIsWithin(ToLower(TrimSuffix(s, ".")));
  }

  /** A plain name in whatever case, with or without a trailing dot, is normalized to it. */
  lemma NormalizeOfSpelling(s: string, name: string)
    requires IsPlainName(name) && (EqualFold(s, name) || EqualFold(s, name + "."))
    ensures Normalize(s) == name
  {
    PlainNameIsNormal(name);
    NormalizeIgnoresCase(s, if EqualFold(s, name) then name else name + ".");
  }

  // ---------- the CNAME chase ----------

  /** What the resolver says about one name. */
  datatype Answer = NotFound | Failure | Canonical(name: string)

  /** One hop: the name ends the chain, the lookup broke, or the chain goes on. */
  datatype Hop = End | Broken | To(next: string)

  function HopFrom(lookup: string -> Answer, name: string): Hop {
    match lookup(name)
    case NotFound => End
    case Failure => Broken
    case Canonical(raw) =>
      var cname := Normalize(raw);
      if cname == "" || Normalize(cname) == name then End else To(Normalize(cname))
  }

  function Hops(lookup: string -> Answer): string -> Hop {
    name => HopFrom(lookup, name)
  }

  /** The unbounded chain: the name `k` hops after `start`, if there is one. */
  ghost function Chain(hop: string -> Hop, start: string, k: nat): Option<string> {
    if k == 0 then Some(start)
    else
      var before := Chain(hop, start, k - 1);
      if before.Some? && hop(before.value).To?
      then Some(hop(before.value).next)
      else None
  }

  datatype Chase = EmptySource | Found(name: string, delegated: bool) | Loop | LookupFailed | TooDeep

  const MAX_DEPTH := 10

  ghost predicate EndsAt(hop: string -> Hop, start: string, k: nat, name: string) {
    Chain(hop, start, k) == Some(name) && hop(name).End?
  }

  ghost predicate BreaksAt(hop: string -> Hop, start: string, k: nat) {
    var n := Chain(hop, start, k);
    n.Some? && hop(n.value).Broken?
  }

  ghost predicate Recurs(hop: string -> Hop, start: string, j: nat, k: nat) {
    Chain(hop, start, k).Some? && Chain(hop, start, j) == Chain(hop, start, k)
  }

  /** What each outcome says about the unbounded chain. */
  ghost predicate Describes(hop: string -> Hop, start: string, r: Chase) {
    match r
    case EmptySource => start == ""
    case Found(name, delegated) =>
      start != "" && exists k: nat :: k < MAX_DEPTH && EndsAt(hop, start, k, name) && delegated == (k > 0)
    case Loop => start != "" && exists j: nat, k: nat :: j < k < MAX_DEPTH && Recurs(hop, start, j, k)
    case LookupFailed => start != "" && exists k: nat :: k < MAX_DEPTH && BreaksAt(hop, start, k)
    case TooDeep =>
      && start != "" && Chain(hop, start, MAX_DEPTH).Some?
      && forall j: nat, k: nat :: j < k < MAX_DEPTH ==> !Recurs(hop, start, j, k)
  }

  lemma {:induction false} ChainPrefix(hop: string -> Hop, start: string, j: nat, k: nat)
    requires j <= k && Chain(hop, start, k).Some?
    ensures Chain(hop, start, j).Some?
    ensures j < k ==> hop(Chain(hop, start, j).value).To?
  {
    if j < k {
      if j < k - 1 { ChainPrefix(hop, start, j, k - 1); }
    }
  }

  lemma {:induction false} ChainPeriodic(hop: string -> Hop, start: string, j: nat, k: nat, d: nat)
    requires Chain(hop, start, j) == Chain(hop, start, k)
    ensures Chain(hop, start, j + d) == Chain(hop, start, k + d)
  {
    if d > 0 {
      ChainPeriodic(hop, start, j, k, d - 1);
    }
  }

  /** A chain that repeats a name goes on for ever. */
  lemma RecurrenceNeverStops(hop: string -> Hop, start: string, j: nat, k: nat, m: nat)
    requires j < k && Recurs(hop, start, j, k)
    requires Chain(hop, start, m).Some?
    ensures hop(Chain(hop, start, m).value).To?
  {
    if m < k {
      ChainPrefix(hop, start, m, k);
    } else {
      ChainPeriodic(hop, start, j, k, m - k);
      ChainPrefix(hop, start, j + (m - k), m);
    }
  }

  /** A chain that ends or breaks at `k` has no name after it. */
  lemma StopsOnce(hop: string -> Hop, start: string, k: nat, m: nat)
    requires Chain(hop, start, k).Some? && !hop(Chain(hop, start, k).value).To?
    requires Chain(hop, start, m).Some?
    ensures m <= k
  {
    if m > k { ChainPrefix(hop, start, k, m); }
  }

  /** The outcomes exclude one another: at most one describes a chain. */
  lemma DescriptionUnique(hop: string -> Hop, start: string, r: Chase, q: Chase)
    requires Describes(hop, start, r) && Describes(hop, start, q)
    ensures r == q
  {
    if start == "" { return; }
    if r.Loop? != q.Loop? {
      LoopExcludes(hop, start, if r.Loop? then q else r);
    } else if !r.Loop? {
      var k := StopIndex(hop, start, r);
      var m := StopIndex(hop, start, q);
      if k < MAX_DEPTH { StopsOnce(hop, start, k, m); }
      if m < MAX_DEPTH { StopsOnce(hop, start, m, k); }
    }
  }

  lemma LoopExcludes(hop: string -> Hop, start: string, q: Chase)
    requires start != "" && Describes(hop, start, Loop) && !q.Loop?
    ensures !Describes(hop, start, q)
  {
    var j: nat, k: nat :| j < k < MAX_DEPTH && Recurs(hop, start, j, k);
    if Describes(hop, start, q) && !q.TooDeep? {
      var m := StopIndex(hop, start, q);
      RecurrenceNeverStops(hop, start, j, k, m);
    }
  }

  /** Where the chase of a chain that does not loop stops. */
  lemma StopIndex(hop: string -> Hop, start: string, r: Chase) returns (k: nat)
    requires start != "" && Describes(hop, start, r) && !r.Loop?
    ensures Chain(hop, start, k).Some? && k <= MAX_DEPTH
    ensures r.TooDeep? <==> k == MAX_DEPTH
    ensures var name := Chain(hop, start, k).value;
      && (r.Found? ==> r.name == name && r.delegated == (k > 0) && hop(name).End?)
      && (r.LookupFailed? ==> hop(name).Broken?)
  {
    match r
    case Found(name, delegated) =>
      k :| k < MAX_DEPTH && EndsAt(hop, start, k, name) && delegated == (k > 0);
    case LookupFailed =>
      k :| k < MAX_DEPTH && BreaksAt(hop, start, k);
    case TooDeep =>
      k := MAX_DEPTH;
  }

  /** The first names of the chain, all different, are the ones seen. */
  ghost predicate Visited(hop: string -> Hop, start: string, names: seq<string>, seen: set<string>) {
    && (forall i: nat :: i < |names| ==> Chain(hop, start, i) == Some(names[i]))
    && (forall i, j :: 0 <= i < j < |names| ==> names[i] != names[j])
    && (forall n :: n in seen <==> n in names)
  }

  method ChaseFrom(hop: string -> Hop, start: string) returns (r: Chase)
    requires start != ""
    ensures Describes(hop, start, r)
  {
    var current := start;
    var seen: set<string> := {};
    ghost var names: seq<string> := [];
    var depth := 0;
    while depth < MAX_DEPTH
      invariant 0 <= depth <= MAX_DEPTH && |names| == depth
      invariant Chain(hop, start, depth) == Some(current)
      invariant Visited(hop, start, names, seen)
    {
      if current in seen {
        ghost var i :| 0 <= i < depth && names[i] == current;
        assert Recurs(hop, start, i, depth);
        return Loop;
      }
      seen := seen + {current};
      names := names + [current];
      var step := hop(current);
      if step.End? {
        assert EndsAt(hop, start, depth, current);
        return Found(current, depth > 0);
      }
      if step.Broken? {
        assert BreaksAt(hop, start, depth);
        return LookupFailed;
      }
      current := step.next;
      depth := depth + 1;
    }
    return TooDeep;
  }

  // ---------- what the resolver's answers mean ----------

  /** The resolver names a canonical name other than `name` itself, and `next` is that name, normalized. */
  ghost predicate LeadsTo(lookup: string -> Answer, name: string, next: string) {
    && lookup(name).Canonical? && Normalize(lookup(name).name) != ""
    && Normalize(Normalize(lookup(name).name)) == next && next != name
  }

  /** The name is not found, or canonical, or its canonical name is empty. */
  ghost predicate IsTerminal(lookup: string -> Answer, name: string) {
    || lookup(name) == NotFound
    || (lookup(name).Canonical? && (Normalize(lookup(name).name) == "" || Normalize(Normalize(lookup(name).name)) == name))
  }

  /** The names visited, each the canonical name of the one before. */
  ghost predicate IsWalk(lookup: string -> Answer, start: string, names: seq<string>) {
    && |names| > 0 && names[0] == start
    && forall i :: 0 <= i < |names| - 1 ==> LeadsTo(lookup, names[i], names[i+1])
  }

  /** Each outcome, as a walk along the resolver's answers. */
  ghost predicate Reports(lookup: string -> Answer, start: string, r: Chase) {
    match r
    case EmptySource => start == ""
    case Found(name, delegated) =>
      start != "" && exists names :: (
        && IsWalk(lookup, start, names) && |names| <= 10
        && names[|names|-1] == name && IsTerminal(lookup, name) && delegated == (|names| > 1))
    case LookupFailed =>
      start != "" && exists names :: IsWalk(lookup, start, names) && |names| <= 10 && lookup(names[|names|-1]) == Failure
    case Loop =>
      start != "" && exists names :: IsWalk(lookup, start, names) && |names| <= 10 && names[|names|-1] in names[..|names|-1]
    case TooDeep =>
      start != "" && exists names :: (
        && IsWalk(lookup, start, names) && |names| == 11
        && forall j, k :: 0 <= j < k < 10 ==> names[j] != names[k])
  }

  lemma HopReadsAnswer(lookup: string -> Answer, name: string)
    ensures forall next :: HopFrom(lookup, name) == To(next) <==> LeadsTo(lookup, name, next)
    ensures HopFrom(lookup, name).End? <==> IsTerminal(lookup, name)
    ensures HopFrom(lookup, name).Broken? <==> lookup(name) == Failure
  {
  }

  lemma {:induction false} WalkIsChain(lookup: string -> Answer, start: string, names: seq<string>, k: nat)
    requires IsWalk(lookup, start, names) && k < |names|
    ensures Chain(Hops(lookup), start, k) == Some(names[k])
  {
    if k > 0 {
      WalkIsChain(lookup, start, names, k - 1);
      HopReadsAnswer(lookup, names[k-1]);
      assert LeadsTo(lookup, names[k-1], names[k-1+1]);
    }
  }

  lemma WalkOn(lookup: string -> Answer, start: string, names: seq<string>, next: string)
    requires IsWalk(lookup, start, names) && LeadsTo(lookup, names[|names|-1], next)
    ensures IsWalk(lookup, start, names + [next])
  {
    var longer := names + [next];
    forall i | 0 <= i < |longer| - 1 ensures LeadsTo(lookup, longer[i], longer[i+1]) {
      if i < |names| - 1 { assert LeadsTo(lookup, names[i], names[i+1]); }
    }
  }

  lemma {:induction false} ChainIsWalk(lookup: string -> Answer, start: string, k: nat) returns (names: seq<string>)
    requires Chain(Hops(lookup), start, k).Some?
    ensures IsWalk(lookup, start, names) && |names| == k + 1
    ensures forall i: nat :: i <= k ==> Chain(Hops(lookup), start, i) == Some(names[i])
  {
    if k == 0 {
      names := [start];
    } else {
      var before := ChainIsWalk(lookup, start, k - 1);
      var last := Chain(Hops(lookup), start, k).value;
      HopReadsAnswer(lookup, before[k-1]);
      WalkOn(lookup, start, before, last);
      names := before + [last];
    }
  }

  lemma DescribedIsReported(lookup: string -> Answer, start: string, r: Chase)
    requires Describes(Hops(lookup), start, r)
    ensures Reports(lookup, start, r)
  {
    match r
    case EmptySource =>
    case Loop =>
      var j: nat, k: nat :| j < k < MAX_DEPTH && Recurs(Hops(lookup), start, j, k);
      var names := ChainIsWalk(lookup, start, k);
      assert names[j] == names[k] && names[..|names|-1][j] == names[j];
    case TooDeep =>
      var names := ChainIsWalk(lookup, start, MAX_DEPTH);
      forall i: nat, j: nat | i < j < 10 ensures names[i] != names[j] {
        assert !Recurs(Hops(lookup), start, i, j);
      }
    case _ =>
      var k := StopIndex(Hops(lookup), start, r);
      var names := ChainIsWalk(lookup, start, k);
      HopReadsAnswer(lookup, names[k]);
  }

  lemma ReportedIsDescribed(lookup: string -> Answer, start: string, r: Chase)
    requires Reports(lookup, start, r)
    ensures Describes(Hops(lookup), start, r)
  {
    match r
    case EmptySource =>
    case Found(name, delegated) =>
      var names :| IsWalk(lookup, start, names) && |names| <= 10 &&
        names[|names|-1] == name && IsTerminal(lookup, name) && delegated == (|names| > 1);
      WalkIsChain(lookup, start, names, |names| - 1);
      HopReadsAnswer(lookup, name);
      assert EndsAt(Hops(lookup), start, |names| - 1, name);
    case LookupFailed =>
      var names :| IsWalk(lookup, start, names) && |names| <= 10 && lookup(names[|names|-1]) == Failure;
      WalkIsChain(lookup, start, names, |names| - 1);
      HopReadsAnswer(lookup, names[|names|-1]);
      assert BreaksAt(Hops(lookup), start, |names| - 1);
    case Loop =>
      var names :| IsWalk(lookup, start, names) && |names| <= 10 && names[|names|-1] in names[..|names|-1];
      var j :| 0 <= j < |names| - 1 && names[j] == names[|names|-1];
      WalkIsChain(lookup, start, names, j);
      WalkIsChain(lookup, start, names, |names| - 1);
      assert Recurs(Hops(lookup), start, j, |names| - 1);
    case TooDeep =>
      var names :| IsWalk(lookup, start, names) && |names| == 11 && forall j, k :: 0 <= j < k < 10 ==> names[j] != names[k];
      WalkIsChain(lookup, start, names, 10);
      forall j: nat, k: nat | j < k < MAX_DEPTH ensures !Recurs(Hops(lookup), start, j, k) {
        WalkIsChain(lookup, start, names, j);
        WalkIsChain(lookup, start, names, k);
      }
  }

  /** The outcomes of the unbounded chain are those of walks along the resolver's answers. */
  lemma ReportsExactly(lookup: string -> Answer, start: string, r: Chase)
    ensures Reports(lookup, start, r) <==> Describes(Hops(lookup), start, r)
  {
    if Reports(lookup, start, r) { ReportedIsDescribed(lookup, start, r); }
    if Describes(Hops(lookup), start, r) { DescribedIsReported(lookup, start, r); }
  }

  /** The chase reports the one outcome that the resolver's answers allow. */
  method ResolveDelegatedFQDN(lookup: string -> Answer, source: string) returns (r: Chase)
    ensures forall q :: Reports(lookup, Normalize(source), q) <==> q == r
  {
    var start := Normalize(source);
    if start == "" {
      r := EmptySource;
    } else {
      r := ChaseFrom(Hops(lookup), start);
    }
    forall q ensures Reports(lookup, start, q) <==> q == r {
      ReportsExactly(lookup, start, q);
      if Describes(Hops(lookup), start, q) { DescriptionUnique(Hops(lookup), start, q, r); }
    }
  }

  /** A name without a CNAME is used as it is; a resolver failure at the first name is a failure. */
  lemma FirstAnswerDecides(lookup: string -> Answer, source: string, r: Chase)
    requires Normalize(source) != "" && Reports(lookup, Normalize(source), r)
    ensures lookup(Normalize(source)) == NotFound ==> r == Found(Normalize(source), false)
    ensures lookup(Normalize(source)) == Failure ==> r == LookupFailed
  {
    var start := Normalize(source);
    assert IsWalk(lookup, start, [start]);
    var expected := if lookup(start) == NotFound then Found(start, false) else LookupFailed;
    if lookup(start) == NotFound || lookup(start) == Failure {
      assert [start][|[start]|-1] == start;
      assert Reports(lookup, start, expected);
      ReportsExactly(lookup, start, expected);
      ReportsExactly(lookup, start, r);
      DescriptionUnique(Hops(lookup), start, expected, r);
    }
  }

  // ---------- the zone policy ----------

  /** The configured suffix as it is compared: trimmed, normalized, one leading dot dropped. */
  function ZoneOf(suffix: string): string {
    TrimPrefix(Normalize(TrimSpace(suffix)), ".")
  }

  lemma BareZone(zone: string)
    requires IsPlainName(zone) && zone[0] != '.'
    ensures ZoneOf(zone) == zone
  {
    PlainNameIsNormal(zone);
    assert TrimPrefix(zone, ".") == zone;
  }

  lemma ZoneWithTrailingDot(zone: string)
    requires IsPlainName(zone) && zone[0] != '.'
    ensures ZoneOf(zone + ".") == zone
  {
    PlainNameIsNormal(zone);
    assert TrimPrefix(zone, ".") == zone;
  }

  lemma ZoneWithLeadingDot(zone: string)
    requires IsPlainName(zone)
    ensures ZoneOf("." + zone) == zone
  {
    var dotted := "." + zone;
    assert dotted[|dotted|-1] == zone[|zone|-1];
    PlainNameIsNormal(dotted);
    assert TrimPrefix(dotted, ".") == zone;
  }

  /** White space around a spelling of a zone, in whatever case, changes nothing. */
  lemma ZoneDespitePad(pre: string, spelling: string, post: string, zone: string)
    requires AllSpace(pre) && AllSpace(post) && IsPlainName(zone) && zone[0] != '.'
    requires EqualFold(spelling, zone) || EqualFold(spelling, zone + ".") || EqualFold(spelling, "." + zone)
    ensures ZoneOf(pre + spelling + post) == zone
  {
    var plain := if EqualFold(spelling, zone) then zone else if EqualFold(spelling, zone + ".") then zone + "." else "." + zone;
    ZoneSpellings(zone);
    NormalizeIgnoresCase(spelling, plain);
    SpellingIsSolid(spelling, plain, zone);
    AllSpaceTrims(pre);
    AllSpaceTrims(post);
    TrimAround(pre, spelling, post);
    assert "" + spelling + "" == spelling;
    PlainTrims(plain, zone);
  }

  lemma PlainTrims(plain: string, zone: string)
    requires IsPlainName(zone) && (plain == zone || plain == zone + "." || plain == "." + zone)
    ensures TrimSpace(plain) == plain
  {
    assert zone[0] in zone && zone[|zone|-1] in zone;
    assert plain[0] == zone[0] || plain[0] == '.';
    assert plain[|plain|-1] == zone[|zone|-1] || plain[|plain|-1] == '.';
    TrimIdle(plain);
  }

  lemma SpellingIsSolid(spelling: string, plain: string, zone: string)
    requires EqualFold(spelling, plain) && IsPlainName(zone) && (plain == zone || plain == zone + "." || plain == "." + zone)
    ensures spelling != "" && !IsSpace(spelling[0]) && !IsSpace(spelling[|spelling|-1])
  {
    assert |ToLower(spelling)| == |spelling| == |plain| == |ToLower(plain)|;
    var last := |plain| - 1;
    assert zone[0] in zone && zone[|zone|-1] in zone;
    assert plain[0] == zone[0] || plain[0] == '.';
    assert plain[last] == zone[|zone|-1] || plain[last] == '.';
    assert ToLower(spelling)[0] == LowerChar(spelling[0]) && ToLower(plain)[0] == LowerChar(plain[0]);
    assert ToLower(spelling)[last] == LowerChar(spelling[last]) && ToLower(plain)[last] == LowerChar(plain[last]);
  }

  /** The usual spellings of a zone - bare, with a leading dot, with a trailing dot - all mean the zone. */
  lemma ZoneSpellings(zone: string)
    requires IsPlainName(zone) && zone[0] != '.'
    ensures ZoneOf(zone) == zone && ZoneOf("." + zone) == zone && ZoneOf(zone + ".") == zone
  {
    BareZone(zone);
    ZoneWithLeadingDot(zone);
    ZoneWithTrailingDot(zone);
  }

  predicate EndsInZone(target: string, suffix: string) {
    var zone := ZoneOf(suffix);
    zone != "" && (target == zone || HasSuffix(target, "." + zone))
  }

  predicate EndsInSome(target: string, allowed: seq<string>) {
    allowed != [] && (EndsInZone(target, allowed[0]) || EndsInSome(target, allowed[1..]))
  }

  predicate ValidateDelegatedTarget(effective: string, allowed: seq<string>) {
    allowed == [] || EndsInSome(Normalize(effective), allowed)
  }

  function Labels(name: string): seq<string> {
    Split(name, '.')
  }

  predicate IsListSuffix<T(==)>(tail: seq<T>, whole: seq<T>) {
    |tail| <= |whole| && whole[|whole|-|tail|..] == tail
  }

  lemma LabelsOfDotted(head: string, zone: string)
    ensures IsListSuffix(Labels(zone), Labels(head + ['.'] + zone))
  {
    SplitConcat(head, zone, '.');
  }

  lemma SharedLabelsShareText(target: string, zone: string)
    requires IsListSuffix(Labels(zone), Labels(target))
    ensures target == zone || exists head :: target == head + ['.'] + zone
  {
    var head := Labels(target)[..|Labels(target)|-|Labels(zone)|];
    assert Labels(target) == head + Labels(zone);
    JoinSplit(target, '.');
    JoinSplit(zone, '.');
    if |head| > 0 {
      JoinConcat(head, Labels(zone), '.');
      assert target == Join(head, '.') + ['.'] + zone;
    }
  }

  lemma HasDottedSuffix(target: string, zone: string)
    ensures HasSuffix(target, "." + zone) <==> exists head :: target == head + ['.'] + zone
  {
    if HasSuffix(target, "." + zone) {
      assert target == target[..|target| - |zone| - 1] + ['.'] + zone;
    }
  }

  /** A name that is the zone, or ends in a dot and the zone, matches label by label, and conversely. */
  lemma DotSuffixIsLabelSuffix(target: string, zone: string)
    ensures target == zone || HasSuffix(target, "." + zone) <==> IsListSuffix(Labels(zone), Labels(target))
  {
    HasDottedSuffix(target, zone);
    if HasSuffix(target, "." + zone) {
      var head :| target == head + ['.'] + zone;
      LabelsOfDotted(head, zone);
    }
    if IsListSuffix(Labels(zone), Labels(target)) {
      SharedLabelsShareText(target, zone);
    }
  }

  ghost predicate UnderZone(target: string, suffix: string) {
    ZoneOf(suffix) != "" && IsListSuffix(Labels(ZoneOf(suffix)), Labels(target))
  }

  /** Some allowed zone's labels are the last labels of the target. */
  ghost predicate InAllowedZone(target: string, allowed: seq<string>) {
    exists suffix :: suffix in allowed && UnderZone(target, suffix)
  }

  lemma {:induction false} EndsInSomeIsInAllowedZone(target: string, allowed: seq<string>)
    ensures EndsInSome(target, allowed) <==> InAllowedZone(target, allowed)
  {
    if allowed != [] {
      EndsInSomeIsInAllowedZone(target, allowed[1..]);
      DotSuffixIsLabelSuffix(target, ZoneOf(allowed[0]));
      assert EndsInZone(target, allowed[0]) <==> UnderZone(target, allowed[0]);
      assert forall suffix :: suffix in allowed <==> suffix == allowed[0] || suffix in allowed[1..];
    }
  }

  /** A delegated target passes exactly when there is no restriction or a zone matches label by label. */
  lemma PolicyIsLabelMatch(effective: string, allowed: seq<string>)
    ensures ValidateDelegatedTarget(effective, allowed) <==> allowed == [] || InAllowedZone(Normalize(effective), allowed)
  {
    EndsInSomeIsInAllowedZone(Normalize(effective), allowed);
  }

  // ---------- the record's target ----------

  datatype DelegationPolicy = DelegationPolicy(enabled: Option<bool>, mode: string, allowedZoneSuffixes: seq<string>) {
    predicate EnabledOrDefault() {
      enabled.Some? && enabled.value
    }

    function ModeOrDefault(): string {
      var m := ToLower(TrimSpace(mode));
      if m == "" then "strict" else m
    }

    predicate Permissive() {
      ModeOrDefault() == "permissive"
    }
  }

  datatype Target = Target(sourceDomain: string, sourceFqdn: string, effectiveDomain: string, effectiveFqdn: string)

  function TrimAcmeChallengePrefix(fqdn: string): string {
    TrimPrefix(Normalize(fqdn), "_acme-challenge.")
  }

  /** Undoes the prefix under which a challenge name is formed. */
  lemma ChallengePrefixTrimmed(domain: string)
    requires IsPlainName(domain)
    ensures TrimAcmeChallengePrefix("_acme-challenge." + domain) == domain
  {
    var fqdn := "_acme-challenge." + domain;
    assert fqdn[|fqdn|-1] == domain[|domain|-1];
    PlainNameIsNormal(fqdn);
    assert fqdn[|"_acme-challenge."|..] == domain;
  }

  function SourceTarget(domain: string, fqdn: string): Target {
    Target(domain, Normalize(fqdn), domain, Normalize(fqdn))
  }

  function DelegatedTarget(domain: string, fqdn: string, name: string): Target {
    Target(domain, Normalize(fqdn), TrimAcmeChallengePrefix(Normalize(name)), Normalize(name))
  }

  /** The record goes where the challenge name says. */
  ghost predicate IsSource(t: Target, domain: string, fqdn: string) {
    t.sourceDomain == t.effectiveDomain == domain && t.sourceFqdn == t.effectiveFqdn == Normalize(fqdn)
  }

  /** The record goes to another name; its domain is that name without the challenge prefix. */
  ghost predicate IsDelegated(t: Target, domain: string, fqdn: string, name: string) {
    && t.sourceDomain == domain && t.sourceFqdn == Normalize(fqdn) && t.effectiveFqdn == Normalize(name)
    && var plain := Normalize(Normalize(name));
       if "_acme-challenge." <= plain then plain == "_acme-challenge." + t.effectiveDomain else t.effectiveDomain == plain
  }

  lemma TargetsAre(domain: string, fqdn: string, name: string)
    ensures forall t :: IsSource(t, domain, fqdn) <==> t == SourceTarget(domain, fqdn)
    ensures forall t :: IsDelegated(t, domain, fqdn, name) <==> t == DelegatedTarget(domain, fqdn, name)
  {
    var plain := Normalize(Normalize(name));
    AffixLaws(plain, "_acme-challenge.");
    if "_acme-challenge." <= plain {
      assert plain == "_acme-challenge." + plain[|"_acme-challenge."|..];
      forall t: Target ensures plain == "_acme-challenge." + t.effectiveDomain <==> t.effectiveDomain == plain[|"_acme-challenge."|..] {
        assert ("_acme-challenge." + t.effectiveDomain)[|"_acme-challenge."|..] == t.effectiveDomain;
      }
    }
  }

  /** The name a resolution may use in place of the source: the end of a delegated walk that the policy admits. */
  ghost predicate Admitted(lookup: string -> Answer, fqdn: string, name: string, allowed: seq<string>) {
    Reports(lookup, Normalize(Normalize(fqdn)), Found(name, true)) && (allowed == [] || InAllowedZone(Normalize(name), allowed))
  }

  ghost predicate EndsUndelegated(lookup: string -> Answer, fqdn: string) {
    Reports(lookup, Normalize(Normalize(fqdn)), Found(Normalize(Normalize(fqdn)), false))
  }

  lemma UndelegatedIsSource(lookup: string -> Answer, start: string, name: string)
    requires Reports(lookup, start, Found(name, false))
    ensures name == start
  {
    var names :| IsWalk(lookup, start, names) && |names| <= 10 &&
      names[|names|-1] == name && IsTerminal(lookup, name) && false == (|names| > 1);
  }

  /** The configured mode, in whatever case and with white space around it; strict if there is none. */
  ghost predicate SaysPermissive(policy: DelegationPolicy) {
    exists pre, mode, post :: policy.mode == pre + mode + post && AllSpace(pre) && AllSpace(post) && EqualFold(mode, "permissive")
  }

  lemma PermissiveExactly(policy: DelegationPolicy)
    ensures policy.Permissive() <==> SaysPermissive(policy)
  {
    assert ToLower("permissive") == "permissive";
    if policy.Permissive() {
      var pre, post := TrimSpaceParts(policy.mode);
    }
    if SaysPermissive(policy) {
      var pre, mode, post :| policy.mode == pre + mode + post && AllSpace(pre) && AllSpace(post) && EqualFold(mode, "permissive");
      PermissiveIsSolid(mode);
      AllSpaceTrims(pre);
      AllSpaceTrims(post);
      TrimAround(pre, mode, post);
      assert "" + mode + "" == mode;
    }
  }

  lemma PermissiveIsSolid(mode: string)
    requires EqualFold(mode, "permissive")
    ensures mode != "" && !IsSpace(mode[0]) && !IsSpace(mode[|mode|-1])
  {
    assert |ToLower(mode)| == |mode| && |ToLower("permissive")| == 10;
    assert ToLower(mode)[0] == LowerChar(mode[0]) && ToLower("permissive")[0] == 'p';
    assert ToLower(mode)[9] == LowerChar(mode[9]) && ToLower("permissive")[9] == 'e';
  }

  /**
    Unless delegation is enabled the source is used.  Otherwise the delegated name is used exactly
    when the walk ends, delegated, at a name the policy admits; failing that, permissive
    mode falls back to the source, and any other mode fails unless the source itself ends
    the walk.
  */
  ghost predicate TargetIs(lookup: string -> Answer, policy: DelegationPolicy, domain: string, fqdn: string, r: Option<Target>) {
    var allowed := policy.allowedZoneSuffixes;
    if policy.enabled != Some(true) then r.Some? && IsSource(r.value, domain, fqdn)
    else if exists name :: Admitted(lookup, fqdn, name, allowed) then
      forall name :: Admitted(lookup, fqdn, name, allowed) ==> r.Some? && IsDelegated(r.value, domain, fqdn, name)
    else if SaysPermissive(policy) || EndsUndelegated(lookup, fqdn) then r.Some? && IsSource(r.value, domain, fqdn)
    else r == None
  }

  /** Answers, policy and names determine the target. */
  lemma TargetIsUnique(lookup: string -> Answer, policy: DelegationPolicy, domain: string, fqdn: string,
                       r: Option<Target>, q: Option<Target>)
    requires TargetIs(lookup, policy, domain, fqdn, r) && TargetIs(lookup, policy, domain, fqdn, q)
    ensures r == q
  {
    TargetsAre(domain, fqdn, "");
    if name :| policy.enabled == Some(true) && Admitted(lookup, fqdn, name, policy.allowedZoneSuffixes) {
      TargetsAre(domain, fqdn, name);
    }
  }

  /** Permissive mode never fails, and whatever is used is the source or a name the policy admits. */
  lemma TargetIsSourceOrAdmitted(lookup: string -> Answer, policy: DelegationPolicy, domain: string, fqdn: string, r: Option<Target>)
    requires TargetIs(lookup, policy, domain, fqdn, r)
    ensures SaysPermissive(policy) ==> r.Some?
    ensures r.Some? && !IsSource(r.value, domain, fqdn) ==> policy.enabled == Some(true)
    ensures r.Some? && !IsSource(r.value, domain, fqdn) ==>
      exists name :: (Admitted(lookup, fqdn, name, policy.allowedZoneSuffixes) && r.value.effectiveFqdn == Normalize(name))
    ensures r.Some? && r.value.effectiveFqdn != Normalize(fqdn) && policy.allowedZoneSuffixes != [] ==>
      InAllowedZone(r.value.effectiveFqdn, policy.allowedZoneSuffixes)
  {
    if name :| policy.enabled == Some(true) && Admitted(lookup, fqdn, name, policy.allowedZoneSuffixes) {
      assert IsDelegated(r.value, domain, fqdn, name);
    }
  }

  method ResolveDNSChallengeTarget(lookup: string -> Answer, policy: DelegationPolicy, domain: string, fqdn: string)
    returns (r: Option<Target>)
    ensures TargetIs(lookup, policy, domain, fqdn, r)
  {
    var source := SourceTarget(domain, fqdn);
    TargetsAre(domain, fqdn, "");
    PermissiveExactly(policy);
    if !policy.EnabledOrDefault() {
      return Some(source);
    }
    var chase := ResolveDelegatedFQDN(lookup, source.sourceFqdn);
    ghost var start := Normalize(Normalize(fqdn));
    assert forall q :: Reports(lookup, start, q) <==> q == chase;
    if !chase.Found? {
      return if policy.Permissive() then Some(source) else None;
    }
    if !chase.delegated {
      UndelegatedIsSource(lookup, start, chase.name);
      return Some(source);
    }
    PolicyIsLabelMatch(chase.name, policy.allowedZoneSuffixes);
    if !ValidateDelegatedTarget(chase.name, policy.allowedZoneSuffixes) {
      return if policy.Permissive() then Some(source) else None;
    }
    assert Admitted(lookup, fqdn, chase.name, policy.allowedZoneSuffixes);
    TargetsAre(domain, fqdn, chase.name);
    return Some(DelegatedTarget(domain, fqdn, chase.name));
  }
}
