/**
  Which upstream an order goes to, and which CSRs may follow it: configuration
  validation, the router, and the key-type gate at finalize, over whole runs in which the
  configuration may change between an order's creation and its finalization.
*/
module Routing {
  import opened Paths
  import opened Wrappers
  import opened Text

  datatype Match = Match(profile: string, keyType: string, domainSuffix: string)

  datatype Rule = Rule(match_: Match, upstream: string, upstreamProfile: string, requireCsrKeyType: string)

  datatype Request = Request(profile: string, keyType: string, identifiers: seq<string>)

  datatype Decision = Decision(upstream: string, upstreamProfile: string, requireCsrKeyType: string)

  // ---------- validation ----------

  predicate KeyTypeOk(t: string) {
    ToUpper(t) == "" || ToUpper(t) == "RSA" || ToUpper(t) == "ECDSA"
  }

  predicate RuleOk(upstreams: set<string>, profiles: set<string>, r: Rule) {
    && r.upstream != "" && r.upstream in upstreams
    && (r.match_.profile != "" ==> r.match_.profile in profiles)
    && KeyTypeOk(r.match_.keyType) && KeyTypeOk(r.requireCsrKeyType)
  }

  function Normalized(r: Rule): Rule {
    r.(requireCsrKeyType := ToUpper(r.requireCsrKeyType))
  }

  /** RSA or ECDSA in whatever case, or nothing. */
  lemma KeyTypeOkExactly(t: string)
    ensures KeyTypeOk(t) <==> t == "" || EqualFold(t, "rsa") || EqualFold(t, "ecdsa")
  {
    UpperIsFold(t, "RSA");
    UpperIsFold(t, "ECDSA");
    assert ToLower("RSA") == ToLower("rsa") && ToLower("ECDSA") == ToLower("ecdsa");
    assert |ToUpper(t)| == |t|;
  }

  /** Upper case gives a text of capitals exactly when the two differ in case only. */
  lemma UpperIsFold(t: string, capitals: string)
    requires forall c :: c in capitals ==> 'A' <= c <= 'Z'
    ensures ToUpper(t) == capitals <==> EqualFold(t, capitals)
  {
    if ToUpper(t) == capitals { CaseChangesFold(t); }
    if EqualFold(t, capitals) {
      assert |ToLower(t)| == |t| && |ToLower(capitals)| == |capitals|;
      forall i | 0 <= i < |t| ensures ToUpper(t)[i] == capitals[i] {
        assert ToLower(t)[i] == LowerChar(t[i]) && ToLower(capitals)[i] == LowerChar(capitals[i]) && capitals[i] in capitals;
      }
      assert ToUpper(t) == capitals;
    }
  }

  /** The same rule, with the required key type in capitals. */
  ghost predicate IsNormalForm(r: Rule, original: Rule) {
    && r.match_ == original.match_ && r.upstream == original.upstream && r.upstreamProfile == original.upstreamProfile
    && r.requireCsrKeyType in {"", "RSA", "ECDSA"} && EqualFold(r.requireCsrKeyType, original.requireCsrKeyType)
  }

  lemma NormalizedIsNormalForm(upstreams: set<string>, profiles: set<string>, r: Rule)
    requires RuleOk(upstreams, profiles, r)
    ensures IsNormalForm(Normalized(r), r)
  {
    CaseChangesFold(r.requireCsrKeyType);
  }

  predicate RoutingOk(upstreams: set<string>, profiles: set<string>, rules: seq<Rule>, defaultUpstream: string) {
    && (forall r :: r in rules ==> RuleOk(upstreams, profiles, r))
    && (defaultUpstream != "" ==> defaultUpstream in upstreams)
  }

  /** Accepts exactly the good routing sections, and leaves an accepted one normalized in place. */
  method ValidateRouting(upstreams: set<string>, profiles: set<string>, rules: array<Rule>, defaultUpstream: string)
    returns (ok: bool)
    modifies rules
    ensures ok <==> RoutingOk(upstreams, profiles, old(rules[..]), defaultUpstream)
    ensures ok ==> forall i :: 0 <= i < rules.Length ==> IsNormalForm(rules[i], old(rules[i]))
    ensures ok ==> forall i :: 0 <= i < rules.Length ==> rules[i] == Normalized(old(rules[i]))
  {
    for i := 0 to rules.Length
      invariant forall j :: 0 <= j < i ==> rules[j] == Normalized(old(rules[j])) && RuleOk(upstreams, profiles, old(rules[j]))
      invariant forall j :: i <= j < rules.Length ==> rules[j] == old(rules[j])
    {
      var rule := rules[i];
      assert rule == old(rules[..])[i] && rule in old(rules[..]);
      if rule.upstream == "" || rule.upstream !in upstreams {
        return false;
      }
      if rule.match_.profile != "" && rule.match_.profile !in profiles {
        return false;
      }
      if !KeyTypeOk(rule.match_.keyType) || !KeyTypeOk(rule.requireCsrKeyType) {
        return false;
      }
      rules[i] := Normalized(rule);
    }
    ok := defaultUpstream == "" || defaultUpstream in upstreams;
    forall i | 0 <= i < rules.Length ensures IsNormalForm(Normalized(old(rules[i])), old(rules[i])) {
      NormalizedIsNormalForm(upstreams, profiles, old(rules[i]));
    }
    forall r | r in old(rules[..]) ensures RuleOk(upstreams, profiles, r) {
      var j :| 0 <= j < rules.Length && old(rules[..])[j] == r;
      assert RuleOk(upstreams, profiles, old(rules[j]));
    }
  }

  // ---------- the router ----------

  predicate AnyHasSuffix(ids: seq<string>, suffix: string) {
    exists id :: id in ids && HasSuffix(id, suffix)
  }

  predicate Matches(m: Match, req: Request) {
    && (m.profile != "" ==> m.profile == req.profile)
    && (m.keyType != "" ==> EqualFold(m.keyType, req.keyType))
    && (m.domainSuffix != "" ==> AnyHasSuffix(req.identifiers, m.domainSuffix))
  }

  function Route(rules: seq<Rule>, defaultUpstream: string, req: Request): Decision {
    if rules == [] then Decision(defaultUpstream, "", "")
    else if Matches(rules[0].match_, req)
    then Decision(rules[0].upstream, rules[0].upstreamProfile, rules[0].requireCsrKeyType)
    else Route(rules[1..], defaultUpstream, req)
  }

  /** What each condition of a rule asks for; an empty one asks for nothing. */
  ghost predicate Admits(m: Match, req: Request) {
    && m.profile in {"", req.profile}
    && (m.keyType == "" || ToLower(m.keyType) == ToLower(req.keyType))
    && (m.domainSuffix == "" || exists i, pre :: 0 <= i < |req.identifiers| && req.identifiers[i] == pre + m.domainSuffix)
  }

  lemma AnyHasSuffixExactly(ids: seq<string>, suffix: string)
    ensures AnyHasSuffix(ids, suffix) <==> exists i, pre :: 0 <= i < |ids| && ids[i] == pre + suffix
  {
    if id :| id in ids && HasSuffix(id, suffix) {
      var i :| 0 <= i < |ids| && ids[i] == id;
      assert ids[i] == id[..|id|-|suffix|] + suffix;
    }
    if i, pre :| 0 <= i < |ids| && ids[i] == pre + suffix {
      AffixLaws(ids[i], suffix);
    }
  }

  lemma MatchesExactly(m: Match, req: Request)
    ensures Matches(m, req) <==> Admits(m, req)
  {
    AnyHasSuffixExactly(req.identifiers, m.domainSuffix);
  }

  ghost predicate FirstMatch(rules: seq<Rule>, req: Request, i: nat) {
    i < |rules| && Admits(rules[i].match_, req) && forall j :: 0 <= j < i ==> !Admits(rules[j].match_, req)
  }

  /** The first matching rule decides. */
  lemma {:induction false} FirstMatchDecides(rules: seq<Rule>, defaultUpstream: string, req: Request, i: nat)
    requires FirstMatch(rules, req, i)
    ensures Route(rules, defaultUpstream, req) == Decision(rules[i].upstream, rules[i].upstreamProfile, rules[i].requireCsrKeyType)
  {
    MatchesExactly(rules[0].match_, req);
    if i > 0 {
      assert !Admits(rules[0].match_, req);
      assert forall j :: 0 <= j < i ==> rules[1..][j] == rules[j+1];
      FirstMatchDecides(rules[1..], defaultUpstream, req, i - 1);
    }
  }

  /** Without a matching rule the default is used, and demands nothing. */
  lemma {:induction false} NoMatchUsesDefault(rules: seq<Rule>, defaultUpstream: string, req: Request)
    requires forall r :: r in rules ==> !Admits(r.match_, req)
    ensures Route(rules, defaultUpstream, req) == Decision(defaultUpstream, "", "")
  {
    if rules != [] {
      assert rules[0] in rules;
      MatchesExactly(rules[0].match_, req);
      NoMatchUsesDefault(rules[1..], defaultUpstream, req);
    }
  }

  // ---------- whole runs ----------

  type OrderId = string

  /** A configuration that passed validation, with its rules normalized. */
  datatype Config = Config(upstreams: set<string>, profiles: set<string>, rules: seq<Rule>, defaultUpstream: string) {
    ghost predicate Valid() {
      && RoutingOk(upstreams, profiles, rules, defaultUpstream)
      && forall r :: r in rules ==> r.requireCsrKeyType in {"", "RSA", "ECDSA"}
    }
  }

  function NormalizedRules(rules: seq<Rule>): seq<Rule> {
    seq(|rules|, i requires 0 <= i < |rules| => Normalized(rules[i]))
  }

  /** What validation leaves behind is a valid configuration. */
  lemma AcceptedConfigIsValid(upstreams: set<string>, profiles: set<string>, rules: seq<Rule>, defaultUpstream: string)
    requires RoutingOk(upstreams, profiles, rules, defaultUpstream)
    ensures Config(upstreams, profiles, NormalizedRules(rules), defaultUpstream).Valid()
  {
    assert ToUpper("RSA") == "RSA" && ToUpper("ECDSA") == "ECDSA" && ToUpper("") == "";
    forall r | r in NormalizedRules(rules)
      ensures RuleOk(upstreams, profiles, r) && r.requireCsrKeyType in {"", "RSA", "ECDSA"}
    {
      var i :| 0 <= i < |rules| && NormalizedRules(rules)[i] == r;
      assert rules[i] in rules && RuleOk(upstreams, profiles, rules[i]);
    }
  }

  /** An order keeps the requirement it was created under; `config` and `request` are how it was routed. */
  datatype Order = Order(upstream: string, requireCsrKeyType: string, config: Config, request: Request)

  /** A CSR forwarded to an upstream, with the type of its public key ("" if unknown). */
  datatype Forwarded = Forwarded(order: OrderId, upstream: string, keyType: string)

  datatype State = State(config: Config, orders: map<OrderId, Order>, forwarded: seq<Forwarded>)

  datatype Action =
    | Reload(config: Config)
    | NewOrder(id: OrderId, request: Request)
    | Finalize(id: OrderId, csrKeyType: Option<string>)  // None: the CSR does not parse

  const CSR_KEY_TYPES := {"RSA", "ECDSA", "Ed25519", ""}

  ghost predicate Enabled(s: State, a: Action) {
    match a
    case Reload(c) => c.Valid()
    case NewOrder(id, _) => id !in s.orders
    case Finalize(id, t) => id in s.orders && (t.Some? ==> t.value in CSR_KEY_TYPES)
  }

  predicate GateOpen(o: Order, csrKeyType: Option<string>) {
    csrKeyType.Some? && (o.requireCsrKeyType != "" ==> EqualFold(csrKeyType.value, o.requireCsrKeyType))
  }

  ghost function Apply(s: State, a: Action): State
    requires Enabled(s, a)
  {
    match a
    case Reload(c) => s.(config := c)
    case NewOrder(id, req) =>
      var d := Route(s.config.rules, s.config.defaultUpstream, req);
      if d.upstream == "" then s
      else s.(orders := s.orders[id := Order(d.upstream, d.requireCsrKeyType, s.config, req)])
    case Finalize(id, t) =>
      if GateOpen(s.orders[id], t)
      then s.(forwarded := s.forwarded + [Forwarded(id, s.orders[id].upstream, t.value)])
      else s
  }

  ghost predicate Next(s: State, s': State) {
    exists a :: Enabled(s, a) && s' == Apply(s, a)
  }

  ghost predicate IsRun(run: seq<State>) {
    IsPath(Next, run) && run[0].config.Valid() && run[0].orders == map[] && run[0].forwarded == []
  }

  ghost predicate OrderOk(o: Order) {
    && o.config.Valid()
    && var d := Route(o.config.rules, o.config.defaultUpstream, o.request);
       o.upstream == d.upstream && o.requireCsrKeyType == d.requireCsrKeyType && d.upstream != ""
  }

  ghost predicate ForwardedOk(s: State, f: Forwarded) {
    && f.order in s.orders && f.upstream == s.orders[f.order].upstream
    && (s.orders[f.order].requireCsrKeyType != "" ==> f.keyType == s.orders[f.order].requireCsrKeyType)
  }

  ghost predicate Inv(s: State) {
    && s.config.Valid()
    && (forall id :: id in s.orders ==> OrderOk(s.orders[id]))
    && (forall i :: 0 <= i < |s.forwarded| ==> ForwardedOk(s, s.forwarded[i]))
  }

  lemma {:induction false} RouteIsConfigured(c: Config, rules: seq<Rule>, req: Request)
    requires c.Valid() && forall r :: r in rules ==> r in c.rules
    ensures var d := Route(rules, c.defaultUpstream, req);
      && (d.upstream == "" || d.upstream in c.upstreams)
      && d.requireCsrKeyType in {"", "RSA", "ECDSA"}
  {
    if rules != [] {
      assert rules[0] in rules;
      RouteIsConfigured(c, rules[1..], req);
    }
  }

  lemma FoldedTypesAreEqual(t: string, required: string)
    requires t in CSR_KEY_TYPES && required in {"RSA", "ECDSA"} && EqualFold(t, required)
    ensures t == required
  {
    assert ToLower("RSA")[0] == 'r' && ToLower("ECDSA")[0] == 'e';
    assert |ToLower(t)| == |t| && |ToLower(required)| == |required|;
  }

  /** A CSR is forwarded exactly when it parses and has the key type the order demands, if it demands one. */
  lemma FinalizeForwardsExactly(s: State, id: OrderId, keyType: Option<string>)
    requires Inv(s) && Enabled(s, Finalize(id, keyType))
    ensures var o, s' := s.orders[id], Apply(s, Finalize(id, keyType));
      if keyType.Some? && (o.requireCsrKeyType == "" || keyType.value == o.requireCsrKeyType)
      then s' == s.(forwarded := s.forwarded + [Forwarded(id, o.upstream, keyType.value)])
      else s' == s
  {
    var o := s.orders[id];
    assert OrderOk(o);
    RouteIsConfigured(o.config, o.config.rules, o.request);
    if keyType.Some? && o.requireCsrKeyType != "" && EqualFold(keyType.value, o.requireCsrKeyType) {
      FoldedTypesAreEqual(keyType.value, o.requireCsrKeyType);
    }
  }

  lemma InvStep(s: State, a: Action)
    requires Inv(s) && Enabled(s, a)
    ensures Inv(Apply(s, a))
  {
    var s' := Apply(s, a);
    if a.Finalize? && GateOpen(s.orders[a.id], a.csrKeyType) && s.orders[a.id].requireCsrKeyType != "" {
      var o := s.orders[a.id];
      RouteIsConfigured(o.config, o.config.rules, o.request);
      FoldedTypesAreEqual(a.csrKeyType.value, o.requireCsrKeyType);
    }
    forall i | 0 <= i < |s'.forwarded| ensures ForwardedOk(s', s'.forwarded[i]) {
      if i < |s.forwarded| { assert ForwardedOk(s, s.forwarded[i]); }
    }
  }

  lemma RunInv(run: seq<State>, i: nat)
    requires IsRun(run) && i < |run|
    ensures Inv(run[i])
  {
    forall s, s' | Inv(s) && Next(s, s') ensures Inv(s') {
      var a :| Enabled(s, a) && s' == Apply(s, a);
      InvStep(s, a);
    }
    Always(Next, Inv, run, i);
  }

  lemma {:induction false} OrdersNeverChange(run: seq<State>, i: nat, j: nat, id: OrderId)
    requires IsRun(run) && i <= j < |run| && id in run[i].orders
    ensures id in run[j].orders && run[j].orders[id] == run[i].orders[id]
  {
    if i < j {
      OrdersNeverChange(run, i, j - 1, id);
      StepOf(Next, run, j);
      var a :| Enabled(run[j-1], a) && run[j] == Apply(run[j-1], a);
    }
  }

  /**
    Every CSR that reaches an upstream does so for an order whose upstream was configured
    when the order was created, and its key type is the one the first matching rule of that
    configuration demanded, if it demanded one, whatever was loaded since.
  */
  lemma ForwardedCsrsMeetTheRule(run: seq<State>, i: nat, j: nat, n: nat, id: OrderId)
    requires IsRun(run) && i <= j < |run| && id in run[i].orders
    requires n < |run[j].forwarded| && run[j].forwarded[n].order == id
    ensures var o, f := run[i].orders[id], run[j].forwarded[n];
      && o.upstream in o.config.upstreams && f.upstream == o.upstream
      && (forall k: nat :: FirstMatch(o.config.rules, o.request, k) ==>
            o.upstream == o.config.rules[k].upstream &&
            (o.config.rules[k].requireCsrKeyType != "" ==> f.keyType == o.config.rules[k].requireCsrKeyType))
  {
    RunInv(run, j);
    OrdersNeverChange(run, i, j, id);
    var o := run[j].orders[id];
    assert ForwardedOk(run[j], run[j].forwarded[n]) && OrderOk(o);
    RouteIsConfigured(o.config, o.config.rules, o.request);
    forall k: nat | FirstMatch(o.config.rules, o.request, k)
      ensures o.upstream == o.config.rules[k].upstream && o.requireCsrKeyType == o.config.rules[k].requireCsrKeyType
    {
      FirstMatchDecides(o.config.rules, o.config.defaultUpstream, o.request, k);
    }
  }
}
