/** The compiled policy engine and its refinement of the reference semantics. */
module Engine {
  import opened Base
  import opened Policy

  datatype CompiledRule = CompiledRule(
    name: string, action: Action, mutations: seq<Mutation>, pod: PodSelector,
    domains: seq<string>, cidrs: seq<Cidr>, ports: Option<set<U16>>, methods: Option<set<string>>,
    path: string)

  datatype CompiledEngine = CompiledEngine(policy: EgressPolicy, rules: seq<CompiledRule>, default: Action)

  /** The normalized, nonempty domain bases of a pattern list, in order. */
  function Bases(patterns: seq<string>): seq<string> {
    if patterns == [] then []
    else
      var rest := Bases(patterns[..|patterns| - 1]);
      var base := NormalizeDomainPattern(patterns[|patterns| - 1]);
      if base == "" then rest else rest + [base]
  }

  lemma {:induction false} BasesMembers(patterns: seq<string>, b: string)
    ensures b in Bases(patterns) <==> b != "" && exists d <- patterns :: NormalizeDomainPattern(d) == b
  {
    if patterns != [] {
      var n := |patterns| - 1;
      BasesMembers(patterns[..n], b);
      assert patterns == patterns[..n] + [patterns[n]];
      if exists d <- patterns :: NormalizeDomainPattern(d) == b {
        var d :| d in patterns && NormalizeDomainPattern(d) == b;
        assert d in patterns[..n] || d == patterns[n];
      }
    }
  }

  function PortSet(ports: seq<U16>): Option<set<U16>> {
    if ports == [] then None else Some(set p <- ports)
  }

  function MethodSet(methods: seq<string>): Option<set<string>> {
    if methods == [] then None else Some(set s <- methods :: Upper(TrimSpace(s)))
  }

  /** `cr` is what compiling `r` yields. */
  ghost predicate CompiledFrom(cr: CompiledRule, r: Rule) {
    && cr.name == r.name && cr.action == r.action && cr.mutations == r.mutations
    && cr.pod == r.match_.pod && cr.path == r.match_.pathPrefix
    && cr.domains == Bases(r.match_.domains)
    && cr.cidrs == r.match_.cidrs
    && cr.ports == PortSet(r.match_.ports)
    && cr.methods == MethodSet(r.match_.methods)
  }

  ghost predicate EngineValid(e: CompiledEngine) {
    && |e.rules| == |e.policy.rules|
    && (forall i :: 0 <= i < |e.rules| ==> CompiledFrom(e.rules[i], e.policy.rules[i]))
    && e.default == DefaultAction(e.policy)
  }

  method CompileDomains(patterns: seq<string>) returns (bases: seq<string>)
    ensures bases == Bases(patterns)
  {
    bases := [];
    for i := 0 to |patterns|
      invariant bases == Bases(patterns[..i])
    {
      assert patterns[..i + 1][..i] == patterns[..i];
      var base := NormalizeDomainPattern(patterns[i]);
      if base != "" {
        bases := bases + [base];
      }
    }
    assert patterns[..|patterns|] == patterns;
  }

  /** Parses the CIDR list; it fails exactly on an unparseable member. */
  method CompileCidrs(cidrs: seq<Cidr>) returns (out: Option<seq<Cidr>>)
    ensures out.None? <==> exists c <- cidrs :: c.Malformed?
    ensures out.Some? ==> out.value == cidrs
  {
    var parsed: seq<Cidr> := [];
    for i := 0 to |cidrs|
      invariant parsed == cidrs[..i]
      invariant forall j :: 0 <= j < i ==> !cidrs[j].Malformed?
    {
      if cidrs[i].Malformed? {
        return None;
      }
      parsed := parsed + [cidrs[i]];
    }
    out := Some(parsed);
  }

  /** Compiles one rule; it fails exactly on an unparseable CIDR. */
  method Compile(r: Rule) returns (out: Option<CompiledRule>)
    ensures out.None? <==> exists c <- r.match_.cidrs :: c.Malformed?
    ensures out.Some? ==> CompiledFrom(out.value, r)
  {
    var m := r.match_;
    var domains := CompileDomains(m.domains);
    var cidrs := CompileCidrs(m.cidrs);
    if cidrs.None? {
      return None;
    }
    out := Some(CompiledRule(r.name, r.action, r.mutations, m.pod, domains, cidrs.value,
                             PortSet(m.ports), MethodSet(m.methods), m.pathPrefix));
  }

  /** A policy compiles exactly when it validates: no rule can fail to compile afterwards. */
  method NewEngine(p: EgressPolicy) returns (out: Option<CompiledEngine>)
    ensures out.Some? <==> PolicyValid(p)
    ensures out.Some? ==> EngineValid(out.value) && out.value.policy == p
  {
    if !PolicyValid(p) {
      return None;
    }
    var default := if p.defaultAction.PostureDeny? then Deny else Allow;
    var rules: seq<CompiledRule> := [];
    for i := 0 to |p.rules|
      invariant |rules| == i
      invariant forall j :: 0 <= j < i ==> CompiledFrom(rules[j], p.rules[j])
    {
      assert RuleValid(p.rules[i]);
      var cr := Compile(p.rules[i]);
      if cr.None? {
        assert false;
        return None;
      }
      rules := rules + [cr.value];
    }
    out := Some(CompiledEngine(p, rules, default));
  }

  method AnyDomain(bases: seq<string>, name: string) returns (ok: bool)
    ensures ok <==> exists j :: 0 <= j < |bases| && DomainMatches(bases[j], name)
  {
    for i := 0 to |bases|
      invariant forall j :: 0 <= j < i ==> !DomainMatches(bases[j], name)
    {
      if DomainMatches(bases[i], name) {
        return true;
      }
    }
    ok := false;
  }

  method AnyCidr(cidrs: seq<Cidr>, dst: Option<Address>) returns (ok: bool)
    ensures ok <==> dst.Some? && exists c <- cidrs :: CidrContains(c, dst.value)
  {
    if dst.Some? {
      for i := 0 to |cidrs|
        invariant forall j :: 0 <= j < i ==> !CidrContains(cidrs[j], dst.value)
      {
        if CidrContains(cidrs[i], dst.value) {
          return true;
        }
      }
    }
    ok := false;
  }

  /** The compiled match agrees with the reference match of the source rule on every flow. */
  method RuleMatches(cr: CompiledRule, ghost r: Rule, f: Flow) returns (ok: bool)
    requires CompiledFrom(cr, r)
    ensures ok <==> Matches(r, f)
  {
    if !PodMatches(cr.pod, f.pod, f.labels) {
      return false;
    }
    DomainsDecided(cr, r, f.domain);
    if cr.domains != [] {
      ok := AnyDomain(cr.domains, f.domain);
      if !ok {
        return false;
      }
    }
    if cr.cidrs != [] {
      ok := AnyCidr(cr.cidrs, f.dst);
      if !ok {
        return false;
      }
    }
    if cr.ports.Some? && f.port !in cr.ports.value {
      return false;
    }
    MethodsDecided(cr, r, f);
    if cr.methods.Some? && Upper(f.method_) !in cr.methods.value {
      return false;
    }
    ok := cr.path <= f.path;
  }

  lemma MethodsDecided(cr: CompiledRule, r: Rule, f: Flow)
    requires CompiledFrom(cr, r)
    ensures L7Match(r.match_, f)
            <==> (cr.methods.None? || Upper(f.method_) in cr.methods.value) && cr.path <= f.path
  {
  }

  lemma DomainsDecided(cr: CompiledRule, r: Rule, name: string)
    requires CompiledFrom(cr, r)
    ensures DomainsMatch(r.match_.domains, name)
            <==> cr.domains == [] || exists j :: 0 <= j < |cr.domains| && DomainMatches(cr.domains[j], name)
  {
    var ds := r.match_.domains;
    forall b: string ensures b in cr.domains <==> b != "" && exists d <- ds :: NormalizeDomainPattern(d) == b {
      BasesMembers(ds, b);
    }
    if cr.domains == [] {
      forall d <- ds ensures NormalizeDomainPattern(d) == "" {
        assert NormalizeDomainPattern(d) !in cr.domains;
      }
    } else {
      assert cr.domains[0] in cr.domains;
    }
    if exists d <- ds :: DomainMatches(NormalizeDomainPattern(d), name) {
      var d :| d in ds && DomainMatches(NormalizeDomainPattern(d), name);
      assert NormalizeDomainPattern(d) in cr.domains;
    }
    if j :| 0 <= j < |cr.domains| && DomainMatches(cr.domains[j], name) {
      assert cr.domains[j] in cr.domains;
    }
  }

  lemma FirstHit(e: CompiledEngine, f: Flow, i: nat)
    requires EngineValid(e) && i < |e.rules| && Matches(e.policy.rules[i], f)
    requires forall j :: 0 <= j < i ==> !Matches(e.policy.rules[j], f)
    ensures Evaluate(e.policy, f) == Verdict(e.rules[i].action, e.rules[i].name, e.rules[i].mutations)
  {
    FirstMatchAt(e.policy.rules, f, i);
  }

  lemma NoHit(e: CompiledEngine, f: Flow)
    requires EngineValid(e) && forall j :: 0 <= j < |e.rules| ==> !Matches(e.policy.rules[j], f)
    ensures Evaluate(e.policy, f) == Verdict(e.default, "", [])
  {
    FirstMatchNone(e.policy.rules, f);
  }

  /** Walks the compiled rules first-match-wins; the verdict is the reference verdict. */
  method Decide(e: CompiledEngine, f: Flow) returns (v: Verdict)
    requires EngineValid(e)
    ensures v == Evaluate(e.policy, f)
  {
    for i := 0 to |e.rules|
      invariant forall j :: 0 <= j < i ==> !Matches(e.policy.rules[j], f)
    {
      var hit := RuleMatches(e.rules[i], e.policy.rules[i], f);
      if hit {
        FirstHit(e, f, i);
        return Verdict(e.rules[i].action, e.rules[i].name, e.rules[i].mutations);
      }
    }
    NoHit(e, f);
    v := Verdict(e.default, "", []);
  }

  /** A rule bears a domain when some pattern survives normalization. */
  ghost predicate DomainBearing(r: Rule) {
    exists d <- r.match_.domains :: NormalizeDomainPattern(d) != ""
  }

  ghost predicate DomainRuleFor(r: Rule, pod: PodInfo, labels: Labels, qname: string) {
    DomainBearing(r) && PodMatches(r.match_.pod, pod, labels) && DomainsMatch(r.match_.domains, qname)
  }

  /** Index `d` is the first domain-bearing rule for this pod and name. */
  ghost predicate FirstDomainRule(p: EgressPolicy, pod: PodInfo, labels: Labels, qname: string, d: nat) {
    && d < |p.rules|
    && DomainRuleFor(p.rules[d], pod, labels, qname)
    && NoDomainRule(p.rules[..d], pod, labels, qname)
  }

  ghost predicate NoDomainRule(rules: seq<Rule>, pod: PodInfo, labels: Labels, qname: string) {
    forall r <- rules :: !DomainRuleFor(r, pod, labels, qname)
  }

  method DomainHit(cr: CompiledRule, ghost r: Rule, pod: PodInfo, labels: Labels, qname: string) returns (hit: bool)
    requires CompiledFrom(cr, r)
    ensures hit <==> DomainRuleFor(r, pod, labels, qname)
  {
    hit := false;
    DomainsDecided(cr, r, qname);
    BearingIffBases(cr, r);
    if cr.domains != [] && PodMatches(cr.pod, pod, labels) {
      hit := AnyDomain(cr.domains, qname);
    }
  }

  method DomainRuleVerdict(e: CompiledEngine, pod: PodInfo, labels: Labels, qname: string)
    returns (out: Option<(Action, seq<U16>)>, d: nat)
    requires EngineValid(e)
    ensures out.Some? ==>
              && FirstDomainRule(e.policy, pod, labels, qname, d)
              && out.value == (e.policy.rules[d].action, e.policy.rules[d].match_.ports)
    ensures out.None? ==> NoDomainRule(e.policy.rules, pod, labels, qname)
  {
    d := 0;
    var hit := false;
    while d < |e.rules|
      invariant d <= |e.rules|
      invariant NoDomainRule(e.policy.rules[..d], pod, labels, qname)
    {
      hit := DomainHit(e.rules[d], e.policy.rules[d], pod, labels, qname);
      if hit {
        return Some((e.rules[d].action, e.policy.rules[d].match_.ports)), d;
      }
      NoDomainRuleExtend(e.policy.rules, d, pod, labels, qname);
      d := d + 1;
    }
    assert e.policy.rules[..d] == e.policy.rules;
    out := None;
  }

  lemma NoDomainRuleExtend(rules: seq<Rule>, i: nat, pod: PodInfo, labels: Labels, qname: string)
    requires i < |rules| && NoDomainRule(rules[..i], pod, labels, qname)
    requires !DomainRuleFor(rules[i], pod, labels, qname)
    ensures NoDomainRule(rules[..i + 1], pod, labels, qname)
  {
    assert rules[..i + 1] == rules[..i] + [rules[i]];
  }

  lemma BearingIffBases(cr: CompiledRule, r: Rule)
    requires CompiledFrom(cr, r)
    ensures cr.domains != [] <==> DomainBearing(r)
  {
    if cr.domains != [] {
      BasesMembers(r.match_.domains, cr.domains[0]);
    }
    if d :| d in r.match_.domains && NormalizeDomainPattern(d) != "" {
      BasesMembers(r.match_.domains, NormalizeDomainPattern(d));
    }
  }
}
