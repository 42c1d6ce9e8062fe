/** The egress policy model: selectors, rules, validation, and what a rule means for one flow. */
module Policy {
  import opened Base
  import opened Lpm

  // Go keeps these as strings; every value outside the named constants behaves alike.
  datatype Action = Allow | Deny | Modify | OtherAction(text: string)
  datatype Posture = PostureUnset | PostureAllow | PostureDeny | OtherPosture(text: string)
  datatype Operator = In | NotIn | Exists | DoesNotExist | OtherOperator(text: string)
  datatype MutationType = SetHeader | AddHeader | RemoveHeader | RewritePath | OtherMutation(text: string)

  type Labels = map<string, string>

  datatype Requirement = Requirement(key: string, operator: Operator, values: seq<string>)

  /** The policy-level subject selector; a nil selector is the empty one. */
  datatype LabelSelector = LabelSelector(matchLabels: Labels, matchExpressions: seq<Requirement>)

  datatype PodSelector = PodSelector(
    namespace: string, name: string, uid: string, labels: Labels, matchExpressions: seq<Requirement>)

  const ZeroSelector := PodSelector("", "", "", map[], [])

  datatype ParsedCidr =
    | V4(net: U32, ones: nat)
    | V6(net6: nat, ones6: nat)
    | Malformed(text: string)

  /** What CIDR parsing yields: prefix lengths in range and, for IPv4, a masked network. */
  type Cidr = c: ParsedCidr |
      && (c.V4? ==> c.ones <= 32 && Masked(c.net, c.ones))
      && (c.V6? ==> c.ones6 <= 128)
    witness V6(0, 0)

  datatype Address = Ip4(v4: U32) | Ip6(v6: nat)

  datatype Mutation = Mutation(kind: MutationType, header: string, value: string, pathReplace: string)

  datatype Match = Match(
    pod: PodSelector, domains: seq<string>, cidrs: seq<Cidr>, ports: seq<U16>,
    methods: seq<string>, pathPrefix: string)

  datatype Rule = Rule(name: string, match_: Match, action: Action, mutations: seq<Mutation>)

  datatype EgressPolicy = EgressPolicy(podSelector: LabelSelector, defaultAction: Posture, rules: seq<Rule>)

  datatype PodInfo = PodInfo(namespace: string, name: string, uid: string, labels: Labels)

  datatype Flow = Flow(
    pod: PodInfo, labels: Labels, dst: Option<Address>, port: U16,
    domain: string, method_: string, path: string)

  datatype Verdict = Verdict(action: Action, rule: string, mutations: seq<Mutation>)

  // ---- Selectors ----

  /** Reading an absent key of a Go map yields the empty string. */
  function Label(labels: Labels, key: string): string {
    if key in labels then labels[key] else ""
  }

  predicate RequirementMatches(r: Requirement, labels: Labels) {
    match r.operator
    case In => r.key in labels && labels[r.key] in r.values
    case NotIn => r.key !in labels || labels[r.key] !in r.values
    case Exists => r.key in labels
    case DoesNotExist => r.key !in labels
    case OtherOperator(_) => false
  }

  predicate LabelsMatch(want: Labels, labels: Labels) {
    forall k <- want :: Label(labels, k) == want[k]
  }

  predicate ExpressionsMatch(reqs: seq<Requirement>, labels: Labels) {
    forall r <- reqs :: RequirementMatches(r, labels)
  }

  predicate SelectorEmpty(s: LabelSelector) {
    s.matchLabels == map[] && s.matchExpressions == []
  }

  predicate SelectorMatches(s: LabelSelector, labels: Labels) {
    LabelsMatch(s.matchLabels, labels) && ExpressionsMatch(s.matchExpressions, labels)
  }

  predicate PodMatches(s: PodSelector, pod: PodInfo, labels: Labels) {
    && (s.namespace == "" || s.namespace == pod.namespace)
    && (s.name == "" || s.name == pod.name)
    && (s.uid == "" || s.uid == pod.uid)
    && LabelsMatch(s.labels, labels)
    && ExpressionsMatch(s.matchExpressions, labels)
  }

  // ---- Domains and text ----

  function LowerChar(c: char): char {
    if 'A' <= c <= 'Z' then c - 'A' + 'a' else c
  }

  function UpperChar(c: char): char {
    if 'a' <= c <= 'z' then c - 'a' + 'A' else c
  }

  function Lower(s: string): (r: string)
    ensures |r| == |s|
  {
    if s == "" then "" else [LowerChar(s[0])] + Lower(s[1..])
  }

  function Upper(s: string): string {
    if s == "" then "" else [UpperChar(s[0])] + Upper(s[1..])
  }

  predicate IsSpace(c: char) {
    c == ' ' || '\t' <= c <= '\r'
  }

  function TrimSpace(s: string): string
    decreases |s|
  {
    if s != "" && IsSpace(s[0]) then TrimSpace(s[1..])
    else if s != "" && IsSpace(s[|s| - 1]) then TrimSpace(s[..|s| - 1])
    else s
  }

  predicate HasSuffix(s: string, suffix: string) {
    |suffix| <= |s| && s[|s| - |suffix|..] == suffix
  }

  function TrimDot(s: string): string {
    if HasSuffix(s, ".") then s[..|s| - 1] else s
  }

  function NormalizeDomainPattern(pattern: string): string {
    var p := TrimDot(Lower(TrimSpace(pattern)));
    if "*." <= p then p[2..] else p
  }

  /** `name` is `base` or a subdomain of it; `base` is already normalized. */
  predicate DomainMatches(base: string, name: string) {
    var n := Lower(TrimDot(TrimSpace(name)));
    base != "" && n != "" && (n == base || HasSuffix(n, "." + base))
  }

  // ---- One rule, one flow ----

  predicate CidrContains(c: Cidr, a: Address) {
    match c
    case V4(net, ones) => a.Ip4? && InNet(net, ones, a.v4)
    case V6(net, ones) => a.Ip6? && Shr(a.v6, 128 - ones) == Shr(net, 128 - ones)
    case Malformed(_) => false
  }

  predicate DomainsMatch(domains: seq<string>, name: string) {
    || (forall d <- domains :: NormalizeDomainPattern(d) == "")
    || (exists d <- domains :: DomainMatches(NormalizeDomainPattern(d), name))
  }

  predicate CidrsMatch(cidrs: seq<Cidr>, dst: Option<Address>) {
    cidrs == [] || (dst.Some? && exists c <- cidrs :: CidrContains(c, dst.value))
  }

  predicate L7Match(m: Match, f: Flow) {
    && (m.methods == [] || exists s <- m.methods :: Upper(TrimSpace(s)) == Upper(f.method_))
    && m.pathPrefix <= f.path
  }

  /** The destination side of a rule: AND across dimensions, OR within one, empty means any. */
  predicate DestMatches(m: Match, f: Flow) {
    && DomainsMatch(m.domains, f.domain)
    && CidrsMatch(m.cidrs, f.dst)
    && (m.ports == [] || f.port in m.ports)
    && L7Match(m, f)
  }

  predicate Matches(r: Rule, f: Flow) {
    PodMatches(r.match_.pod, f.pod, f.labels) && DestMatches(r.match_, f)
  }

  /** First match wins. */
  function FirstMatch(rules: seq<Rule>, f: Flow): Option<Rule> {
    if rules == [] then None
    else if Matches(rules[0], f) then Some(rules[0])
    else FirstMatch(rules[1..], f)
  }

  function RuleVerdict(r: Rule): Verdict {
    Verdict(r.action, r.name, r.mutations)
  }

  function EffectiveDefault(p: EgressPolicy): Posture {
    if p.defaultAction.PostureUnset? then PostureAllow else p.defaultAction
  }

  function DefaultAction(p: EgressPolicy): Action {
    if EffectiveDefault(p).PostureDeny? then Deny else Allow
  }

  /** The reference semantics of a policy. */
  function Evaluate(p: EgressPolicy, f: Flow): Verdict {
    var m := FirstMatch(p.rules, f);
    if m.Some? then RuleVerdict(m.value) else Verdict(DefaultAction(p), "", [])
  }

  lemma {:induction false} FirstMatchConcat(a: seq<Rule>, b: seq<Rule>, f: Flow)
    ensures FirstMatch(a + b, f) == if FirstMatch(a, f).Some? then FirstMatch(a, f) else FirstMatch(b, f)
  {
    if a == [] {
      assert a + b == b;
    } else {
      assert (a + b)[1..] == a[1..] + b;
      FirstMatchConcat(a[1..], b, f);
    }
  }

  /** `FirstMatch` by position: the rule found is the one of least index. */
  lemma {:induction false} FirstMatchAt(rules: seq<Rule>, f: Flow, i: nat)
    requires i < |rules| && Matches(rules[i], f)
    requires forall j :: 0 <= j < i ==> !Matches(rules[j], f)
    ensures FirstMatch(rules, f) == Some(rules[i])
  {
    if i > 0 {
      assert !Matches(rules[0], f);
      FirstMatchAt(rules[1..], f, i - 1);
    }
  }

  lemma {:induction false} FirstMatchNone(rules: seq<Rule>, f: Flow)
    requires forall j :: 0 <= j < |rules| ==> !Matches(rules[j], f)
    ensures FirstMatch(rules, f) == None
  {
    if rules != [] {
      assert !Matches(rules[0], f);
      FirstMatchNone(rules[1..], f);
    }
  }

  // ---- Validation ----

  predicate RequirementValid(r: Requirement) {
    && r.key != ""
    && match r.operator
       case In | NotIn => r.values != []
       case Exists | DoesNotExist => r.values == []
       case OtherOperator(_) => false
  }

  /** Some pod labels satisfy the requirement and some do not. */
  ghost predicate Contingent(r: Requirement) {
    (exists labels: Labels :: RequirementMatches(r, labels)) && (exists labels: Labels :: !RequirementMatches(r, labels))
  }

  /** Validation accepts exactly the requirements that have a key, can both hold and fail, and list
      no values where values are not looked at. */
  lemma ValidIsContingent(r: Requirement)
    ensures RequirementValid(r)
            <==> r.key != "" && Contingent(r) && (r.operator.Exists? || r.operator.DoesNotExist? ==> r.values == [])
  {
    var labelled := map[r.key := if r.values == [] then "" else r.values[0]];
    assert RequirementMatches(r, labelled) || !RequirementMatches(r, labelled);
    assert RequirementMatches(r, map[]) || !RequirementMatches(r, map[]);
  }

  predicate RequirementsValid(reqs: seq<Requirement>) {
    forall r <- reqs :: RequirementValid(r)
  }

  predicate MutationValid(m: Mutation) {
    match m.kind
    case SetHeader | AddHeader | RemoveHeader => m.header != ""
    case RewritePath => m.pathReplace != ""
    case OtherMutation(_) => false
  }

  predicate ActionValid(r: Rule) {
    match r.action
    case Allow | Deny => r.mutations == []
    case Modify => r.mutations != [] && forall m <- r.mutations :: MutationValid(m)
    case OtherAction(_) => false
  }

  predicate RuleValid(r: Rule) {
    && ActionValid(r)
    && (forall c <- r.match_.cidrs :: !c.Malformed?)
    && RequirementsValid(r.match_.pod.matchExpressions)
  }

  predicate RulesValid(rules: seq<Rule>) {
    forall r <- rules :: RuleValid(r)
  }

  /** The mutation says what it edits: a header, or the path. */
  predicate Targeted(m: Mutation) {
    || (m.kind == RewritePath && m.pathReplace != "")
    || (m.kind in {SetHeader, AddHeader, RemoveHeader} && m.header != "")
  }

  /** A valid rule has a known action and carries mutations exactly when it modifies, each saying
      what it edits; its networks parse and its expressions are valid. */
  lemma RuleValidExactly(r: Rule)
    ensures RuleValid(r) <==>
            && r.action in {Allow, Deny, Modify}
            && (r.mutations != [] <==> r.action == Modify)
            && (forall i :: 0 <= i < |r.mutations| ==> Targeted(r.mutations[i]))
            && (forall i :: 0 <= i < |r.match_.cidrs| ==> r.match_.cidrs[i].V4? || r.match_.cidrs[i].V6?)
            && (forall i :: 0 <= i < |r.match_.pod.matchExpressions| ==> RequirementValid(r.match_.pod.matchExpressions[i]))
  {
    forall i | 0 <= i < |r.mutations| ensures MutationValid(r.mutations[i]) <==> Targeted(r.mutations[i]) {
    }
    assert r.action.Modify? ==> ((forall m <- r.mutations :: MutationValid(m))
                                 <==> forall i :: 0 <= i < |r.mutations| ==> MutationValid(r.mutations[i]));
  }

  predicate PolicyValid(p: EgressPolicy) {
    && !p.defaultAction.OtherPosture?
    && RequirementsValid(p.podSelector.matchExpressions)
    && RulesValid(p.rules)
  }

  /** A valid policy has a known or unset posture, and only valid expressions and rules. */
  lemma PolicyValidExactly(p: EgressPolicy)
    ensures PolicyValid(p) <==>
            && p.defaultAction in {PostureUnset, PostureAllow, PostureDeny}
            && (forall i :: 0 <= i < |p.podSelector.matchExpressions| ==> RequirementValid(p.podSelector.matchExpressions[i]))
            && (forall i :: 0 <= i < |p.rules| ==> RuleValid(p.rules[i]))
  {
  }
}
