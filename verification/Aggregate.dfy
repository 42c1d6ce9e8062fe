/** Merging many policy resources into one node-wide policy. */
module Aggregate {
  import opened Base
  import opened Policy
  import opened Order

  /** One policy resource projected to the pure model; `None` is a nil policy. */
  datatype Resource =
    | Cluster(name: string, policy: Option<EgressPolicy>)
    | Namespaced(namespace: string, name: string, policy: Option<EgressPolicy>)

  type ClusterPolicy = c: Resource | c.Cluster? witness Cluster("", None)
  type NamespacedPolicy = c: Resource | c.Namespaced? witness Namespaced("", "", None)

  function ScopeOf(c: Resource): string {
    if c.Cluster? then "" else c.namespace
  }

  function SortKeyOf(c: Resource): SortKey {
    (ScopeOf(c), c.name)
  }

  // ---- Folding a subject selector into rules ----

  /** Merges the subject into a rule's pod selector; the subject's labels win a key clash. */
  function FoldInto(s: LabelSelector, p: PodSelector): PodSelector {
    if SelectorEmpty(s) then p
    else p.(labels := p.labels + s.matchLabels, matchExpressions := p.matchExpressions + s.matchExpressions)
  }

  function FoldRule(r: Rule, subject: LabelSelector, namespace: string): Rule {
    var pod := if namespace != "" then r.match_.pod.(namespace := namespace) else r.match_.pod;
    r.(match_ := r.match_.(pod := FoldInto(subject, pod)))
  }

  /** A Deny posture as a rule: it matches the governed pods and nothing else about the flow. */
  function SubjectCatchAll(name: string, subject: LabelSelector, namespace: string): Rule {
    var pod := FoldInto(subject, ZeroSelector.(namespace := namespace));
    Rule(name, Match(pod, [], [], [], [], ""), Deny, [])
  }

  /** A policy with this subject and namespace governs the pod behind `f`. */
  predicate Governs(subject: LabelSelector, namespace: string, f: Flow) {
    (namespace == "" || f.pod.namespace == namespace) && SelectorMatches(subject, f.labels)
  }

  /** What folding leaves of a rule's own selector: clashing labels and, in a namespaced
      policy, the namespace are overridden. */
  function Stripped(r: Rule, subject: LabelSelector, namespace: string): Rule {
    var pod := r.match_.pod;
    r.(match_ := r.match_.(pod := pod.(
         namespace := if namespace != "" then "" else pod.namespace,
         labels := pod.labels - subject.matchLabels.Keys)))
  }

  /** The rule's own selector contradicts neither the subject nor the namespace. */
  predicate Compatible(r: Rule, subject: LabelSelector, namespace: string) {
    var pod := r.match_.pod;
    && (namespace == "" || pod.namespace == "" || pod.namespace == namespace)
    && forall k <- pod.labels :: k in subject.matchLabels ==> pod.labels[k] == subject.matchLabels[k]
  }

  lemma MergedLabels(own: Labels, subject: Labels, labels: Labels)
    ensures LabelsMatch(own + subject, labels)
            <==> LabelsMatch(own - subject.Keys, labels) && LabelsMatch(subject, labels)
  {
    var merged := own + subject;
    if LabelsMatch(merged, labels) {
      forall k <- subject ensures Label(labels, k) == subject[k] {
        assert k in merged;
      }
      forall k <- own - subject.Keys ensures Label(labels, k) == own[k] {
        assert k in merged;
      }
    } else {
      var k :| k in merged && Label(labels, k) != merged[k];
      assert if k in subject then merged[k] == subject[k] else k in own - subject.Keys;
    }
  }

  lemma MergedExpressions(a: seq<Requirement>, b: seq<Requirement>, labels: Labels)
    ensures ExpressionsMatch(a + b, labels) <==> ExpressionsMatch(a, labels) && ExpressionsMatch(b, labels)
  {
    assert forall r <- a :: r in a + b;
    assert forall r <- b :: r in a + b;
  }

  lemma FoldIntoMeaning(s: LabelSelector, p: PodSelector, pod: PodInfo, labels: Labels)
    ensures PodMatches(FoldInto(s, p), pod, labels)
            <==> SelectorMatches(s, labels) && PodMatches(p.(labels := p.labels - s.matchLabels.Keys), pod, labels)
  {
    if SelectorEmpty(s) {
      assert p.labels - {} == p.labels;
    } else {
      MergedLabels(p.labels, s.matchLabels, labels);
      MergedExpressions(p.matchExpressions, s.matchExpressions, labels);
    }
  }

  /** A folded rule matches exactly the governed flows its remaining selector matches. */
  lemma FoldRuleMeaning(r: Rule, subject: LabelSelector, namespace: string, f: Flow)
    ensures Matches(FoldRule(r, subject, namespace), f)
            <==> Governs(subject, namespace, f) && Matches(Stripped(r, subject, namespace), f)
  {
    var pod := if namespace != "" then r.match_.pod.(namespace := namespace) else r.match_.pod;
    FoldIntoMeaning(subject, pod, f.pod, f.labels);
    DestIgnoresPod(r.match_, FoldInto(subject, pod), Stripped(r, subject, namespace).match_.pod, f);
  }

  lemma DestIgnoresPod(m: Match, pod: PodSelector, pod': PodSelector, f: Flow)
    ensures DestMatches(m.(pod := pod), f) == DestMatches(m.(pod := pod'), f) == DestMatches(m, f)
  {
  }

  /** Folding is conjunction up to contradiction: a folded match is always governed; a governed
      match survives folding; and a folded match is a match of the rule itself exactly when the
      rule was compatible with its policy. */
  lemma FoldExact(r: Rule, subject: LabelSelector, namespace: string, f: Flow)
    ensures Matches(FoldRule(r, subject, namespace), f) ==> Governs(subject, namespace, f)
    ensures Matches(r, f) && Governs(subject, namespace, f) ==> Matches(FoldRule(r, subject, namespace), f)
    ensures Matches(FoldRule(r, subject, namespace), f) ==> (Matches(r, f) <==> Compatible(r, subject, namespace))
  {
    FoldRuleMeaning(r, subject, namespace, f);
    DestIgnoresPod(r.match_, r.match_.pod, Stripped(r, subject, namespace).match_.pod, f);
    var own, left := r.match_.pod.labels, r.match_.pod.labels - subject.matchLabels.Keys;
    assert r.match_.(pod := r.match_.pod) == r.match_;
    if Governs(subject, namespace, f) {
      if LabelsMatch(own, f.labels) {
        forall k <- own | k in subject.matchLabels ensures own[k] == subject.matchLabels[k] {
          assert Label(f.labels, k) == own[k] && Label(f.labels, k) == subject.matchLabels[k];
        }
      }
      if LabelsMatch(left, f.labels) && Compatible(r, subject, namespace) {
        forall k <- own ensures Label(f.labels, k) == own[k] {
          assert k in left || k in subject.matchLabels;
        }
      }
    }
  }

  // ---- The merged policy ----

  function FoldAll(rules: seq<Rule>, subject: LabelSelector, namespace: string): seq<Rule> {
    if rules == [] then []
    else FoldAll(rules[..|rules| - 1], subject, namespace) + [FoldRule(rules[|rules| - 1], subject, namespace)]
  }

  function ExplicitRules(c: Resource): seq<Rule> {
    if c.policy.None? then [] else FoldAll(c.policy.value.rules, c.policy.value.podSelector, ScopeOf(c))
  }

  /** The resource sets a Deny posture. */
  predicate DeniesByDefault(c: Resource) {
    c.policy.Some? && EffectiveDefault(c.policy.value).PostureDeny?
  }

  /** An unselected cluster Deny is the node-wide posture; every other Deny is scoped. */
  predicate DeniesNode(c: Resource) {
    c.Cluster? && DeniesByDefault(c) && SelectorEmpty(c.policy.value.podSelector)
  }

  predicate SomeDeniesNode(cs: seq<Resource>) {
    exists c <- cs :: DeniesNode(c)
  }

  function CatchAllName(c: Resource): string {
    if c.Cluster? then "cluster-default-deny/" + c.name else "ns-default-deny/" + c.namespace + "/" + c.name
  }

  function CatchAlls(c: Resource): seq<Rule> {
    if !DeniesByDefault(c) || DeniesNode(c) then []
    else [SubjectCatchAll(CatchAllName(c), c.policy.value.podSelector, ScopeOf(c))]
  }

  function AllExplicit(cs: seq<Resource>): seq<Rule> {
    if cs == [] then [] else AllExplicit(cs[..|cs| - 1]) + ExplicitRules(cs[|cs| - 1])
  }

  function AllCatchAlls(cs: seq<Resource>): seq<Rule> {
    if cs == [] then [] else AllCatchAlls(cs[..|cs| - 1]) + CatchAlls(cs[|cs| - 1])
  }

  lemma ExtendLayers(cs: seq<Resource>, i: nat)
    requires i < |cs|
    ensures AllExplicit(cs[..i + 1]) == AllExplicit(cs[..i]) + ExplicitRules(cs[i])
    ensures AllCatchAlls(cs[..i + 1]) == AllCatchAlls(cs[..i]) + CatchAlls(cs[i])
  {
    assert cs[..i + 1][..i] == cs[..i];
  }

  lemma ExtendPosture(cs: seq<Resource>, i: nat)
    requires i < |cs|
    ensures SomeDeniesNode(cs[..i + 1]) <==> SomeDeniesNode(cs[..i]) || DeniesNode(cs[i])
  {
    assert cs[..i + 1] == cs[..i] + [cs[i]];
  }

  /** The policy merged from resources already in order. */
  function Merged(cl: seq<Resource>, ns: seq<Resource>): EgressPolicy {
    EgressPolicy(
      LabelSelector(map[], []),
      if SomeDeniesNode(cl) then PostureDeny else PostureAllow,
      AllExplicit(cl) + AllExplicit(ns) + AllCatchAlls(cl) + AllCatchAlls(ns))
  }

  method FoldRules(rules: seq<Rule>, subject: LabelSelector, namespace: string) returns (out: seq<Rule>)
    ensures out == FoldAll(rules, subject, namespace)
  {
    out := [];
    for i := 0 to |rules|
      invariant out == FoldAll(rules[..i], subject, namespace)
    {
      assert rules[..i + 1][..i] == rules[..i];
      out := out + [FoldRule(rules[i], subject, namespace)];
    }
    assert rules[..|rules|] == rules;
  }

  /** Sorts copies of the inputs and merges them; `cl` and `ns` are the orders used. */
  method Aggregate(cluster: seq<ClusterPolicy>, namespaced: seq<NamespacedPolicy>)
    returns (out: EgressPolicy, cl: seq<Resource>, ns: seq<Resource>)
    ensures multiset(cl) == multiset(cluster) && multiset(ns) == multiset(namespaced)
    ensures Sorted(cl, SortKeyOf) && Sorted(ns, SortKeyOf) && NameOrdered(cl, SortKeyOf) && NameOrdered(ns, SortKeyOf)
    ensures (forall c <- cl :: c.Cluster?) && (forall c <- ns :: c.Namespaced?)
    ensures forall i, j :: 0 <= i < j < |cl| ==> !Before(cl[j].name, cl[i].name)
    ensures forall i, j :: 0 <= i < j < |ns| ==> !Precedes((ns[j].namespace, ns[j].name), (ns[i].namespace, ns[i].name))
    ensures out == Merged(cl, ns)
  {
    cl := Sort<Resource>(cluster, SortKeyOf);
    ns := Sort<Resource>(namespaced, SortKeyOf);
    forall c <- cl ensures c.Cluster? {
      SameMember<Resource>(cl, cluster, c);
    }
    forall c <- ns ensures c.Namespaced? {
      SameMember<Resource>(ns, namespaced, c);
    }
    var rules, clusterCatchAlls, default := MergeCluster(cl);
    rules := AppendExplicit(rules, ns);
    rules := AppendCatchAlls(rules + clusterCatchAlls, ns);
    out := EgressPolicy(LabelSelector(map[], []), default, rules);
    ByNames(cl);
    ByNamespaces(ns);
  }

  lemma ByNames(cl: seq<Resource>)
    requires NameOrdered(cl, SortKeyOf) && forall c <- cl :: c.Cluster?
    ensures forall i, j :: 0 <= i < j < |cl| ==> !Before(cl[j].name, cl[i].name)
  {
    forall i, j | 0 <= i < j < |cl| ensures !Before(cl[j].name, cl[i].name) {
      assert !Precedes(SortKeyOf(cl[j]), SortKeyOf(cl[i]));
    }
  }

  lemma ByNamespaces(ns: seq<Resource>)
    requires NameOrdered(ns, SortKeyOf) && forall c <- ns :: c.Namespaced?
    ensures forall i, j :: 0 <= i < j < |ns| ==> !Precedes((ns[j].namespace, ns[j].name), (ns[i].namespace, ns[i].name))
  {
    forall i, j | 0 <= i < j < |ns|
      ensures !Precedes((ns[j].namespace, ns[j].name), (ns[i].namespace, ns[i].name))
    {
      assert !Precedes(SortKeyOf(ns[j]), SortKeyOf(ns[i]));
    }
  }

  /** A policy's explicit rules, scoped to its namespace and subject; none for a nil policy. */
  method FoldResource(c: Resource) returns (rules: seq<Rule>)
    ensures rules == ExplicitRules(c)
  {
    rules := [];
    if c.policy.Some? {
      rules := FoldRules(c.policy.value.rules, c.policy.value.podSelector, ScopeOf(c));
    }
  }

  /** Appends each namespaced policy's explicit rules. */
  method AppendExplicit(rules: seq<Rule>, ns: seq<NamespacedPolicy>) returns (out: seq<Rule>)
    ensures out == rules + AllExplicit(ns)
  {
    out := rules;
    for i := 0 to |ns|
      invariant out == rules + AllExplicit(ns[..i])
    {
      var folded := FoldResource(ns[i]);
      out := out + folded;
      ExtendLayers(ns, i);
      ConcatAssoc(rules, AllExplicit(ns[..i]), folded);
    }
    assert ns[..|ns|] == ns;
  }

  /** Appends a catch-all for each namespaced policy with a Deny posture. */
  method AppendCatchAlls(rules: seq<Rule>, ns: seq<NamespacedPolicy>) returns (out: seq<Rule>)
    ensures out == rules + AllCatchAlls(ns)
  {
    out := rules;
    for i := 0 to |ns|
      invariant out == rules + AllCatchAlls(ns[..i])
    {
      ghost var before := out;
      if DeniesByDefault(ns[i]) {
        var name := "ns-default-deny/" + ns[i].namespace + "/" + ns[i].name;
        out := out + [SubjectCatchAll(name, ns[i].policy.value.podSelector, ns[i].namespace)];
      }
      assert out == before + CatchAlls(ns[i]);
      ExtendLayers(ns, i);
      ConcatAssoc(rules, AllCatchAlls(ns[..i]), CatchAlls(ns[i]));
    }
    assert ns[..|ns|] == ns;
  }

  /** One cluster policy: its folded rules, its scoped catch-all, or a node-wide Deny. */
  method MergeOne(c: ClusterPolicy) returns (rules: seq<Rule>, catchAlls: seq<Rule>, denies: bool)
    ensures rules == ExplicitRules(c) && catchAlls == CatchAlls(c) && denies == DeniesNode(c)
  {
    rules, catchAlls, denies := [], [], false;
    if c.policy.Some? {
      var sub := c.policy.value.podSelector;
      rules := FoldResource(c);
      if EffectiveDefault(c.policy.value).PostureDeny? {
        if SelectorEmpty(sub) {
          denies := true;
        } else {
          catchAlls := [SubjectCatchAll("cluster-default-deny/" + c.name, sub, "")];
        }
      }
    }
  }

  method MergeCluster(cl: seq<ClusterPolicy>)
    returns (rules: seq<Rule>, catchAlls: seq<Rule>, default: Posture)
    ensures rules == AllExplicit(cl) && catchAlls == AllCatchAlls(cl)
    ensures default == if SomeDeniesNode(cl) then PostureDeny else PostureAllow
  {
    rules, catchAlls, default := [], [], PostureAllow;
    for i := 0 to |cl|
      invariant rules == AllExplicit(cl[..i]) && catchAlls == AllCatchAlls(cl[..i])
      invariant default == if SomeDeniesNode(cl[..i]) then PostureDeny else PostureAllow
    {
      var explicit, trailing, denies := MergeOne(cl[i]);
      rules, catchAlls := rules + explicit, catchAlls + trailing;
      if denies {
        default := PostureDeny;
      }
      ExtendLayers(cl, i);
      ExtendPosture(cl, i);
    }
    assert cl[..|cl|] == cl;
  }

  // ---- Layered meaning ----

  predicate GovernsFlow(c: Resource, f: Flow) {
    c.policy.Some? && Governs(c.policy.value.podSelector, ScopeOf(c), f)
  }

  function OrElse<T>(a: Option<T>, b: Option<T>): Option<T> {
    if a.Some? then a else b
  }

  /** The first rule of a governing policy that matches on its own terms. */
  function FirstStripped(rules: seq<Rule>, subject: LabelSelector, namespace: string, f: Flow): Option<Verdict> {
    if rules == [] then None
    else
      var last := rules[|rules| - 1];
      OrElse(FirstStripped(rules[..|rules| - 1], subject, namespace, f),
             if Matches(Stripped(last, subject, namespace), f) then Some(RuleVerdict(last)) else None)
  }

  /** What a resource says explicitly about a flow: nothing unless it governs the pod. */
  function ExplicitVerdict(c: Resource, f: Flow): Option<Verdict> {
    if GovernsFlow(c, f) then FirstStripped(c.policy.value.rules, c.policy.value.podSelector, ScopeOf(c), f) else None
  }

  /** The scoped default-deny of a resource: it reaches only pods the resource governs. */
  function DefaultVerdict(c: Resource, f: Flow): Option<Verdict> {
    if GovernsFlow(c, f) && DeniesByDefault(c) && !DeniesNode(c) then Some(Verdict(Deny, CatchAllName(c), []))
    else None
  }

  function FirstExplicit(cs: seq<Resource>, f: Flow): Option<Verdict> {
    if cs == [] then None else OrElse(FirstExplicit(cs[..|cs| - 1], f), ExplicitVerdict(cs[|cs| - 1], f))
  }

  function FirstDefault(cs: seq<Resource>, f: Flow): Option<Verdict> {
    if cs == [] then None else OrElse(FirstDefault(cs[..|cs| - 1], f), DefaultVerdict(cs[|cs| - 1], f))
  }

  function NodePosture(cl: seq<Resource>): Action {
    if SomeDeniesNode(cl) then Deny else Allow
  }

  /** Cluster rules, then namespaced rules, then scoped default-denies, then the node posture;
      at every layer a resource speaks only for the pods it governs. */
  function Layered(cl: seq<Resource>, ns: seq<Resource>, f: Flow): Verdict {
    var v := OrElse(OrElse(OrElse(FirstExplicit(cl, f), FirstExplicit(ns, f)), FirstDefault(cl, f)), FirstDefault(ns, f));
    if v.Some? then v.value else Verdict(NodePosture(cl), "", [])
  }

  function FirstVerdict(rules: seq<Rule>, f: Flow): Option<Verdict> {
    var m := FirstMatch(rules, f);
    if m.Some? then Some(RuleVerdict(m.value)) else None
  }

  lemma FirstVerdictConcat(a: seq<Rule>, b: seq<Rule>, f: Flow)
    ensures FirstVerdict(a + b, f) == OrElse(FirstVerdict(a, f), FirstVerdict(b, f))
  {
    FirstMatchConcat(a, b, f);
  }

  lemma FirstVerdictOne(r: Rule, f: Flow)
    ensures FirstVerdict([r], f) == if Matches(r, f) then Some(RuleVerdict(r)) else None
  {
    if Matches(r, f) {
      FirstMatchAt([r], f, 0);
    } else {
      FirstMatchNone([r], f);
    }
  }

  lemma {:induction false} FoldAllMeaning(rules: seq<Rule>, subject: LabelSelector, namespace: string, f: Flow)
    ensures FirstVerdict(FoldAll(rules, subject, namespace), f)
            == if Governs(subject, namespace, f) then FirstStripped(rules, subject, namespace, f) else None
  {
    if rules != [] {
      var n := |rules| - 1;
      FoldAllMeaning(rules[..n], subject, namespace, f);
      var folded := FoldRule(rules[n], subject, namespace);
      FirstVerdictConcat(FoldAll(rules[..n], subject, namespace), [folded], f);
      FirstVerdictOne(folded, f);
      FoldRuleMeaning(rules[n], subject, namespace, f);
    }
  }

  lemma {:induction false} AllExplicitMeaning(cs: seq<Resource>, f: Flow)
    ensures FirstVerdict(AllExplicit(cs), f) == FirstExplicit(cs, f)
  {
    if cs != [] {
      var n := |cs| - 1;
      AllExplicitMeaning(cs[..n], f);
      FirstVerdictConcat(AllExplicit(cs[..n]), ExplicitRules(cs[n]), f);
      if cs[n].policy.Some? {
        FoldAllMeaning(cs[n].policy.value.rules, cs[n].policy.value.podSelector, ScopeOf(cs[n]), f);
      }
    }
  }

  lemma CatchAllMeaning(name: string, subject: LabelSelector, namespace: string, f: Flow)
    ensures Matches(SubjectCatchAll(name, subject, namespace), f) <==> Governs(subject, namespace, f)
  {
    var base := ZeroSelector.(namespace := namespace);
    FoldIntoMeaning(subject, base, f.pod, f.labels);
    assert base.labels - subject.matchLabels.Keys == map[];
  }

  lemma {:induction false} AllCatchAllsMeaning(cs: seq<Resource>, f: Flow)
    ensures FirstVerdict(AllCatchAlls(cs), f) == FirstDefault(cs, f)
  {
    if cs != [] {
      var n := |cs| - 1;
      AllCatchAllsMeaning(cs[..n], f);
      FirstVerdictConcat(AllCatchAlls(cs[..n]), CatchAlls(cs[n]), f);
      if DeniesByDefault(cs[n]) && !DeniesNode(cs[n]) {
        CatchAllMeaning(CatchAllName(cs[n]), cs[n].policy.value.podSelector, ScopeOf(cs[n]), f);
        FirstVerdictOne(CatchAlls(cs[n])[0], f);
      }
    }
  }

  /** Evaluating the merged policy is the layered reading of its resources, on every flow. */
  lemma MergedMeaning(cl: seq<Resource>, ns: seq<Resource>, f: Flow)
    ensures Evaluate(Merged(cl, ns), f) == Layered(cl, ns, f)
  {
    AllExplicitMeaning(cl, f);
    AllExplicitMeaning(ns, f);
    AllCatchAllsMeaning(cl, f);
    AllCatchAllsMeaning(ns, f);
    FirstVerdictConcat(AllExplicit(cl), AllExplicit(ns), f);
    FirstVerdictConcat(AllExplicit(cl) + AllExplicit(ns), AllCatchAlls(cl), f);
    FirstVerdictConcat(AllExplicit(cl) + AllExplicit(ns) + AllCatchAlls(cl), AllCatchAlls(ns), f);
  }

  // ---- Whose verdict it is, by name ----

  /** Of the resources that speak explicitly about the flow, `c` is one, and precedes every other. */
  ghost predicate SpeaksFirst(cs: seq<Resource>, f: Flow, c: Resource) {
    && c in cs && ExplicitVerdict(c, f).Some?
    && forall x <- cs :: ExplicitVerdict(x, f).Some? && x != c ==> Precedes(SortKeyOf(c), SortKeyOf(x))
  }

  ghost predicate NoneSpeaks(cs: seq<Resource>, f: Flow) {
    forall x <- cs :: ExplicitVerdict(x, f).None?
  }

  lemma {:induction false} FirstExplicitFrom(cs: seq<Resource>, f: Flow) returns (i: nat)
    ensures i <= |cs| && forall j :: 0 <= j < i ==> ExplicitVerdict(cs[j], f).None?
    ensures if i < |cs| then ExplicitVerdict(cs[i], f).Some? && FirstExplicit(cs, f) == ExplicitVerdict(cs[i], f)
            else FirstExplicit(cs, f) == None
  {
    if cs == [] {
      i := 0;
    } else {
      var n := |cs| - 1;
      i := FirstExplicitFrom(cs[..n], f);
      if i == n && ExplicitVerdict(cs[n], f).None? {
        i := n + 1;
      }
    }
  }

  lemma SpokenFirst(given: seq<Resource>, cs: seq<Resource>, f: Flow, c: Resource)
    requires multiset(given) == multiset(cs) && NameOrdered(cs, SortKeyOf) && SpeaksFirst(given, f, c)
    ensures FirstExplicit(cs, f) == ExplicitVerdict(c, f)
  {
    var i := FirstExplicitFrom(cs, f);
    SameMember(given, cs, c);
    var j :| 0 <= j < |cs| && cs[j] == c;
    SameMember(cs, given, cs[i]);
    assert i < j ==> !Precedes(SortKeyOf(cs[j]), SortKeyOf(cs[i]));
  }

  lemma SpokenByNone(given: seq<Resource>, cs: seq<Resource>, f: Flow)
    requires multiset(given) == multiset(cs) && NoneSpeaks(given, f)
    ensures FirstExplicit(cs, f) == None
  {
    var i := FirstExplicitFrom(cs, f);
    if i < |cs| {
      SameMember(cs, given, cs[i]);
    }
  }

  lemma {:induction false} DefaultDenies(cs: seq<Resource>, f: Flow)
    ensures FirstDefault(cs, f).Some? <==> exists x <- cs :: DefaultVerdict(x, f).Some?
    ensures FirstDefault(cs, f).Some? ==> FirstDefault(cs, f).value.action == Deny
  {
    if cs != [] {
      var n := |cs| - 1;
      DefaultDenies(cs[..n], f);
      assert cs == cs[..n] + [cs[n]];
    }
  }

  /** In the merge of given resources, whatever order they were given in: the cluster resource that
      speaks first by name decides; failing any, the namespaced one that is first by namespace and
      then name; failing those, a scoped default-deny of any resource that governs the pod; and
      last the node posture. */
  lemma Precedence(cluster: seq<Resource>, namespaced: seq<Resource>, cl: seq<Resource>, ns: seq<Resource>, f: Flow, c: Resource)
    requires multiset(cl) == multiset(cluster) && NameOrdered(cl, SortKeyOf)
    requires multiset(ns) == multiset(namespaced) && NameOrdered(ns, SortKeyOf)
    ensures SpeaksFirst(cluster, f, c) ==> Some(Evaluate(Merged(cl, ns), f)) == ExplicitVerdict(c, f)
    ensures NoneSpeaks(cluster, f) && SpeaksFirst(namespaced, f, c) ==> Some(Evaluate(Merged(cl, ns), f)) == ExplicitVerdict(c, f)
    ensures NoneSpeaks(cluster, f) && NoneSpeaks(namespaced, f) ==>
              Evaluate(Merged(cl, ns), f).action ==
              if (exists x <- cluster + namespaced :: DefaultVerdict(x, f).Some?) || (exists x <- cluster :: DeniesNode(x))
              then Deny else Allow
  {
    MergedMeaning(cl, ns, f);
    if SpeaksFirst(cluster, f, c) {
      SpokenFirst(cluster, cl, f, c);
    } else if NoneSpeaks(cluster, f) {
      SpokenByNone(cluster, cl, f);
      if SpeaksFirst(namespaced, f, c) {
        SpokenFirst(namespaced, ns, f, c);
      } else if NoneSpeaks(namespaced, f) {
        SpokenByNone(namespaced, ns, f);
        DefaultsDecide(cluster, namespaced, cl, ns, f);
      }
    }
  }

  lemma DefaultsDecide(cluster: seq<Resource>, namespaced: seq<Resource>, cl: seq<Resource>, ns: seq<Resource>, f: Flow)
    requires multiset(cl) == multiset(cluster) && multiset(ns) == multiset(namespaced)
    requires FirstExplicit(cl, f) == None && FirstExplicit(ns, f) == None
    ensures Layered(cl, ns, f).action ==
            if (exists x <- cluster + namespaced :: DefaultVerdict(x, f).Some?) || (exists x <- cluster :: DeniesNode(x))
            then Deny else Allow
  {
    DefaultDenies(cl, f);
    DefaultDenies(ns, f);
    forall x: Resource ensures (x in cl <==> x in cluster) && (x in ns <==> x in namespaced) {
      assert (x in cl <==> x in multiset(cl)) && (x in cluster <==> x in multiset(cluster));
      assert (x in ns <==> x in multiset(ns)) && (x in namespaced <==> x in multiset(namespaced));
    }
  }

  // ---- Consequences ----

  lemma ExplicitExtend(cs: seq<Resource>, last: Resource, f: Flow)
    ensures FirstExplicit(cs + [last], f) == OrElse(FirstExplicit(cs, f), ExplicitVerdict(last, f))
  {
    assert (cs + [last])[..|cs|] == cs;
  }

  lemma {:induction false} ExplicitConcat(a: seq<Resource>, b: seq<Resource>, f: Flow)
    ensures FirstExplicit(a + b, f) == OrElse(FirstExplicit(a, f), FirstExplicit(b, f))
  {
    if b == [] {
      assert a + b == a;
    } else {
      var m := |b| - 1;
      ExplicitConcat(a, b[..m], f);
      ConcatAssoc(a, b[..m], [b[m]]);
      assert b == b[..m] + [b[m]];
      ExplicitExtend(a + b[..m], b[m], f);
      ExplicitExtend(b[..m], b[m], f);
    }
  }

  lemma DefaultExtend(cs: seq<Resource>, last: Resource, f: Flow)
    ensures FirstDefault(cs + [last], f) == OrElse(FirstDefault(cs, f), DefaultVerdict(last, f))
  {
    assert (cs + [last])[..|cs|] == cs;
  }

  lemma {:induction false} DefaultConcat(a: seq<Resource>, b: seq<Resource>, f: Flow)
    ensures FirstDefault(a + b, f) == OrElse(FirstDefault(a, f), FirstDefault(b, f))
  {
    if b == [] {
      assert a + b == a;
    } else {
      var m := |b| - 1;
      DefaultConcat(a, b[..m], f);
      ConcatAssoc(a, b[..m], [b[m]]);
      assert b == b[..m] + [b[m]];
      DefaultExtend(a + b[..m], b[m], f);
      DefaultExtend(b[..m], b[m], f);
    }
  }

  /** Resources that do not govern the flow's pod leave its layered verdict alone. */
  lemma LayerInsert(a: seq<Resource>, x: Resource, b: seq<Resource>, f: Flow)
    requires !GovernsFlow(x, f)
    ensures FirstExplicit(a + [x] + b, f) == FirstExplicit(a + b, f)
    ensures FirstDefault(a + [x] + b, f) == FirstDefault(a + b, f)
  {
    assert [x][..0] == [];
    ExplicitConcat(a, [x], f);
    ExplicitConcat(a + [x], b, f);
    ExplicitConcat(a, b, f);
    DefaultConcat(a, [x], f);
    DefaultConcat(a + [x], b, f);
    DefaultConcat(a, b, f);
  }

  /** An empty selector governs everyone, so a resource that misses a flow sets no node posture. */
  lemma NonGoverningNotNode(x: Resource, f: Flow)
    requires !GovernsFlow(x, f)
    ensures !DeniesNode(x)
  {
  }

  lemma PostureInsert(a: seq<Resource>, x: Resource, b: seq<Resource>)
    requires !DeniesNode(x)
    ensures NodePosture(a + [x] + b) == NodePosture(a + b)
  {
    if c :| c in a + [x] + b && DeniesNode(c) {
      assert c in a + b;
    }
    if c :| c in a + b && DeniesNode(c) {
      assert c in a + [x] + b;
    }
  }

  /** Non-interference: adding a namespaced resource, wherever it sorts, changes nothing for a
      flow it does not govern: a pod of another namespace, or one its selector misses. */
  lemma NamespacedNonInterference(cl: seq<Resource>, ns: seq<Resource>, x: Resource, ns': seq<Resource>, f: Flow)
    requires Sorted(ns, SortKeyOf) && UniqueKeys(ns, SortKeyOf) && Sorted(ns', SortKeyOf)
    requires multiset(ns') == multiset(ns) + multiset{x}
    requires !GovernsFlow(x, f)
    ensures Evaluate(Merged(cl, ns'), f) == Evaluate(Merged(cl, ns), f)
  {
    var i := SortedInsertion(ns, x, ns', SortKeyOf);
    assert ns == ns[..i] + ns[i..];
    LayerInsert(ns[..i], x, ns[i..], f);
    MergedMeaning(cl, ns, f);
    MergedMeaning(cl, ns', f);
  }

  /** The same for a cluster resource whose selector misses the flow. */
  lemma ClusterNonInterference(cl: seq<Resource>, ns: seq<Resource>, x: Resource, cl': seq<Resource>, f: Flow)
    requires Sorted(cl, SortKeyOf) && UniqueKeys(cl, SortKeyOf) && Sorted(cl', SortKeyOf)
    requires multiset(cl') == multiset(cl) + multiset{x}
    requires !GovernsFlow(x, f)
    ensures Evaluate(Merged(cl', ns), f) == Evaluate(Merged(cl, ns), f)
  {
    var i := SortedInsertion(cl, x, cl', SortKeyOf);
    assert cl == cl[..i] + cl[i..];
    LayerInsert(cl[..i], x, cl[i..], f);
    NonGoverningNotNode(x, f);
    PostureInsert(cl[..i], x, cl[i..]);
    MergedMeaning(cl, ns, f);
    MergedMeaning(cl', ns, f);
  }

  /** With unique names the merged policy does not depend on the order the inputs came in. */
  lemma OrderFree(cl: seq<Resource>, ns: seq<Resource>, cl': seq<Resource>, ns': seq<Resource>)
    requires Sorted(cl, SortKeyOf) && Sorted(ns, SortKeyOf) && Sorted(cl', SortKeyOf) && Sorted(ns', SortKeyOf)
    requires UniqueKeys(cl, SortKeyOf) && UniqueKeys(ns, SortKeyOf)
    requires multiset(cl) == multiset(cl') && multiset(ns) == multiset(ns')
    ensures Merged(cl, ns) == Merged(cl', ns')
  {
    SortedUnique(cl, cl', SortKeyOf);
    SortedUnique(ns, ns', SortKeyOf);
  }

  // ---- Validity ----

  ghost predicate ResourcesValid(cs: seq<Resource>) {
    forall c <- cs :: c.policy.Some? ==> PolicyValid(c.policy.value)
  }

  lemma RulesValidConcat(a: seq<Rule>, b: seq<Rule>)
    requires RulesValid(a) && RulesValid(b)
    ensures RulesValid(a + b)
  {
  }

  lemma FoldIntoValid(s: LabelSelector, p: PodSelector)
    requires RequirementsValid(s.matchExpressions) && RequirementsValid(p.matchExpressions)
    ensures RequirementsValid(FoldInto(s, p).matchExpressions)
  {
  }

  lemma {:induction false} FoldAllValid(rules: seq<Rule>, subject: LabelSelector, namespace: string)
    requires RulesValid(rules) && RequirementsValid(subject.matchExpressions)
    ensures RulesValid(FoldAll(rules, subject, namespace))
  {
    if rules != [] {
      var n := |rules| - 1;
      var r := rules[n];
      FoldAllValid(rules[..n], subject, namespace);
      assert RuleValid(r);
      FoldIntoValid(subject, if namespace != "" then r.match_.pod.(namespace := namespace) else r.match_.pod);
      RulesValidConcat(FoldAll(rules[..n], subject, namespace), [FoldRule(r, subject, namespace)]);
    }
  }

  lemma ResourceValid(c: Resource)
    requires c.policy.Some? ==> PolicyValid(c.policy.value)
    ensures RulesValid(ExplicitRules(c)) && RulesValid(CatchAlls(c))
  {
    if c.policy.Some? {
      FoldAllValid(c.policy.value.rules, c.policy.value.podSelector, ScopeOf(c));
      FoldIntoValid(c.policy.value.podSelector, ZeroSelector.(namespace := ScopeOf(c)));
    }
  }

  lemma {:induction false} LayersValid(cs: seq<Resource>)
    requires ResourcesValid(cs)
    ensures RulesValid(AllExplicit(cs)) && RulesValid(AllCatchAlls(cs))
  {
    if cs != [] {
      var n := |cs| - 1;
      LayersValid(cs[..n]);
      assert cs[n] in cs;
      ResourceValid(cs[n]);
      RulesValidConcat(AllExplicit(cs[..n]), ExplicitRules(cs[n]));
      RulesValidConcat(AllCatchAlls(cs[..n]), CatchAlls(cs[n]));
    }
  }

  /** Valid resources merge to a valid policy, so the engine never rejects the merge. */
  lemma MergedValid(cl: seq<Resource>, ns: seq<Resource>)
    requires ResourcesValid(cl) && ResourcesValid(ns)
    ensures PolicyValid(Merged(cl, ns))
  {
    LayersValid(cl);
    LayersValid(ns);
    RulesValidConcat(AllExplicit(cl), AllExplicit(ns));
    RulesValidConcat(AllExplicit(cl) + AllExplicit(ns), AllCatchAlls(cl));
    RulesValidConcat(AllExplicit(cl) + AllExplicit(ns) + AllCatchAlls(cl), AllCatchAlls(ns));
  }

  // ---- A single policy file ----

  /** Folds a policy's own subject selector away; a policy without one is kept as it is. */
  function Flatten(p: EgressPolicy): EgressPolicy {
    if SelectorEmpty(p.podSelector) then p else Merged([Cluster("policy", Some(p))], [])
  }

  ghost predicate AllCompatible(rules: seq<Rule>, subject: LabelSelector, namespace: string) {
    forall r <- rules :: Compatible(r, subject, namespace)
  }

  /** Where a policy governs, its compatible rules are read exactly as written. */
  lemma {:induction false} StrippedIsOwn(rules: seq<Rule>, subject: LabelSelector, namespace: string, f: Flow)
    requires AllCompatible(rules, subject, namespace) && Governs(subject, namespace, f)
    ensures FirstStripped(rules, subject, namespace, f) == FirstVerdict(rules, f)
  {
    if rules != [] {
      var n := |rules| - 1;
      StrippedIsOwn(rules[..n], subject, namespace, f);
      assert rules == rules[..n] + [rules[n]];
      FirstVerdictConcat(rules[..n], [rules[n]], f);
      FirstVerdictOne(rules[n], f);
      FoldExact(rules[n], subject, namespace, f);
      FoldRuleMeaning(rules[n], subject, namespace, f);
    }
  }

  /** Resources converted from the API carry no selector of their own in their rules, so wherever
      such a resource governs it says what its first matching rule says, and elsewhere nothing. */
  lemma ConvertedResource(c: Resource, f: Flow)
    requires c.policy.Some? && forall r <- c.policy.value.rules :: r.match_.pod == ZeroSelector
    ensures ExplicitVerdict(c, f) == if GovernsFlow(c, f) then FirstVerdict(c.policy.value.rules, f) else None
  {
    if GovernsFlow(c, f) {
      StrippedIsOwn(c.policy.value.rules, c.policy.value.podSelector, ScopeOf(c), f);
    }
  }

  function StripAll(rules: seq<Rule>, subject: LabelSelector, namespace: string): seq<Rule> {
    if rules == [] then []
    else StripAll(rules[..|rules| - 1], subject, namespace) + [Stripped(rules[|rules| - 1], subject, namespace)]
  }

  lemma {:induction false} StripAllMeaning(rules: seq<Rule>, subject: LabelSelector, namespace: string, f: Flow)
    ensures FirstVerdict(StripAll(rules, subject, namespace), f) == FirstStripped(rules, subject, namespace, f)
  {
    if rules != [] {
      var n := |rules| - 1;
      StripAllMeaning(rules[..n], subject, namespace, f);
      FirstVerdictConcat(StripAll(rules[..n], subject, namespace), [Stripped(rules[n], subject, namespace)], f);
      FirstVerdictOne(Stripped(rules[n], subject, namespace), f);
    }
  }

  /** What flattening overrides: a rule's own demands on labels the subject also names. */
  function Unclashed(p: EgressPolicy): EgressPolicy {
    p.(rules := StripAll(p.rules, p.podSelector, ""))
  }

  lemma UnclashedEvaluate(p: EgressPolicy, f: Flow)
    requires SelectorMatches(p.podSelector, f.labels)
    ensures Evaluate(Unclashed(p), f) == if FirstStripped(p.rules, p.podSelector, "", f).Some?
                                         then FirstStripped(p.rules, p.podSelector, "", f).value
                                         else Verdict(DefaultAction(p), "", [])
    ensures AllCompatible(p.rules, p.podSelector, "") ==> Evaluate(Unclashed(p), f) == Evaluate(p, f)
  {
    StripAllMeaning(p.rules, p.podSelector, "", f);
    if AllCompatible(p.rules, p.podSelector, "") {
      StrippedIsOwn(p.rules, p.podSelector, "", f);
    }
  }

  /** A policy that selects every pod overrides nothing. */
  lemma EmptySubjectCompatible(p: EgressPolicy)
    requires SelectorEmpty(p.podSelector)
    ensures AllCompatible(p.rules, p.podSelector, "")
  {
  }

  lemma SelectedFlatten(p: EgressPolicy, f: Flow)
    requires !SelectorEmpty(p.podSelector)
    ensures Evaluate(Flatten(p), f).action
            == if SelectorMatches(p.podSelector, f.labels) then Evaluate(Unclashed(p), f).action else Allow
  {
    var c := Cluster("policy", Some(p));
    MergedMeaning([c], [], f);
    assert [c][..0] == [];
    assert FirstExplicit([c], f) == OrElse(FirstExplicit([], f), ExplicitVerdict(c, f));
    assert FirstDefault([c], f) == OrElse(FirstDefault([], f), DefaultVerdict(c, f));
    assert !DeniesNode(c);
    if SelectorMatches(p.podSelector, f.labels) {
      UnclashedEvaluate(p, f);
    }
  }

  /** A flattened policy acts on the pods it selects as written, up to label demands the subject
      overrides, and allows all others; without such a clash it acts exactly as written. */
  lemma FlattenMeaning(p: EgressPolicy, f: Flow)
    ensures Evaluate(Flatten(p), f).action
            == if SelectorMatches(p.podSelector, f.labels) then Evaluate(Unclashed(p), f).action else Allow
    ensures AllCompatible(p.rules, p.podSelector, "") && SelectorMatches(p.podSelector, f.labels)
            ==> Evaluate(Flatten(p), f).action == Evaluate(p, f).action
  {
    if SelectorEmpty(p.podSelector) {
      EmptySubjectCompatible(p);
      UnclashedEvaluate(p, f);
    } else {
      SelectedFlatten(p, f);
      if SelectorMatches(p.podSelector, f.labels) {
        UnclashedEvaluate(p, f);
      }
    }
  }
}
