/** From policy resources to dropped packets: the stages composed. */
module Pipeline {
  import opened Base
  import opened Policy
  import opened Order
  import opened Aggregate
  import opened Kernel
  import opened Programmer
  import opened Compiler
  import opened Agreement
  import opened Datapath

  // ---- Isolation in the datapath ----

  /** The engine's view of the pod behind a cgroup, as far as governing goes. */
  predicate GovernsPod(c: Resource, pod: PodInfo) {
    && c.policy.Some?
    && (ScopeOf(c) == "" || pod.namespace == ScopeOf(c))
    && SelectorMatches(c.policy.value.podSelector, pod.labels)
  }

  ghost predicate AllSilent(rules: seq<Rule>, pods: Pods, d: Dest) {
    forall r <- rules :: RuleRank(r, pods, d) == -1
  }

  lemma FoldedSilent(pod: PodSelector, subject: LabelSelector, r: Rule, pods: Pods, d: Dest)
    requires 0 !in pods && d.cgroup in pods
    requires r.match_.pod == FoldInto(subject, pod)
    requires (pod.namespace != "" && pod.namespace != pods[d.cgroup].namespace)
             || !SelectorMatches(subject, pods[d.cgroup].labels)
    ensures RuleRank(r, pods, d) == -1
  {
    FoldIntoMeaning(subject, pod, pods[d.cgroup], pods[d.cgroup].labels);
    UnmatchedRuleSilent(r, pods, d);
  }

  lemma {:induction false} FoldAllSilent(rules: seq<Rule>, subject: LabelSelector, namespace: string, pods: Pods, d: Dest)
    requires 0 !in pods && d.cgroup in pods
    requires (namespace != "" && namespace != pods[d.cgroup].namespace)
             || !SelectorMatches(subject, pods[d.cgroup].labels)
    ensures AllSilent(FoldAll(rules, subject, namespace), pods, d)
  {
    if rules != [] {
      var n := |rules| - 1;
      var own := rules[n].match_.pod;
      FoldAllSilent(rules[..n], subject, namespace, pods, d);
      FoldedSilent(if namespace != "" then own.(namespace := namespace) else own, subject,
                   FoldRule(rules[n], subject, namespace), pods, d);
    }
  }

  /** A resource that does not govern a pod writes nothing about it. */
  lemma ResourceSilent(x: Resource, pods: Pods, d: Dest)
    requires 0 !in pods && d.cgroup in pods && !GovernsPod(x, pods[d.cgroup])
    ensures AllSilent(ExplicitRules(x), pods, d) && AllSilent(CatchAlls(x), pods, d)
  {
    if x.policy.Some? {
      var subject := x.policy.value.podSelector;
      FoldAllSilent(x.policy.value.rules, subject, ScopeOf(x), pods, d);
      FoldedSilent(ZeroSelector.(namespace := ScopeOf(x)), subject,
                   SubjectCatchAll(CatchAllName(x), subject, ScopeOf(x)), pods, d);
    }
  }

  lemma {:induction false} ExplicitConcat(a: seq<Resource>, b: seq<Resource>)
    ensures AllExplicit(a + b) == AllExplicit(a) + AllExplicit(b)
  {
    if b == [] {
      assert a + b == a;
    } else {
      var m := |b| - 1;
      ExplicitConcat(a, b[..m]);
      assert (a + b)[..|a + b| - 1] == a + b[..m] && (a + b)[|a + b| - 1] == b[m];
      ConcatAssoc(AllExplicit(a), AllExplicit(b[..m]), ExplicitRules(b[m]));
    }
  }

  lemma {:induction false} CatchAllsConcat(a: seq<Resource>, b: seq<Resource>)
    ensures AllCatchAlls(a + b) == AllCatchAlls(a) + AllCatchAlls(b)
  {
    if b == [] {
      assert a + b == a;
    } else {
      var m := |b| - 1;
      CatchAllsConcat(a, b[..m]);
      assert (a + b)[..|a + b| - 1] == a + b[..m] && (a + b)[|a + b| - 1] == b[m];
      ConcatAssoc(AllCatchAlls(a), AllCatchAlls(b[..m]), CatchAlls(b[m]));
    }
  }

  lemma LayersConcat(a: seq<Resource>, b: seq<Resource>)
    ensures AllExplicit(a + b) == AllExplicit(a) + AllExplicit(b)
    ensures AllCatchAlls(a + b) == AllCatchAlls(a) + AllCatchAlls(b)
  {
    ExplicitConcat(a, b);
    CatchAllsConcat(a, b);
  }

  lemma LayersInsert(a: seq<Resource>, x: Resource, b: seq<Resource>)
    ensures AllExplicit(a + [x] + b) == AllExplicit(a) + ExplicitRules(x) + AllExplicit(b)
    ensures AllCatchAlls(a + [x] + b) == AllCatchAlls(a) + CatchAlls(x) + AllCatchAlls(b)
  {
    LayersConcat(a + [x], b);
    assert (a + [x])[..|a|] == a;
  }

  /** Inserting silent rules at two places changes no winner. */
  lemma SilentTwice(p: seq<Rule>, a: seq<Rule>, x: seq<Rule>, b: seq<Rule>, q: seq<Rule>,
                    c: seq<Rule>, y: seq<Rule>, e: seq<Rule>, r: seq<Rule>, pods: Pods, d: Dest, base: Byte)
    requires AllSilent(x, pods, d) && AllSilent(y, pods, d)
    ensures Best(p + (a + x + b) + q + (c + y + e) + r, pods, d, base) == Best(p + (a + b) + q + (c + e) + r, pods, d, base)
  {
    var front := p + (a + x + b) + q + c;
    assert p + (a + x + b) + q + (c + y + e) + r == front + y + (e + r);
    SilentRules(front, y, e + r, pods, d, base);
    var end := b + q + c + e + r;
    assert front + (e + r) == (p + a) + x + end;
    SilentRules(p + a, x, end, pods, d, base);
    assert (p + a) + end == p + (a + b) + q + (c + e) + r;
  }

  /** Isolation in the kernel: adding a namespaced resource, wherever it sorts, leaves the
      compiled tables' verdicts for every pod it does not govern as they were, whatever the
      other policies and however they conflict. */
  lemma NamespacedIsolation(cl: seq<Resource>, ns: seq<Resource>, x: Resource, ns': seq<Resource>, pods: Pods, d: Dest)
    requires Sorted(ns, SortKeyOf) && UniqueKeys(ns, SortKeyOf) && Sorted(ns', SortKeyOf)
    requires multiset(ns') == multiset(ns) + multiset{x}
    requires 0 !in pods && d.cgroup in pods && !GovernsPod(x, pods[d.cgroup])
    ensures VerdictFor(CompileTable(Merged(cl, ns'), pods), d) == VerdictFor(CompileTable(Merged(cl, ns), pods), d)
  {
    var i := SortedInsertion(ns, x, ns', SortKeyOf);
    assert ns == ns[..i] + ns[i..];
    InsertedNamespaced(cl, ns[..i], x, ns[i..], pods, d, ActionByte(DefaultAction(Merged(cl, ns))));
    Denotation(Merged(cl, ns), pods, d);
    Denotation(Merged(cl, ns'), pods, d);
  }

  lemma InsertedNamespaced(cl: seq<Resource>, a: seq<Resource>, x: Resource, b: seq<Resource>, pods: Pods, d: Dest, base: Byte)
    requires 0 !in pods && d.cgroup in pods && !GovernsPod(x, pods[d.cgroup])
    ensures Best(Merged(cl, a + [x] + b).rules, pods, d, base) == Best(Merged(cl, a + b).rules, pods, d, base)
  {
    LayersInsert(a, x, b);
    LayersConcat(a, b);
    ResourceSilent(x, pods, d);
    SilentTwice(AllExplicit(cl), AllExplicit(a), ExplicitRules(x), AllExplicit(b), AllCatchAlls(cl),
                AllCatchAlls(a), CatchAlls(x), AllCatchAlls(b), [], pods, d, base);
    assert Merged(cl, a + [x] + b).rules + [] == Merged(cl, a + [x] + b).rules;
    assert Merged(cl, a + b).rules + [] == Merged(cl, a + b).rules;
  }

  /** The same for a cluster resource whose selector misses the pod. */
  lemma ClusterIsolation(cl: seq<Resource>, ns: seq<Resource>, x: Resource, cl': seq<Resource>, pods: Pods, d: Dest)
    requires Sorted(cl, SortKeyOf) && UniqueKeys(cl, SortKeyOf) && Sorted(cl', SortKeyOf)
    requires multiset(cl') == multiset(cl) + multiset{x}
    requires 0 !in pods && d.cgroup in pods && !GovernsPod(x, pods[d.cgroup])
    ensures VerdictFor(CompileTable(Merged(cl', ns), pods), d) == VerdictFor(CompileTable(Merged(cl, ns), pods), d)
  {
    var i := SortedInsertion(cl, x, cl', SortKeyOf);
    assert cl == cl[..i] + cl[i..];
    assert !DeniesNode(x);
    PostureInsert(cl[..i], x, cl[i..]);
    InsertedCluster(cl[..i], x, cl[i..], ns, pods, d, ActionByte(DefaultAction(Merged(cl, ns))));
    Denotation(Merged(cl, ns), pods, d);
    Denotation(Merged(cl', ns), pods, d);
  }

  lemma InsertedCluster(a: seq<Resource>, x: Resource, b: seq<Resource>, ns: seq<Resource>, pods: Pods, d: Dest, base: Byte)
    requires 0 !in pods && d.cgroup in pods && !GovernsPod(x, pods[d.cgroup])
    ensures Best(Merged(a + [x] + b, ns).rules, pods, d, base) == Best(Merged(a + b, ns).rules, pods, d, base)
  {
    LayersInsert(a, x, b);
    LayersConcat(a, b);
    ResourceSilent(x, pods, d);
    SilentTwice([], AllExplicit(a), ExplicitRules(x), AllExplicit(b), AllExplicit(ns),
                AllCatchAlls(a), CatchAlls(x), AllCatchAlls(b), AllCatchAlls(ns), pods, d, base);
    assert [] + AllExplicit(a + [x] + b) == AllExplicit(a + [x] + b) && [] + AllExplicit(a + b) == AllExplicit(a + b);
  }

  // ---- From resources to packets ----

  lemma DropIsRefusal(m: Machine, p: Skb, proto: Byte, d: Dest)
    requires WellFormedV4(p, proto, d.addr, d.port) && p.cgroup == d.cgroup
    requires proto == Tcp || (proto == Udp && d.port != 53)
    ensures Egress(m, p).code == 0 <==> Refuses(m, d)
  {
    DropExactly(m, p);
  }

  /** With the merged policy programmed, and neither an inversion nor a rule whose keys misrepresent
      it at the destination, a well-formed TCP or non-DNS UDP packet is dropped exactly when
      enforcement is on, not dry, and the layered reading of the resources denies its flow. */
  lemma PacketFollowsPolicy(cl: seq<Resource>, ns: seq<Resource>, pods: Pods, cfg: Option<Config>, p: Skb, proto: Byte, d: Dest, f: Flow)
    requires 0 !in pods && FlowFor(f, pods, d)
    requires var merged := Merged(cl, ns); AllTracked(merged.rules, f, pods, d) && Ordered(merged.rules, pods, d)
    requires WellFormedV4(p, proto, d.addr, d.port) && p.cgroup == d.cgroup
    requires proto == Tcp || (proto == Udp && d.port != 53)
    ensures var m := Machine(cfg, CompileTable(Merged(cl, ns), pods));
            Egress(m, p).code == 0 <==>
            cfg.Some? && cfg.value.enabled != 0 && cfg.value.dryRun == 0 && Layered(cl, ns, f).action == Deny
  {
    var m := Machine(cfg, CompileTable(Merged(cl, ns), pods));
    DropIsRefusal(m, p, proto, d);
    RefinesEngine(Merged(cl, ns), pods, d, f);
    MergedMeaning(cl, ns, f);
  }
}
