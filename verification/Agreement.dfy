/** When the programmed tables mean what the policy engine means. */
module Agreement {
  import opened Base
  import opened Lpm
  import opened Policy
  import opened Kernel
  import opened Programmer
  import opened Compiler

  // ---- Rules the datapath reads as the engine does ----

  /** `f` is a flow to `d`: of the known pod behind the cgroup, or of any process when the cgroup is
      no known pod; names and L7 fields are arbitrary. */
  predicate FlowFor(f: Flow, pods: Pods, d: Dest) {
    && f.dst == Some(Ip4(d.addr)) && f.port == d.port
    && (d.cgroup in pods ==> f.pod == pods[d.cgroup] && f.labels == pods[d.cgroup].labels)
  }

  /** The rule matches, but the datapath cannot say so: its shape or the matching CIDRs cannot be
      written, or the cgroup is unknown and the selector is not node-global. */
  predicate Missed(r: Rule, f: Flow, pods: Pods, d: Dest) {
    var m := r.match_;
    && Matches(r, f)
    && (|| !Programs(m)
        || (m.cidrs != [] && !WritesAddress(m, d.addr))
        || (d.cgroup !in pods && m.pod != ZeroSelector))
  }

  /** The rule lists port 0, which the datapath reads as any port, and so speaks about a port it
      does not list. */
  predicate Overreaches(r: Rule, pods: Pods, d: Dest) {
    var m := r.match_;
    && Programs(m) && SpeaksFor(m.pod, pods, d.cgroup)
    && 0 in m.ports && d.port !in m.ports && WritesAddress(m, d.addr)
  }

  /** The rule speaks about the destination exactly when it matches the flow. */
  ghost predicate Tracked(r: Rule, f: Flow, pods: Pods, d: Dest) {
    Matches(r, f) <==> RuleRank(r, pods, d) >= 0
  }

  lemma WritesWhatMatches(m: Match, f: Flow, d: Dest)
    requires f.dst == Some(Ip4(d.addr)) && WritesAddress(m, d.addr)
    ensures CidrsMatch(m.cidrs, f.dst)
  {
  }

  /** Destination sides agree for a programmable rule that can write its address. */
  lemma DestReads(m: Match, f: Flow, d: Dest)
    requires Programs(m) && f.dst == Some(Ip4(d.addr)) && f.port == d.port
    requires m.cidrs == [] || WritesAddress(m, d.addr)
    ensures DestMatches(m, f) <==> m.ports == [] || d.port in m.ports
  {
    if m.cidrs != [] {
      WritesWhatMatches(m, f, d);
    }
  }

  /** Engine and datapath read a rule alike exactly when it is neither missed nor overreaching. */
  lemma TrackedExactly(r: Rule, f: Flow, pods: Pods, d: Dest)
    requires 0 !in pods && FlowFor(f, pods, d)
    ensures Tracked(r, f, pods, d) <==> !Missed(r, f, pods, d) && !Overreaches(r, pods, d)
  {
    var m := r.match_;
    SpeaksExactly(r, pods, d);
    if Programs(m) && (m.cidrs == [] || WritesAddress(m, d.addr)) {
      DestReads(m, f, d);
      assert m.pod == ZeroSelector ==> PodMatches(m.pod, f.pod, f.labels);
    }
  }

  ghost predicate AllTracked(rules: seq<Rule>, f: Flow, pods: Pods, d: Dest) {
    forall r <- rules :: !Missed(r, f, pods, d) && !Overreaches(r, pods, d)
  }

  // ---- Agreement ----

  ghost predicate Agree(p: EgressPolicy, pods: Pods, d: Dest, f: Flow) {
    VerdictFor(CompileTable(p, pods), d) == ActionByte(Evaluate(p, f).action)
  }

  /** Position `i` is the first rule that matches, or the end when none does. */
  predicate FirstAt(rules: seq<Rule>, f: Flow, i: nat) {
    && i <= |rules|
    && (i < |rules| ==> Matches(rules[i], f))
    && forall j :: 0 <= j < i ==> !Matches(rules[j], f)
  }

  lemma {:induction false} FirstExists(rules: seq<Rule>, f: Flow) returns (i: nat)
    ensures FirstAt(rules, f, i)
  {
    i := 0;
    while i < |rules| && !Matches(rules[i], f)
      invariant i <= |rules|
      invariant forall j :: 0 <= j < i ==> !Matches(rules[j], f)
    {
      i := i + 1;
    }
  }

  lemma EngineAt(p: EgressPolicy, f: Flow, i: nat)
    requires FirstAt(p.rules, f, i)
    ensures ActionByte(Evaluate(p, f).action) == ByteAt(p.rules, ActionByte(DefaultAction(p)), i)
  {
    if i < |p.rules| {
      FirstMatchAt(p.rules, f, i);
    } else {
      FirstMatchNone(p.rules, f);
    }
  }

  lemma DatapathAt(p: EgressPolicy, pods: Pods, d: Dest, j: nat)
    requires TopAt(p.rules, pods, d, j)
    ensures VerdictFor(CompileTable(p, pods), d) == ByteAt(p.rules, ActionByte(DefaultAction(p)), j)
  {
    Denotation(p, pods, d);
    var w := BestByIndex(p.rules, pods, d, ActionByte(DefaultAction(p)));
    TopAtUnique(p.rules, pods, d, j, w);
  }

  /** The datapath agrees with the engine on a flow exactly when the first rule that matches it and
      the most specific rule that speaks about it act alike, the posture standing in for a missing
      one; for every policy, pod set and destination. */
  lemma AgreementExact(p: EgressPolicy, pods: Pods, d: Dest, f: Flow)
    ensures var base := ActionByte(DefaultAction(p));
            Agree(p, pods, d, f) <==>
            forall i: nat, j: nat :: FirstAt(p.rules, f, i) && TopAt(p.rules, pods, d, j) ==>
              ByteAt(p.rules, base, i) == ByteAt(p.rules, base, j)
  {
    var base := ActionByte(DefaultAction(p));
    var i := FirstExists(p.rules, f);
    var j := BestByIndex(p.rules, pods, d, base);
    EngineAt(p, f, i);
    DatapathAt(p, pods, d, j);
    forall i': nat, j': nat | FirstAt(p.rules, f, i') && TopAt(p.rules, pods, d, j')
      ensures ByteAt(p.rules, base, i') == ByteAt(p.rules, base, i) && ByteAt(p.rules, base, j') == ByteAt(p.rules, base, j)
    {
      EngineAt(p, f, i');
      DatapathAt(p, pods, d, j');
    }
  }

  /** Rule `i` is the first to speak about `d`. */
  ghost predicate FirstSpeaker(rules: seq<Rule>, pods: Pods, d: Dest, i: nat) {
    i < |rules| && RuleRank(rules[i], pods, d) >= 0 && forall j :: 0 <= j < i ==> RuleRank(rules[j], pods, d) == -1
  }

  /** For tracked rules the condition needs no flow: the first speaker and the most specific one act
      alike. */
  lemma AgreementByRank(p: EgressPolicy, pods: Pods, d: Dest, f: Flow)
    requires 0 !in pods && FlowFor(f, pods, d) && AllTracked(p.rules, f, pods, d)
    ensures Agree(p, pods, d, f) <==>
            forall i: nat, j: nat ::
              FirstSpeaker(p.rules, pods, d, i) && j < |p.rules| && TopAt(p.rules, pods, d, j) ==>
              ActionByte(p.rules[i].action) == ActionByte(p.rules[j].action)
  {
    var base := ActionByte(DefaultAction(p));
    var i := FirstExists(p.rules, f);
    var j := BestByIndex(p.rules, pods, d, base);
    EngineAt(p, f, i);
    DatapathAt(p, pods, d, j);
    MatchesAsSpeaks(p.rules, pods, d, f);
    assert j < |p.rules| <==> i < |p.rules|;
    assert i < |p.rules| ==> FirstSpeaker(p.rules, pods, d, i);
    forall i': nat, j': nat | FirstSpeaker(p.rules, pods, d, i') && j' < |p.rules| && TopAt(p.rules, pods, d, j')
      ensures i' == i && j' == j
    {
      TopAtUnique(p.rules, pods, d, j, j');
    }
  }

  lemma MatchesAsSpeaks(rules: seq<Rule>, pods: Pods, d: Dest, f: Flow)
    requires 0 !in pods && FlowFor(f, pods, d) && AllTracked(rules, f, pods, d)
    ensures forall i :: 0 <= i < |rules| ==> (Matches(rules[i], f) <==> RuleRank(rules[i], pods, d) >= 0)
    ensures forall i :: 0 <= i < |rules| ==> (!Matches(rules[i], f) <==> RuleRank(rules[i], pods, d) == -1)
  {
    forall i | 0 <= i < |rules|
      ensures Matches(rules[i], f) <==> RuleRank(rules[i], pods, d) >= 0
      ensures -1 <= RuleRank(rules[i], pods, d)
    {
      assert rules[i] in rules;
      TrackedExactly(rules[i], f, pods, d);
      RuleRankIsMax(rules[i], pods, d);
    }
  }

  // ---- A sufficient order, and where it is also necessary ----

  /** Rule `i` comes first and speaks about `d`, but the later rule `j` is more specific and
      acts differently. */
  ghost predicate Inversion(rules: seq<Rule>, pods: Pods, d: Dest, i: nat, j: nat) {
    && i < j < |rules|
    && 0 <= RuleRank(rules[i], pods, d) < RuleRank(rules[j], pods, d)
    && ActionByte(rules[i].action) != ActionByte(rules[j].action)
  }

  ghost predicate Ordered(rules: seq<Rule>, pods: Pods, d: Dest) {
    forall i, j :: !Inversion(rules, pods, d, i, j)
  }

  /** Without inversions most-specific-wins over the tables is first-match-wins over the rules. */
  lemma RefinesEngine(p: EgressPolicy, pods: Pods, d: Dest, f: Flow)
    requires 0 !in pods && FlowFor(f, pods, d) && AllTracked(p.rules, f, pods, d)
    requires Ordered(p.rules, pods, d)
    ensures Agree(p, pods, d, f)
  {
    AgreementByRank(p, pods, d, f);
    forall i: nat, j: nat | FirstSpeaker(p.rules, pods, d, i) && j < |p.rules| && TopAt(p.rules, pods, d, j)
      ensures ActionByte(p.rules[i].action) == ActionByte(p.rules[j].action)
    {
      assert !Inversion(p.rules, pods, d, i, j);
    }
  }

  /** An inversion between the first speaker and the most specific rule is a disagreement. */
  lemma InversionDisagrees(p: EgressPolicy, pods: Pods, d: Dest, f: Flow, i: nat, j: nat)
    requires 0 !in pods && FlowFor(f, pods, d) && AllTracked(p.rules, f, pods, d)
    requires FirstSpeaker(p.rules, pods, d, i) && TopAt(p.rules, pods, d, j) && Inversion(p.rules, pods, d, i, j)
    ensures !Agree(p, pods, d, f)
  {
    AgreementByRank(p, pods, d, f);
  }

  /** In a two-rule list an inversion is between the first speaker and the most specific rule. */
  lemma PairDecides(rules: seq<Rule>, pods: Pods, d: Dest)
    requires |rules| == 2 && Inversion(rules, pods, d, 0, 1)
    ensures FirstSpeaker(rules, pods, d, 0) && TopAt(rules, pods, d, 1)
  {
    var low, high := RuleRank(rules[0], pods, d), RuleRank(rules[1], pods, d);
    assert forall i :: 0 <= i < 2 ==> RuleRank(rules[i], pods, d) == if i == 0 then low else high;
  }

  ghost predicate Increasing(idx: seq<nat>, bound: nat) {
    && (forall a :: 0 <= a < |idx| ==> idx[a] < bound)
    && forall a, b :: 0 <= a < b < |idx| ==> idx[a] < idx[b]
  }

  function Pick(rules: seq<Rule>, idx: seq<nat>): (r: seq<Rule>)
    requires forall a :: 0 <= a < |idx| ==> idx[a] < |rules|
    ensures |r| == |idx| && forall a :: 0 <= a < |idx| ==> r[a] == rules[idx[a]]
  {
    seq(|idx|, a requires 0 <= a < |idx| => rules[idx[a]])
  }

  /** Keeping only the rules at the given positions. */
  function SubPolicy(p: EgressPolicy, idx: seq<nat>): EgressPolicy
    requires forall a :: 0 <= a < |idx| ==> idx[a] < |p.rules|
  {
    p.(rules := Pick(p.rules, idx))
  }

  lemma PickTracked(rules: seq<Rule>, idx: seq<nat>, f: Flow, pods: Pods, d: Dest)
    requires Increasing(idx, |rules|) && AllTracked(rules, f, pods, d)
    ensures AllTracked(Pick(rules, idx), f, pods, d)
  {
    forall r <- Pick(rules, idx) ensures r in rules {
      var a :| 0 <= a < |idx| && Pick(rules, idx)[a] == r;
      assert r == rules[idx[a]];
    }
  }

  lemma PickOrdered(rules: seq<Rule>, idx: seq<nat>, pods: Pods, d: Dest)
    requires Increasing(idx, |rules|) && Ordered(rules, pods, d)
    ensures Ordered(Pick(rules, idx), pods, d)
  {
    forall a: nat, b: nat ensures !Inversion(Pick(rules, idx), pods, d, a, b) {
      if Inversion(Pick(rules, idx), pods, d, a, b) {
        assert Inversion(rules, pods, d, idx[a], idx[b]);
        assert false;
      }
    }
  }

  /** Exactly the inversion-free policies keep agreeing whichever of their rules are removed. */
  lemma HereditaryAgreement(p: EgressPolicy, pods: Pods, d: Dest, f: Flow)
    requires 0 !in pods && FlowFor(f, pods, d) && AllTracked(p.rules, f, pods, d)
    ensures Ordered(p.rules, pods, d)
            <==> forall idx :: Increasing(idx, |p.rules|) ==> Agree(SubPolicy(p, idx), pods, d, f)
  {
    if Ordered(p.rules, pods, d) {
      forall idx | Increasing(idx, |p.rules|) ensures Agree(SubPolicy(p, idx), pods, d, f) {
        PickOrdered(p.rules, idx, pods, d);
        PickTracked(p.rules, idx, f, pods, d);
        RefinesEngine(SubPolicy(p, idx), pods, d, f);
      }
    } else {
      var i, j :| Inversion(p.rules, pods, d, i, j);
      assert Increasing([i, j], |p.rules|);
      PickTracked(p.rules, [i, j], f, pods, d);
      assert Inversion(SubPolicy(p, [i, j]).rules, pods, d, 0, 1);
      PairDecides(SubPolicy(p, [i, j]).rules, pods, d);
      InversionDisagrees(SubPolicy(p, [i, j]), pods, d, f, 0, 1);
    }
  }

  // ---- Inputs that disagree ----

  /** A rule with one key that covers the destination ranks as that key does. */
  lemma SingleKeyRank(r: Rule, pods: Pods, d: Dest, k: Key)
    requires RuleKeys(r, pods) == {k} && Covers(k, d)
    ensures RuleRank(r, pods, d) == Rank(k, d)
  {
    RuleRankIsMax(r, pods, d);
    var w := TopRankWitness(RuleKeys(r, pods), d, 71);
  }

  const AnySubject := LabelSelector(map[], [])

  /** A destination match on one host and port, or on one network. */
  function OneTarget(sel: PodSelector, c: Cidr, ports: seq<U16>): Match {
    Match(sel, [], [c], ports, [], "")
  }

  function TargetKey(cg: U64, c: Cidr, ports: seq<U16>): Key
    requires CidrWritable(c, ports)
  {
    if ports == [] then CidrKey(cg, c.net, c.ones) else VerdictKey(cg, c.net, ports[0])
  }

  lemma OneTargetKeys(sel: PodSelector, pods: Pods, cg: U64, c: Cidr, ports: seq<U16>, act: Action)
    requires CidrWritable(c, ports) && |ports| <= 1 && MatchCgroups(sel, pods) == {cg}
    ensures RuleKeys(Rule("", OneTarget(sel, c, ports), act, []), pods) == {TargetKey(cg, c, ports)}
  {
    var m := OneTarget(sel, c, ports);
    var k := TargetKey(cg, c, ports);
    assert CidrKeys(cg, c, ports) == {k} by {
      assert ports != [] ==> ports == [ports[0]];
    }
    assert CidrListKeys(cg, [c], ports) == {k} by {
      assert c in [c];
    }
    assert CgroupKeys(cg, m) == {k};
    assert KeysFor({cg}, m) == {k};
  }

  /** A node-wide Deny of a target, then a namespace's Allow of the same target. */
  function ClusterThenNamespace(namespace: string, c: Cidr, ports: seq<U16>): EgressPolicy {
    EgressPolicy(AnySubject, PostureAllow, [
      Rule("", OneTarget(ZeroSelector, c, ports), Deny, []),
      Rule("", OneTarget(ZeroSelector.(namespace := namespace), c, ports), Allow, [])])
  }

  lemma ScopesInverted(cg: U64, pod: PodInfo, c: Cidr, ports: seq<U16>, d: Dest, f: Flow)
    requires cg == d.cgroup != 0 && pod.namespace != "" && (ports == [] || (ports == [d.port] && d.port != 0))
    requires CidrWritable(c, ports) && InNet(c.net, c.ones, d.addr)
    ensures var p := ClusterThenNamespace(pod.namespace, c, ports);
            AllTracked(p.rules, f, map[cg := pod], d) && Inversion(p.rules, map[cg := pod], d, 0, 1)
  {
    var p, pods := ClusterThenNamespace(pod.namespace, c, ports), map[cg := pod];
    var own := ZeroSelector.(namespace := pod.namespace);
    assert MatchCgroups(ZeroSelector, pods) == {0};
    assert MatchCgroups(own, pods) == {cg};
    OneTargetKeys(ZeroSelector, pods, 0, c, ports, Deny);
    OneTargetKeys(own, pods, cg, c, ports, Allow);
    SingleKeyRank(p.rules[0], pods, d, TargetKey(0, c, ports));
    SingleKeyRank(p.rules[1], pods, d, TargetKey(cg, c, ports));
    TargetTracked(p.rules[0], c, ports, f, pods, d);
    TargetTracked(p.rules[1], c, ports, f, pods, d);
  }

  /** The cluster rule comes first, so the engine denies; the pod's own entry is more specific, so
      the datapath allows. This holds for a network and for a single host and port alike. */
  lemma ScopesDisagree(cg: U64, pod: PodInfo, c: Cidr, ports: seq<U16>, d: Dest, f: Flow)
    requires cg == d.cgroup != 0 && pod.namespace != "" && (ports == [] || (ports == [d.port] && d.port != 0))
    requires CidrWritable(c, ports) && InNet(c.net, c.ones, d.addr) && FlowFor(f, map[cg := pod], d)
    ensures var p, pods := ClusterThenNamespace(pod.namespace, c, ports), map[cg := pod];
            && PolicyValid(p)
            && Evaluate(p, f).action == Deny && VerdictFor(CompileTable(p, pods), d) == ActionAllow
  {
    var p, pods := ClusterThenNamespace(pod.namespace, c, ports), map[cg := pod];
    ScopesInverted(cg, pod, c, ports, d, f);
    PairDecides(p.rules, pods, d);
    MatchesAsSpeaks(p.rules, pods, d, f);
    DatapathAt(p, pods, d, 1);
    FirstMatchAt(p.rules, f, 0);
  }

  lemma TargetTracked(r: Rule, c: Cidr, ports: seq<U16>, f: Flow, pods: Pods, d: Dest)
    requires r.match_ == OneTarget(r.match_.pod, c, ports) && d.cgroup in pods
    requires CidrWritable(c, ports) && InNet(c.net, c.ones, d.addr) && 0 !in ports
    ensures !Missed(r, f, pods, d) && !Overreaches(r, pods, d)
  {
    assert c in r.match_.cidrs;
    assert WritesAddress(r.match_, d.addr);
  }

  /** A policy of one Deny rule over an Allow posture. */
  function DenyOnly(m: Match): EgressPolicy {
    EgressPolicy(AnySubject, PostureAllow, [Rule("", m, Deny, [])])
  }

  /** A flow from a process that is no known pod. */
  function AnonymousFlow(addr: U32, port: U16): Flow {
    Flow(PodInfo("", "", "", map[]), map[], Some(Ip4(addr)), port, "", "", "")
  }

  /** A missed rule: a selector of negative requirements matches an unlabelled process in the
      engine, but no cgroup is ever programmed for it. */
  lemma UnknownCgroupDiverges(cg: U64, addr: U32, port: U16)
    ensures
      var sel := ZeroSelector.(matchExpressions := [Requirement("app", DoesNotExist, [])]);
      var p, f, d := DenyOnly(Match(sel, [], [], [], [], "")), AnonymousFlow(addr, port), Dest(cg, addr, port);
      && PolicyValid(p) && Missed(p.rules[0], f, map[], d)
      && Evaluate(p, f).action == Deny && VerdictFor(CompileTable(p, map[]), d) == ActionAllow
  {
    var sel := ZeroSelector.(matchExpressions := [Requirement("app", DoesNotExist, [])]);
    var p, f, d := DenyOnly(Match(sel, [], [], [], [], "")), AnonymousFlow(addr, port), Dest(cg, addr, port);
    SpeaksExactly(p.rules[0], map[], d);
    RuleRankIsMax(p.rules[0], map[], d);
    DatapathAt(p, map[], d, 1);
    FirstMatchAt(p.rules, f, 0);
  }

  /** An overreaching rule: port 0 programs the any-port key. */
  lemma PortZeroDiverges(cg: U64, addr: U32, port: U16)
    requires port != 0
    ensures
      var p := DenyOnly(OneTarget(ZeroSelector, V4(addr, 32), [0]));
      var f, d := AnonymousFlow(addr, port), Dest(cg, addr, port);
      && PolicyValid(p) && Overreaches(p.rules[0], map[], d)
      && Evaluate(p, f).action == Allow && VerdictFor(CompileTable(p, map[]), d) == ActionDeny
  {
    var c: Cidr := V4(addr, 32);
    var p := DenyOnly(OneTarget(ZeroSelector, c, [0]));
    var f, d := AnonymousFlow(addr, port), Dest(cg, addr, port);
    assert c in p.rules[0].match_.cidrs;
    assert WritesAddress(p.rules[0].match_, addr);
    SpeaksExactly(p.rules[0], map[], d);
    DatapathAt(p, map[], d, 0);
    FirstMatchNone(p.rules, f);
  }
}
