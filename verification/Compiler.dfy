/** What the programmed tables mean for every destination. */
module Compiler {
  import opened Base
  import opened Lpm
  import opened Policy
  import opened Kernel
  import opened Programmer

  // ---- Denotation ----

  /** The rank of the most specific key in `keys` that covers `d`, or -1. */
  ghost function TopRank(keys: set<Key>, d: Dest, bound: int): int
    decreases bound + 1
  {
    if bound < 0 then -1
    else if exists k <- keys :: Covers(k, d) && Rank(k, d) == bound then bound
    else TopRank(keys, d, bound - 1)
  }

  ghost function RuleRank(r: Rule, pods: Pods, d: Dest): int {
    TopRank(RuleKeys(r, pods), d, 71)
  }

  datatype Winner = Winner(rank: int, act: Byte)

  /** Reference meaning of a rule list in the datapath: scan the rules keeping the most
      specific one that speaks about `d`; ties go to the earlier rule, and the posture
      stands in as a node-global default. */
  ghost function Best(rules: seq<Rule>, pods: Pods, d: Dest, base: Byte): Winner {
    if rules == [] then Winner(Rank(GlobalDefault, d), base)
    else
      var rest := Best(rules[1..], pods, d, base);
      var rank := RuleRank(rules[0], pods, d);
      if rank >= rest.rank then Winner(rank, ActionByte(rules[0].action)) else rest
  }

  lemma {:induction false} TopRankBounds(keys: set<Key>, d: Dest, bound: int)
    requires -1 <= bound
    ensures -1 <= TopRank(keys, d, bound) <= bound
    ensures forall k <- keys :: Covers(k, d) && Rank(k, d) <= bound ==> Rank(k, d) <= TopRank(keys, d, bound)
    decreases bound + 1
  {
    if bound >= 0 {
      TopRankBounds(keys, d, bound - 1);
    }
  }

  lemma {:induction false} TopRankWitness(keys: set<Key>, d: Dest, bound: int) returns (k: Key)
    requires TopRank(keys, d, bound) >= 0
    ensures k in keys && Covers(k, d) && Rank(k, d) == TopRank(keys, d, bound)
    decreases bound + 1
  {
    if exists k <- keys :: Covers(k, d) && Rank(k, d) == bound {
      k :| k in keys && Covers(k, d) && Rank(k, d) == bound;
    } else {
      k := TopRankWitness(keys, d, bound - 1);
    }
  }

  /** No covering key is less specific than the node-global default. */
  lemma RankRange(k: Key, d: Dest)
    requires Covers(k, d)
    ensures Rank(GlobalDefault, d) <= Rank(k, d) <= 71
  {
  }

  /** `RuleRank` is the greatest rank among the keys the rule writes that cover `d`. */
  lemma RuleRankIsMax(r: Rule, pods: Pods, d: Dest)
    ensures -1 <= RuleRank(r, pods, d) <= 71
    ensures forall k <- RuleKeys(r, pods) :: Covers(k, d) ==> Rank(k, d) <= RuleRank(r, pods, d)
    ensures RuleRank(r, pods, d) >= 0 <==> exists k <- RuleKeys(r, pods) :: Covers(k, d)
  {
    var keys := RuleKeys(r, pods);
    TopRankBounds(keys, d, 71);
    forall k <- keys | Covers(k, d) ensures Rank(k, d) <= RuleRank(r, pods, d) {
      RankRange(k, d);
    }
    if RuleRank(r, pods, d) >= 0 {
      var k := TopRankWitness(keys, d, 71);
    }
  }

  lemma RuleKeysValid(r: Rule, pods: Pods)
    ensures forall k <- RuleKeys(r, pods) :: KeyValid(k)
  {
  }

  lemma {:induction false} TableOfValid(rules: seq<Rule>, pods: Pods, base: Byte)
    ensures TableValid(TableOf(rules, pods, base))
  {
    if rules != [] {
      TableOfValid(rules[1..], pods, base);
      RuleKeysValid(rules[0], pods);
    }
  }

  /** The most specific key of the compiled table carries the winner's rank and action. */
  lemma {:induction false} BestIsTop(rules: seq<Rule>, pods: Pods, d: Dest, base: Byte) returns (k: Key)
    ensures Top(TableOf(rules, pods, base), d, k)
    ensures Best(rules, pods, d, base) == Winner(Rank(k, d), TableOf(rules, pods, base)[k])
  {
    if rules == [] {
      k := GlobalDefault;
    } else {
      var keys := RuleKeys(rules[0], pods);
      var top := BestIsTop(rules[1..], pods, d, base);
      RuleRankIsMax(rules[0], pods, d);
      if RuleRank(rules[0], pods, d) >= Rank(top, d) {
        k := TopRankWitness(keys, d, 71);
      } else {
        k := top;
        assert k !in keys;
      }
    }
  }

  /** The compiled tables denote `Best`, for every policy, pod set and destination. */
  lemma Denotation(p: EgressPolicy, pods: Pods, d: Dest)
    ensures VerdictFor(CompileTable(p, pods), d) == Best(p.rules, pods, d, ActionByte(DefaultAction(p))).act
  {
    var base := ActionByte(DefaultAction(p));
    var k := BestIsTop(p.rules, pods, d, base);
    TableOfValid(p.rules, pods, base);
    VerdictIsTop(CompileTable(p, pods), d, k);
  }

  lemma RuleRankAboveDefault(r: Rule, pods: Pods, d: Dest)
    requires RuleRank(r, pods, d) >= 0
    ensures RuleRank(r, pods, d) >= Rank(GlobalDefault, d)
  {
    var k := TopRankWitness(RuleKeys(r, pods), d, 71);
    RankRange(k, d);
  }

  /** Position `j` is the earliest rule of greatest rank, or the end when no rule speaks. */
  ghost predicate TopAt(rules: seq<Rule>, pods: Pods, d: Dest, j: nat) {
    && j <= |rules|
    && (j == |rules| ==> forall i :: 0 <= i < j ==> RuleRank(rules[i], pods, d) == -1)
    && (j < |rules| ==>
          && 0 <= RuleRank(rules[j], pods, d)
          && (forall i :: 0 <= i < j ==> RuleRank(rules[i], pods, d) < RuleRank(rules[j], pods, d))
          && (forall i :: j <= i < |rules| ==> RuleRank(rules[i], pods, d) <= RuleRank(rules[j], pods, d)))
  }

  /** The action decided at a position; the end stands for the posture. */
  function ByteAt(rules: seq<Rule>, base: Byte, i: nat): Byte {
    if i < |rules| then ActionByte(rules[i].action) else base
  }

  lemma TopAtUnique(rules: seq<Rule>, pods: Pods, d: Dest, j: nat, j': nat)
    requires TopAt(rules, pods, d, j) && TopAt(rules, pods, d, j')
    ensures j == j'
  {
  }

  /** Where the top lies once a rule is put in front. */
  lemma TopAtCons(r: Rule, rest: seq<Rule>, pods: Pods, d: Dest, t: nat)
    requires TopAt(rest, pods, d, t) && RuleRank(r, pods, d) >= -1
    ensures var speaks := RuleRank(r, pods, d) >= if t < |rest| then RuleRank(rest[t], pods, d) else 0;
            TopAt([r] + rest, pods, d, if speaks then 0 else t + 1)
  {
    var rules, k := [r] + rest, RuleRank(r, pods, d);
    assert rules[0] == r && rules[1..] == rest;
    forall i | 0 <= i < |rules|
      ensures RuleRank(rules[i], pods, d) == if i == 0 then k else RuleRank(rest[i - 1], pods, d)
    {
    }
  }

  /** The winner by position: the earliest rule of greatest rank, or the posture. */
  lemma {:induction false} BestByIndex(rules: seq<Rule>, pods: Pods, d: Dest, base: Byte) returns (j: nat)
    ensures TopAt(rules, pods, d, j)
    ensures Best(rules, pods, d, base) ==
            Winner(if j < |rules| then RuleRank(rules[j], pods, d) else Rank(GlobalDefault, d), ByteAt(rules, base, j))
  {
    if rules == [] {
      j := 0;
    } else {
      var t := BestByIndex(rules[1..], pods, d, base);
      RuleRankIsMax(rules[0], pods, d);
      if RuleRank(rules[0], pods, d) >= 0 {
        RuleRankAboveDefault(rules[0], pods, d);
      }
      assert rules == [rules[0]] + rules[1..];
      TopAtCons(rules[0], rules[1..], pods, d, t);
      j := if RuleRank(rules[0], pods, d) >= Best(rules[1..], pods, d, base).rank then 0 else t + 1;
    }
  }

  // ---- When a rule speaks ----

  /** Rule shapes the datapath writes at all. */
  predicate Programs(m: Match) {
    !HasL7(m) && m.domains == [] && (m.cidrs == [] ==> m.ports == [])
  }

  /** The selector is node-global, or the cgroup is a known pod that it matches. */
  predicate SpeaksFor(sel: PodSelector, pods: Pods, cg: U64) {
    sel == ZeroSelector || (cg in pods && PodMatches(sel, pods[cg], pods[cg].labels))
  }

  /** Some CIDR that can be written contains the address. */
  predicate WritesAddress(m: Match, addr: U32) {
    exists c <- m.cidrs :: CidrWritable(c, m.ports) && CidrContains(c, Ip4(addr))
  }

  /** Listed ports as the datapath reads them: port 0 is any port. */
  predicate ListsPort(ports: seq<U16>, port: U16) {
    ports == [] || port in ports || 0 in ports
  }

  lemma CidrCovered(c: Cidr, ports: seq<U16>, d: Dest, cg: U64)
    requires cg == d.cgroup || cg == 0
    ensures (exists k <- CidrKeys(cg, c, ports) :: Covers(k, d))
            <==> CidrWritable(c, ports) && CidrContains(c, Ip4(d.addr)) && ListsPort(ports, d.port)
  {
    if CidrWritable(c, ports) {
      if ports == [] {
        assert CidrKey(cg, c.net, c.ones) in CidrKeys(cg, c, ports);
      } else {
        forall p <- ports ensures VerdictKey(cg, c.net, p) in CidrKeys(cg, c, ports) {
        }
        assert CidrContains(c, Ip4(d.addr)) <==> c.net == d.addr;
      }
    }
  }

  lemma CgroupCovered(m: Match, d: Dest, cg: U64)
    requires cg == d.cgroup || cg == 0
    ensures (exists k <- CgroupKeys(cg, m) :: Covers(k, d))
            <==> Programs(m) && (m.cidrs == [] || (WritesAddress(m, d.addr) && ListsPort(m.ports, d.port)))
  {
    if Programs(m) {
      if m.cidrs == [] {
        assert DefaultKey(cg) in CgroupKeys(cg, m);
      } else {
        CidrListCovered(m, d, cg);
      }
    }
  }

  lemma CidrListCovered(m: Match, d: Dest, cg: U64)
    requires cg == d.cgroup || cg == 0
    ensures (exists k <- CidrListKeys(cg, m.cidrs, m.ports) :: Covers(k, d))
            <==> WritesAddress(m, d.addr) && ListsPort(m.ports, d.port)
  {
    if k :| k in CidrListKeys(cg, m.cidrs, m.ports) && Covers(k, d) {
      var c :| c in m.cidrs && k in CidrKeys(cg, c, m.ports);
      CidrCovered(c, m.ports, d, cg);
    }
    if WritesAddress(m, d.addr) && ListsPort(m.ports, d.port) {
      var c :| c in m.cidrs && CidrWritable(c, m.ports) && CidrContains(c, Ip4(d.addr));
      CidrCovered(c, m.ports, d, cg);
      var k :| k in CidrKeys(cg, c, m.ports) && Covers(k, d);
      assert k in CidrListKeys(cg, m.cidrs, m.ports);
    }
  }

  lemma KeyCgroup(cg: U64, m: Match, k: Key)
    requires k in CgroupKeys(cg, m)
    ensures k.cgroup == cg
  {
  }

  /** Exactly when a rule says anything about a destination, for every rule and destination. */
  lemma SpeaksExactly(r: Rule, pods: Pods, d: Dest)
    requires 0 !in pods
    ensures RuleRank(r, pods, d) >= 0
            <==> && Programs(r.match_) && SpeaksFor(r.match_.pod, pods, d.cgroup)
                 && (r.match_.cidrs == [] || (WritesAddress(r.match_, d.addr) && ListsPort(r.match_.ports, d.port)))
  {
    var m := r.match_;
    var cgs := MatchCgroups(m.pod, pods);
    RuleRankIsMax(r, pods, d);
    CgroupCovered(m, d, d.cgroup);
    CgroupCovered(m, d, 0);
    if k :| k in RuleKeys(r, pods) && Covers(k, d) {
      var cg :| cg in cgs && k in CgroupKeys(cg, m);
      KeyCgroup(cg, m, k);
    }
    if SpeaksFor(m.pod, pods, d.cgroup) {
      var cg := if m.pod == ZeroSelector then 0 else d.cgroup;
      assert cg in cgs;
      if k :| k in CgroupKeys(cg, m) && Covers(k, d) {
        assert k in RuleKeys(r, pods);
      }
    }
  }

  // ---- Locality ----

  /** Rules that say nothing about a destination can be added anywhere without effect on it. */
  lemma {:induction false} SilentRules(a: seq<Rule>, x: seq<Rule>, b: seq<Rule>, pods: Pods, d: Dest, base: Byte)
    requires forall r <- x :: RuleRank(r, pods, d) == -1
    ensures Best(a + x + b, pods, d, base) == Best(a + b, pods, d, base)
    decreases |a| + |x|
  {
    if a != [] {
      assert (a + x + b)[1..] == a[1..] + x + b && (a + b)[1..] == a[1..] + b;
      SilentRules(a[1..], x, b, pods, d, base);
    } else if x != [] {
      assert (a + x + b)[1..] == a + x[1..] + b && (a + x + b)[0] == x[0];
      SilentRules(a, x[1..], b, pods, d, base);
      BestNonNegative(a + x[1..] + b, pods, d, base);
    } else {
      assert a + x + b == a + b;
    }
  }

  lemma {:induction false} BestNonNegative(rules: seq<Rule>, pods: Pods, d: Dest, base: Byte)
    ensures Best(rules, pods, d, base).rank >= 0
  {
    if rules != [] {
      BestNonNegative(rules[1..], pods, d, base);
    }
  }

  /** A rule whose selector does not match a pod says nothing about that pod's destinations. */
  lemma UnmatchedRuleSilent(r: Rule, pods: Pods, d: Dest)
    requires 0 !in pods && d.cgroup in pods
    requires !PodMatches(r.match_.pod, pods[d.cgroup], pods[d.cgroup].labels)
    ensures RuleRank(r, pods, d) == -1
  {
    SpeaksExactly(r, pods, d);
    RuleRankIsMax(r, pods, d);
  }
}
