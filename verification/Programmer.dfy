/** The map programmer: what each rule writes, and the incremental apply that writes it. */
module Programmer {
  import opened Base
  import opened Policy
  import opened Kernel

  type Pods = map<U64, PodInfo>

  /** The datapath cannot mutate, so everything but Deny passes. */
  function ActionByte(a: Action): Byte {
    if a.Deny? then ActionDeny else ActionAllow
  }

  // ---- What one rule writes ----

  /** The cgroups a selector programs: the node-global id 0 for the empty selector. */
  function MatchCgroups(sel: PodSelector, pods: Pods): set<U64> {
    if sel == ZeroSelector then {0}
    else set cg <- pods | PodMatches(sel, pods[cg], pods[cg].labels)
  }

  /** Resolves a selector over the live pods, in whatever order the pod map is walked. */
  method ResolveCgroups(sel: PodSelector, pods: Pods) returns (out: seq<U64>)
    ensures forall cg :: cg in out <==> cg in MatchCgroups(sel, pods)
  {
    if sel == ZeroSelector {
      return [0];
    }
    out := [];
    var todo := pods.Keys;
    while todo != {}
      invariant todo <= pods.Keys
      invariant forall cg :: cg in out <==> cg in pods && cg !in todo && PodMatches(sel, pods[cg], pods[cg].labels)
      decreases todo
    {
      var cg :| cg in todo;
      if PodMatches(sel, pods[cg], pods[cg].labels) {
        out := out + [cg];
      }
      todo := todo - {cg};
    }
  }

  predicate HasL7(m: Match) {
    m.methods != [] || m.pathPrefix != ""
  }

  /** One CIDR of a rule can be written: IPv4, and a single host when ports are given. */
  predicate CidrWritable(c: Cidr, ports: seq<U16>) {
    c.V4? && (ports != [] ==> c.ones == 32)
  }

  function PortKeys(cg: U64, net: U32, ports: seq<U16>): set<Key> {
    set p <- ports :: VerdictKey(cg, net, p)
  }

  function CidrKeys(cg: U64, c: Cidr, ports: seq<U16>): set<Key> {
    if !CidrWritable(c, ports) then {}
    else if ports != [] then PortKeys(cg, c.net, ports)
    else {CidrKey(cg, c.net, c.ones)}
  }

  function CidrListKeys(cg: U64, cidrs: seq<Cidr>, ports: seq<U16>): set<Key> {
    set c <- cidrs, k <- CidrKeys(cg, c, ports) :: k
  }

  /** The keys a rule writes for one cgroup. */
  function CgroupKeys(cg: U64, m: Match): set<Key> {
    if HasL7(m) || m.domains != [] then {}
    else if m.cidrs != [] then CidrListKeys(cg, m.cidrs, m.ports)
    else if m.ports != [] then {}
    else {DefaultKey(cg)}
  }

  function KeysFor(cgs: set<U64>, m: Match): set<Key> {
    set cg <- cgs, k <- CgroupKeys(cg, m) :: k
  }

  function RuleKeys(r: Rule, pods: Pods): set<Key> {
    KeysFor(MatchCgroups(r.match_.pod, pods), r.match_)
  }

  function Fill<V>(keys: set<Key>, v: V): map<Key, V> {
    map k <- keys :: v
  }

  lemma FillTwice<V>(t: map<Key, V>, a: set<Key>, b: set<Key>, v: V)
    ensures t + Fill(a, v) + Fill(b, v) == t + Fill(a + b, v)
  {
  }

  /** The table rules leave on an empty machine: later rules first, so the first one lands last. */
  function TableOf(rules: seq<Rule>, pods: Pods, base: Byte): Table {
    if rules == [] then map[GlobalDefault := base]
    else TableOf(rules[1..], pods, base) + Fill(RuleKeys(rules[0], pods), ActionByte(rules[0].action))
  }

  function CompileTable(p: EgressPolicy, pods: Pods): Table {
    TableOf(p.rules, pods, ActionByte(DefaultAction(p)))
  }

  /** An unset posture is Allow, to the engine and in the tables; where no rule matches, the posture
      is the verdict. */
  lemma PostureDecides(p: EgressPolicy, pods: Pods, f: Flow)
    ensures var unset, allow := p.(defaultAction := PostureUnset), p.(defaultAction := PostureAllow);
            Evaluate(unset, f) == Evaluate(allow, f) && CompileTable(unset, pods) == CompileTable(allow, pods)
    ensures (forall i :: 0 <= i < |p.rules| ==> !Matches(p.rules[i], f)) ==>
              Evaluate(p, f) == Verdict(if p.defaultAction == PostureDeny then Deny else Allow, "", [])
  {
    if forall i :: 0 <= i < |p.rules| ==> !Matches(p.rules[i], f) {
      FirstMatchNone(p.rules, f);
    }
  }

  // ---- Writes that fail ----

  /** Which map writes of an apply fail: the posture's write of key 0, and writes of rule `i` to
      key `k`. A rule that names one key twice writes the same value, so one outcome covers both. */
  datatype Faults = Faults(posture: bool, rules: set<(nat, Key)>)

  const NoFaults := Faults(false, {})

  function FailingKeys(faults: Faults, i: nat): set<Key> {
    set x <- faults.rules | x.0 == i :: x.1
  }

  /** The keys rule `i` manages to write. */
  function Landed(rules: seq<Rule>, i: nat, pods: Pods, faults: Faults): set<Key>
    requires i < |rules|
  {
    RuleKeys(rules[i], pods) - FailingKeys(faults, i)
  }

  /** The table that rules `i` onwards leave on an empty machine under the given failures. */
  function TableWith(rules: seq<Rule>, i: nat, pods: Pods, base: Byte, faults: Faults): Table
    requires i <= |rules|
    decreases |rules| - i
  {
    if i == |rules| then (if faults.posture then map[] else map[GlobalDefault := base])
    else TableWith(rules, i + 1, pods, base, faults) + Fill(Landed(rules, i, pods, faults), ActionByte(rules[i].action))
  }

  /** What one apply writes under the given failures. */
  function WrittenTable(p: EgressPolicy, pods: Pods, faults: Faults): Table {
    TableWith(p.rules, 0, pods, ActionByte(DefaultAction(p)), faults)
  }

  lemma {:induction false} FaultlessTable(rules: seq<Rule>, i: nat, pods: Pods, base: Byte)
    requires i <= |rules|
    ensures TableWith(rules, i, pods, base, NoFaults) == TableOf(rules[i..], pods, base)
    decreases |rules| - i
  {
    if i < |rules| {
      FaultlessTable(rules, i + 1, pods, base);
      assert rules[i..][1..] == rules[i + 1..];
      assert Landed(rules, i, pods, NoFaults) == RuleKeys(rules[i], pods);
    }
  }

  /** Without failures an apply writes the compiled table. */
  lemma FaultlessWrites(p: EgressPolicy, pods: Pods)
    ensures WrittenTable(p, pods, NoFaults) == CompileTable(p, pods)
  {
    FaultlessTable(p.rules, 0, pods, ActionByte(DefaultAction(p)));
    assert p.rules[0..] == p.rules;
  }

  /** Key `k` was written by the posture or by some rule. */
  ghost predicate KeyLands(p: EgressPolicy, pods: Pods, faults: Faults, k: Key) {
    (k == GlobalDefault && !faults.posture) || exists i: nat :: i < |p.rules| && k in Landed(p.rules, i, pods, faults)
  }

  lemma {:induction false} TableWithKeys(rules: seq<Rule>, i: nat, pods: Pods, base: Byte, faults: Faults, k: Key)
    requires i <= |rules|
    ensures k in TableWith(rules, i, pods, base, faults)
            <==> (k == GlobalDefault && !faults.posture)
                 || exists j: nat :: i <= j < |rules| && k in Landed(rules, j, pods, faults)
    decreases |rules| - i
  {
    if i < |rules| {
      TableWithKeys(rules, i + 1, pods, base, faults, k);
      if k in Landed(rules, i, pods, faults) {
        assert k in TableWith(rules, i, pods, base, faults);
      } else {
        assert k in TableWith(rules, i, pods, base, faults) <==> k in TableWith(rules, i + 1, pods, base, faults);
      }
    }
  }

  // ---- State of the programmer ----

  /** The tables and the keys the programmer remembers having written. */
  datatype State = State(table: Table, prev: set<Key>)

  const Fresh := State(map[], {})

  /** Keys dropped by reconciliation; the global default is never dropped. */
  function Stale(prev: set<Key>, written: set<Key>): set<Key> {
    prev - written - {GlobalDefault}
  }

  /** One apply: what it wrote goes over the table, and what it no longer wants goes out. */
  function Applied(s: State, p: EgressPolicy, pods: Pods, faults: Faults): State {
    var t := WrittenTable(p, pods, faults);
    State((s.table + t) - Stale(s.prev, t.Keys), t.Keys)
  }

  /** The tables and their programmer. */
  class MapProgrammer {
    var table: Table
    var prev: set<Key>

    constructor (table: Table)
      ensures this.table == table && prev == {}
    {
      this.table, this.prev := table, {};
    }

    /** A map write, which the environment lets fail on the given keys. */
    method Put(k: Key, v: Byte, failing: set<Key>) returns (ok: bool)
      modifies this`table
      ensures ok <==> k !in failing
      ensures table == if ok then old(table)[k := v] else old(table)
    {
      ok := k !in failing;
      if ok {
        table := table[k := v];
      }
    }

    /** Writes one key and records it if the write succeeded. */
    method PutRecorded(k: Key, v: Byte, failing: set<Key>, written: set<Key>) returns (written': set<Key>)
      modifies this`table
      ensures Wrote(old(table), written, table, written', {k}, v, failing)
    {
      var ok := Put(k, v, failing);
      written' := if ok then written + {k} else written;
      assert {k} - failing == if ok then {k} else {};
    }

    /** Programs one CIDR for one cgroup, recording the keys that were written. */
    method ProgramCidr(cg: U64, c: Cidr, ports: seq<U16>, act: Byte, failing: set<Key>, written: set<Key>)
      returns (ok: bool, written': set<Key>)
      modifies this`table
      ensures ok <==> CidrWritable(c, ports)
      ensures Wrote(old(table), written, table, written', CidrKeys(cg, c, ports), act, failing)
    {
      WroteNothing(table, written, act, failing);
      written' := written;
      if !c.V4? || (ports != [] && c.ones != 32) {
        return false, written';
      }
      if ports == [] {
        written' := PutRecorded(CidrKey(cg, c.net, c.ones), act, failing, written);
      } else {
        written' := ProgramPorts(cg, c, ports, act, failing, written);
      }
      ok := true;
    }

    method ProgramPorts(cg: U64, c: Cidr, ports: seq<U16>, act: Byte, failing: set<Key>, written: set<Key>)
      returns (written': set<Key>)
      requires CidrWritable(c, ports)
      modifies this`table
      ensures Wrote(old(table), written, table, written', PortKeys(cg, c.net, ports), act, failing)
    {
      written' := written;
      WroteNothing(table, written, act, failing);
      for i := 0 to |ports|
        invariant Wrote(old(table), written, table, written', PortKeys(cg, c.net, ports[..i]), act, failing)
      {
        ghost var t, w := table, written';
        var k := VerdictKey(cg, c.net, ports[i]);
        written' := PutRecorded(k, act, failing, written');
        WroteThen(old(table), written, t, w, table, written', PortKeys(cg, c.net, ports[..i]), {k}, act, failing);
        assert ports[..i + 1] == ports[..i] + [ports[i]];
        assert PortKeys(cg, c.net, ports[..i + 1]) == PortKeys(cg, c.net, ports[..i]) + {k};
      }
      assert ports[..|ports|] == ports;
    }

    /** Programs every CIDR of a rule for one cgroup. */
    method ProgramCidrs(cg: U64, cidrs: seq<Cidr>, ports: seq<U16>, act: Byte, failing: set<Key>, written: set<Key>)
      returns (written': set<Key>)
      modifies this`table
      ensures Wrote(old(table), written, table, written', CidrListKeys(cg, cidrs, ports), act, failing)
    {
      written' := written;
      WroteNothing(table, written, act, failing);
      for i := 0 to |cidrs|
        invariant Wrote(old(table), written, table, written', CidrListKeys(cg, cidrs[..i], ports), act, failing)
      {
        ghost var t, w := table, written';
        var ok;
        ok, written' := ProgramCidr(cg, cidrs[i], ports, act, failing, written');
        ghost var more := CidrKeys(cg, cidrs[i], ports);
        WroteThen(old(table), written, t, w, table, written', CidrListKeys(cg, cidrs[..i], ports), more, act, failing);
        assert cidrs[..i + 1] == cidrs[..i] + [cidrs[i]];
        assert CidrListKeys(cg, cidrs[..i + 1], ports) == CidrListKeys(cg, cidrs[..i], ports) + more;
      }
      assert cidrs[..|cidrs|] == cidrs;
    }

    /** Programs an enforceable rule for one cgroup. */
    method ProgramCgroup(cg: U64, m: Match, act: Byte, failing: set<Key>, written: set<Key>) returns (written': set<Key>)
      requires !HasL7(m) && m.domains == [] && (m.cidrs == [] ==> m.ports == [])
      modifies this`table
      ensures Wrote(old(table), written, table, written', CgroupKeys(cg, m), act, failing)
    {
      if m.cidrs != [] {
        written' := ProgramCidrs(cg, m.cidrs, m.ports, act, failing, written);
      } else {
        written' := PutRecorded(DefaultKey(cg), act, failing, written);
      }
    }

    /** Programs one rule for every cgroup its selector resolves to; L7, domain and
        port-only rules write nothing. */
    method ProgramRule(r: Rule, pods: Pods, failing: set<Key>, written: set<Key>) returns (written': set<Key>)
      modifies this`table
      ensures Wrote(old(table), written, table, written', RuleKeys(r, pods), ActionByte(r.action), failing)
    {
      var m, act := r.match_, ActionByte(r.action);
      var cgs := ResolveCgroups(m.pod, pods);
      written' := written;
      WroteNothing(table, written, act, failing);
      if HasL7(m) || m.domains != [] || (m.cidrs == [] && m.ports != []) {
        assert RuleKeys(r, pods) == {};
        return;
      }
      for i := 0 to |cgs|
        invariant Wrote(old(table), written, table, written', ListKeys(cgs[..i], m), act, failing)
      {
        ghost var t, w := table, written';
        written' := ProgramCgroup(cgs[i], m, act, failing, written');
        assert cgs[..i + 1][..i] == cgs[..i];
        WroteThen(old(table), written, t, w, table, written', ListKeys(cgs[..i], m), CgroupKeys(cgs[i], m), act, failing);
      }
      assert cgs[..|cgs|] == cgs;
      ListKeysAreRuleKeys(cgs, r, pods);
    }

    /** Deletes the entries written before and not now, then remembers the new key set. */
    method Reconcile(written: set<Key>)
      modifies this`table, this`prev
      ensures prev == written
      ensures table == old(table) - Stale(old(prev), written)
    {
      var todo := prev;
      while todo != {}
        invariant todo <= prev == old(prev)
        invariant table == old(table) - (Stale(prev, written) - todo)
        decreases todo
      {
        var k :| k in todo;
        if k != GlobalDefault && k !in written {
          table := table - {k};
        }
        todo := todo - {k};
      }
      assert Stale(prev, written) - {} == Stale(prev, written);
      prev := written;
    }

    /** Programs rule `i` on top of the later ones, which are programmed over `start`. */
    method ProgramNext(p: EgressPolicy, i: nat, pods: Pods, base: Byte, faults: Faults, ghost start: Table, written: set<Key>)
      returns (written': set<Key>)
      requires i < |p.rules| && Programmed(start, table, written, TableWith(p.rules, i + 1, pods, base, faults))
      modifies this`table
      ensures Programmed(start, table, written', TableWith(p.rules, i, pods, base, faults))
    {
      written' := ProgramRule(p.rules[i], pods, FailingKeys(faults, i), written);
      ProgrammedStep(start, old(table), written, TableWith(p.rules, i + 1, pods, base, faults), table, written',
                     Landed(p.rules, i, pods, faults), ActionByte(p.rules[i].action));
    }

    /** Writes the posture under key 0. */
    method ProgramPosture(p: EgressPolicy, pods: Pods, faults: Faults) returns (written: set<Key>)
      modifies this`table
      ensures Programmed(old(table), table, written, TableWith(p.rules, |p.rules|, pods, ActionByte(DefaultAction(p)), faults))
    {
      var put := Put(GlobalDefault, ActionByte(DefaultAction(p)), if faults.posture then {GlobalDefault} else {});
      written := if put then {GlobalDefault} else {};
    }

    /** Programs the rules last to first, so that the first one's writes land last. */
    method ProgramRules(p: EgressPolicy, pods: Pods, faults: Faults, ghost start: Table, written: set<Key>)
      returns (written': set<Key>)
      requires Programmed(start, table, written, TableWith(p.rules, |p.rules|, pods, ActionByte(DefaultAction(p)), faults))
      modifies this`table
      ensures Programmed(start, table, written', WrittenTable(p, pods, faults))
    {
      written' := written;
      var i := |p.rules|;
      while i > 0
        invariant 0 <= i <= |p.rules|
        invariant Programmed(start, table, written', TableWith(p.rules, i, pods, ActionByte(DefaultAction(p)), faults))
      {
        i := i - 1;
        written' := ProgramNext(p, i, pods, ActionByte(DefaultAction(p)), faults, start, written');
      }
    }

    /** Re-programs the tables for a policy and pod set, whichever writes fail. */
    method Apply(p: EgressPolicy, pods: Pods, faults: Faults)
      modifies this`table, this`prev
      ensures State(table, prev) == Applied(old(State(table, prev)), p, pods, faults)
    {
      var written := ProgramPosture(p, pods, faults);
      written := ProgramRules(p, pods, faults, old(table), written);
      Reconcile(written);
    }
  }

  // ---- Bookkeeping of writes ----

  /** From (t, w) to (t', w'): `keys` were written with `v` and recorded, except the failing ones. */
  ghost predicate Wrote(t: Table, w: set<Key>, t': Table, w': set<Key>, keys: set<Key>, v: Byte, failing: set<Key>) {
    w' == w + (keys - failing) && t' == t + Fill(keys - failing, v)
  }

  lemma WroteNothing(t: Table, w: set<Key>, v: Byte, failing: set<Key>)
    ensures Wrote(t, w, t, w, {}, v, failing)
  {
  }

  lemma WroteThen(t0: Table, w0: set<Key>, t1: Table, w1: set<Key>, t2: Table, w2: set<Key>,
                  a: set<Key>, b: set<Key>, v: Byte, failing: set<Key>)
    requires Wrote(t0, w0, t1, w1, a, v, failing) && Wrote(t1, w1, t2, w2, b, v, failing)
    ensures Wrote(t0, w0, t2, w2, a + b, v, failing)
  {
    FillTwice(t0, a - failing, b - failing, v);
    assert (a - failing) + (b - failing) == (a + b) - failing;
  }

  function ListKeys(cgs: seq<U64>, m: Match): set<Key> {
    if cgs == [] then {} else ListKeys(cgs[..|cgs| - 1], m) + CgroupKeys(cgs[|cgs| - 1], m)
  }

  lemma {:induction false} ListKeysMembers(cgs: seq<U64>, m: Match, k: Key)
    ensures k in ListKeys(cgs, m) <==> exists cg <- cgs :: k in CgroupKeys(cg, m)
  {
    if cgs != [] {
      var n := |cgs| - 1;
      ListKeysMembers(cgs[..n], m, k);
      assert cgs == cgs[..n] + [cgs[n]];
    }
  }

  lemma ListKeysAreRuleKeys(cgs: seq<U64>, r: Rule, pods: Pods)
    requires forall cg :: cg in cgs <==> cg in MatchCgroups(r.match_.pod, pods)
    ensures ListKeys(cgs, r.match_) == RuleKeys(r, pods)
  {
    forall k: Key ensures k in ListKeys(cgs, r.match_) <==> k in RuleKeys(r, pods) {
      ListKeysMembers(cgs, r.match_, k);
    }
  }

  /** `goal` has been written over `t0`, giving `t` and the recorded keys `w`. */
  ghost predicate Programmed(t0: Table, t: Table, w: set<Key>, goal: Table) {
    w == goal.Keys && t == t0 + goal
  }

  lemma ProgrammedStep(t0: Table, t: Table, w: set<Key>, goal: Table, t': Table, w': set<Key>, keys: set<Key>, v: Byte)
    requires Programmed(t0, t, w, goal) && w' == w + keys && t' == t + Fill(keys, v)
    ensures Programmed(t0, t', w', goal + Fill(keys, v))
  {
  }
}
