/** Whole runs of the programmer, in which map writes may fail and other actors share the
    `verdicts` map: its tables depend only on the last clean apply, and its records stay in step. */
module History {
  import opened Base
  import opened Policy
  import opened Kernel
  import opened Programmer

  /** The default and CIDR maps, which no other actor writes. */
  function Private(t: Table): Table {
    map k <- t | !k.VerdictKey? :: t[k]
  }

  /** One event: an apply with its write failures, or another actor rewriting `verdicts`. */
  datatype Event = Apply(p: EgressPolicy, pods: Pods, faults: Faults) | Foreign(verdicts: Table)

  function Step(s: State, e: Event): State {
    match e
    case Apply(p, pods, faults) => Applied(s, p, pods, faults)
    case Foreign(v) => s.(table := Private(s.table) + (map k <- v | k.VerdictKey? :: v[k]))
  }

  function Run(s: State, es: seq<Event>): State {
    if es == [] then s else Step(Run(s, es[..|es| - 1]), es[|es| - 1])
  }

  lemma {:induction false} RunConcat(s: State, a: seq<Event>, b: seq<Event>)
    ensures Run(s, a + b) == Run(Run(s, a), b)
  {
    if b == [] {
      assert a + b == a;
    } else {
      var n, m := |a + b| - 1, |b| - 1;
      assert (a + b)[..n] == a + b[..m] && (a + b)[n] == b[m];
      RunConcat(s, a, b[..m]);
    }
  }

  // ---- Records ----

  /** On the private maps, recorded keys are present and only the global default can be present
      unrecorded. */
  ghost predicate InStep(s: State) {
    && (forall k <- s.prev :: k.VerdictKey? || k in s.table)
    && (forall k <- s.table :: k.VerdictKey? || k == GlobalDefault || k in s.prev)
  }

  lemma InStepKept(s: State, e: Event)
    requires InStep(s)
    ensures InStep(Step(s, e))
  {
  }

  /** Whatever writes fail and whatever happens to `verdicts`, the records stay in step. */
  lemma {:induction false} RunsStayInStep(es: seq<Event>)
    ensures InStep(Run(Fresh, es))
  {
    if es != [] {
      RunsStayInStep(es[..|es| - 1]);
      InStepKept(Run(Fresh, es[..|es| - 1]), es[|es| - 1]);
    }
  }

  /** The records list exactly the private keys of the table. */
  ghost predicate InSync(s: State) {
    forall k: Key :: !k.VerdictKey? ==> (k in s.table <==> k in s.prev)
  }

  /** An apply in which some write of the global default succeeds. */
  ghost predicate LandsGlobal(e: Event) {
    e.Apply? && KeyLands(e.p, e.pods, e.faults, GlobalDefault)
  }

  ghost predicate EverLands(es: seq<Event>) {
    exists e <- es :: LandsGlobal(e)
  }

  /** The last apply of the run writes the global default. */
  ghost predicate LastLands(es: seq<Event>) {
    es != [] &&
    var last := es[|es| - 1];
    if last.Apply? then LandsGlobal(last) else LastLands(es[..|es| - 1])
  }

  lemma GlobalWritten(p: EgressPolicy, pods: Pods, faults: Faults)
    ensures GlobalDefault in WrittenTable(p, pods, faults) <==> KeyLands(p, pods, faults, GlobalDefault)
  {
    TableWithKeys(p.rules, 0, pods, ActionByte(DefaultAction(p)), faults, GlobalDefault);
  }

  /** The global default is present once it was ever written, and recorded if it was written last. */
  lemma {:induction false} GlobalInRun(es: seq<Event>)
    ensures GlobalDefault in Run(Fresh, es).table <==> EverLands(es)
    ensures GlobalDefault in Run(Fresh, es).prev <==> LastLands(es)
  {
    if es != [] {
      var n := |es| - 1;
      var e := es[n];
      GlobalInRun(es[..n]);
      assert es == es[..n] + [e];
      assert EverLands(es) <==> EverLands(es[..n]) || LandsGlobal(e);
      if e.Apply? {
        GlobalWritten(e.p, e.pods, e.faults);
      }
    }
  }

  /** Records and tables agree after a run exactly when the global default, if any apply managed to
      write it, was written by the last one. */
  lemma RecordsExact(es: seq<Event>)
    ensures InSync(Run(Fresh, es)) <==> (EverLands(es) ==> LastLands(es))
  {
    RunsStayInStep(es);
    GlobalInRun(es);
    var s := Run(Fresh, es);
    assert InSync(s) ==> (GlobalDefault in s.table <==> GlobalDefault in s.prev);
  }

  /** And it can go wrong: apply the empty policy, then again with its only write failing. */
  lemma GlobalDefaultLeftBehind()
    ensures
      var p := EgressPolicy(LabelSelector(map[], []), PostureAllow, []);
      !InSync(Run(Fresh, [Apply(p, map[], NoFaults), Apply(p, map[], Faults(true, {}))]))
  {
    var p := EgressPolicy(LabelSelector(map[], []), PostureAllow, []);
    var first, second := Apply(p, map[], NoFaults), Apply(p, map[], Faults(true, {}));
    var es := [first, second];
    assert first in es && LandsGlobal(first);
    assert es[|es| - 1] == second && !LandsGlobal(second);
    RecordsExact(es);
  }

  // ---- The last clean apply decides ----

  lemma {:induction false} GlobalDefaultCompiled(rules: seq<Rule>, pods: Pods, base: Byte)
    ensures GlobalDefault in TableOf(rules, pods, base)
  {
    if rules != [] {
      GlobalDefaultCompiled(rules[1..], pods, base);
    }
  }

  /** A clean apply forgets the past on the private maps. */
  lemma ApplyForgets(s: State, p: EgressPolicy, pods: Pods)
    requires InStep(s)
    ensures Private(Applied(s, p, pods, NoFaults).table) == Private(CompileTable(p, pods))
  {
    FaultlessWrites(p, pods);
    GlobalDefaultCompiled(p.rules, pods, ActionByte(DefaultAction(p)));
    var t := CompileTable(p, pods);
    var t' := Applied(s, p, pods, NoFaults).table;
    forall k: Key | !k.VerdictKey? ensures k in t' <==> k in t {
    }
  }

  lemma ForeignKeepsPrivate(s: State, v: Table)
    ensures Private(Step(s, Foreign(v)).table) == Private(s.table)
  {
  }

  lemma {:induction false} ForeignRunKeepsPrivate(s: State, es: seq<Event>)
    requires forall e <- es :: e.Foreign?
    ensures Private(Run(s, es).table) == Private(s.table)
  {
    if es != [] {
      var n := |es| - 1;
      assert es[n] in es;
      ForeignRunKeepsPrivate(s, es[..n]);
      ForeignKeepsPrivate(Run(s, es[..n]), es[n].verdicts);
    }
  }

  /** After any run, with any failed writes in it, one apply whose writes all succeed and then
      anything the other actors do leave the default and CIDR maps as that apply alone leaves them
      on an empty machine. */
  lemma HistoryIndependence(before: seq<Event>, p: EgressPolicy, pods: Pods, after: seq<Event>)
    requires forall e <- after :: e.Foreign?
    ensures Private(Run(Fresh, before + [Apply(p, pods, NoFaults)] + after).table)
            == Private(Applied(Fresh, p, pods, NoFaults).table) == Private(CompileTable(p, pods))
  {
    var upTo := before + [Apply(p, pods, NoFaults)];
    RunConcat(Fresh, upTo, after);
    ForeignRunKeepsPrivate(Run(Fresh, upTo), after);
    assert upTo[..|upTo| - 1] == before;
    RunsStayInStep(before);
    ApplyForgets(Run(Fresh, before), p, pods);
    ApplyForgets(Fresh, p, pods);
  }

  /** Alone on the machine, the same holds of every key, the verdict keys included. */
  ghost predicate WhollyInStep(s: State) {
    s.prev <= s.table.Keys <= s.prev + {GlobalDefault}
  }

  lemma {:induction false} AloneWhollyInStep(es: seq<Event>)
    requires forall e <- es :: e.Apply?
    ensures WhollyInStep(Run(Fresh, es))
  {
    if es != [] {
      assert es[|es| - 1] in es;
      AloneWhollyInStep(es[..|es| - 1]);
    }
  }

  /** Self-healing: alone on the machine, after any failed writes, one apply whose writes all
      succeed restores exactly the compiled table and its records. */
  lemma SelfHealing(before: seq<Event>, p: EgressPolicy, pods: Pods)
    requires forall e <- before :: e.Apply?
    ensures Run(Fresh, before + [Apply(p, pods, NoFaults)]) == State(CompileTable(p, pods), CompileTable(p, pods).Keys)
  {
    var es := before + [Apply(p, pods, NoFaults)];
    assert es[..|es| - 1] == before;
    AloneWhollyInStep(before);
    FaultlessWrites(p, pods);
    GlobalDefaultCompiled(p.rules, pods, ActionByte(DefaultAction(p)));
    var s, t := Run(Fresh, before), CompileTable(p, pods);
    assert (s.table + t) - Stale(s.prev, t.Keys) == t;
  }
}
