/** The actors that share the `verdicts` map, interleaved one atomic step at a time: the map
    programmer, the DNS answer handler, the expiry sweeper, engine updates and LRU eviction. */
module VerdictProtocol {
  import opened Base
  import opened Kernel

  /** Nanoseconds. */
  type Time = int

  const Second: Time := 1_000_000_000
  const MinLearnTtl: Time := 60 * Second
  const MaxLearnTtl: Time := 3600 * Second

  function ClampTtl(ttl: U32): (d: Time)
    ensures MinLearnTtl <= d <= MaxLearnTtl
    ensures ttl * Second < 0x8000_0000_0000_0000
    ensures 60 <= ttl <= 3600 ==> d == ttl * 1_000_000_000
    ensures (ttl <= 60 ==> d == 60_000_000_000) && (ttl >= 3600 ==> d == 3600_000_000_000)
  {
    var d := ttl * Second;
    if d < MinLearnTtl then MinLearnTtl else if d > MaxLearnTtl then MaxLearnTtl else d
  }

  // ---- State ----

  /** Where a learned verdict comes from: the engine that was read, the moment the answer was
      stamped, and whether that engine had been replaced in between. */
  datatype Provenance = Provenance(epoch: nat, stamp: Time, straddled: bool)

  datatype Writer = Programmed | Learned(prov: Provenance)

  datatype Value = Value(act: Byte, writer: Writer)

  datatype Entry = Entry(expiry: Time, prov: Provenance)

  /** The answer handler: idle, past the engine read, between keys, or between the map write of
      a key and the recording of its expiry. */
  datatype Handler =
    | Idle
    | Matched(epoch: nat)
    | Writing(entry: Entry, act: Byte, todo: seq<Key>)
    | Written(entry: Entry, act: Byte, todo: seq<Key>, key: Key)

  /** The sweeper: waiting, fired (clock read, lock not yet held), visiting entries, or between
      deleting a verdict and forgetting its entry. */
  datatype Sweeper =
    | Waiting
    | Fired(at: Time)
    | Sweeping(at: Time, todo: set<Key>)
    | Deleting(at: Time, todo: set<Key>, key: Key)

  /** The programmer's verdict keys: at rest, between writes, between the map write of a key and its
      local recording, or being reconciled. */
  datatype Programmer =
    | Resting(prev: set<Key>)
    | Applying(prev: set<Key>, written: set<Key>)
    | Putting(prev: set<Key>, written: set<Key>, key: Key)
    | Reconciling(todo: set<Key>, written: set<Key>)

  /** `ends[e]` is when engine `e` was replaced. */
  datatype State = State(
    now: Time, ends: seq<Time>,
    verdicts: map<Key, Value>, entries: map<Key, Entry>,
    handler: Handler, sweeper: Sweeper, programmer: Programmer)

  function Epoch(s: State): nat {
    |s.ends|
  }

  predicate Locked(s: State) {
    s.sweeper.Sweeping? || s.sweeper.Deleting?
  }

  predicate Init(s: State) {
    s.ends == [] && s.verdicts == map[] && s.entries == map[] &&
    s.handler == Idle && s.sweeper == Waiting && s.programmer == Resting({})
  }

  // ---- Steps ----

  datatype Step =
    | Tick(time: Time)
    | SetEngine
    | HandlerMatch
    | HandlerNoRule
    | HandlerStamp(ttl: U32, act: Byte, keys: seq<Key>)
    | HandlerPut
    | HandlerPutFails
    | HandlerRecord
    | HandlerDone
    | SweepFire
    | SweepLock
    | SweepKeep(key: Key)
    | SweepDelete(key: Key)
    | SweepForget
    | SweepUnlock
    | ApplyStart
    | ApplyPut(key: Key, act: Byte)
    | ApplyRecord
    | ReconcileStart
    | ReconcileVisit(key: Key)
    | ReconcileDone
    | Evict(key: Key)

  predicate Enabled(s: State, a: Step) {
    match a
    case Tick(t) => t >= s.now
    case SetEngine => !Locked(s)
    case HandlerMatch => s.handler.Idle? && !Locked(s)
    case HandlerNoRule => s.handler.Matched?
    case HandlerStamp(_, _, _) => s.handler.Matched?
    case HandlerPut => s.handler.Writing? && s.handler.todo != []
    case HandlerPutFails => s.handler.Writing? && s.handler.todo != []
    case HandlerRecord => s.handler.Written? && !Locked(s)
    case HandlerDone => s.handler.Writing? && s.handler.todo == []
    case SweepFire => s.sweeper.Waiting?
    case SweepLock => s.sweeper.Fired?
    case SweepKeep(k) => s.sweeper.Sweeping? && k in s.sweeper.todo && (k !in s.entries || s.sweeper.at <= s.entries[k].expiry)
    case SweepDelete(k) => s.sweeper.Sweeping? && k in s.sweeper.todo && k in s.entries && s.sweeper.at > s.entries[k].expiry
    case SweepForget => s.sweeper.Deleting?
    case SweepUnlock => s.sweeper.Sweeping? && s.sweeper.todo == {}
    case ApplyStart => s.programmer.Resting?
    case ApplyPut(_, _) => s.programmer.Applying?
    case ApplyRecord => s.programmer.Putting?
    case ReconcileStart => s.programmer.Applying?
    case ReconcileVisit(k) => s.programmer.Reconciling? && k in s.programmer.todo
    case ReconcileDone => s.programmer.Reconciling? && s.programmer.todo == {}
    case Evict(_) => true
  }

  function Do(s: State, a: Step): State
    requires Enabled(s, a)
  {
    match a
    case Tick(t) => s.(now := t)
    case SetEngine => s.(ends := s.ends + [s.now])
    case HandlerMatch => s.(handler := Matched(Epoch(s)))
    case HandlerNoRule => s.(handler := Idle)
    case HandlerStamp(ttl, act, keys) =>
      var prov := Provenance(s.handler.epoch, s.now, s.handler.epoch != Epoch(s));
      s.(handler := Writing(Entry(s.now + ClampTtl(ttl), prov), act, keys))
    case HandlerPut =>
      var h := s.handler;
      s.(verdicts := s.verdicts[h.todo[0] := Value(h.act, Learned(h.entry.prov))],
         handler := Written(h.entry, h.act, h.todo[1..], h.todo[0]))
    case HandlerPutFails => s.(handler := Writing(s.handler.entry, s.handler.act, s.handler.todo[1..]))
    case HandlerRecord =>
      var h := s.handler;
      s.(entries := s.entries[h.key := h.entry], handler := Writing(h.entry, h.act, h.todo))
    case HandlerDone => s.(handler := Idle)
    case SweepFire => s.(sweeper := Fired(s.now))
    case SweepLock => s.(sweeper := Sweeping(s.sweeper.at, s.entries.Keys))
    case SweepKeep(k) => s.(sweeper := Sweeping(s.sweeper.at, s.sweeper.todo - {k}))
    case SweepDelete(k) =>
      s.(verdicts := s.verdicts - {k}, sweeper := Deleting(s.sweeper.at, s.sweeper.todo - {k}, k))
    case SweepForget =>
      s.(entries := s.entries - {s.sweeper.key}, sweeper := Sweeping(s.sweeper.at, s.sweeper.todo))
    case SweepUnlock => s.(sweeper := Waiting)
    case ApplyStart => s.(programmer := Applying(s.programmer.prev, {}))
    case ApplyPut(k, act) =>
      s.(verdicts := s.verdicts[k := Value(act, Programmed)],
         programmer := Putting(s.programmer.prev, s.programmer.written, k))
    case ApplyRecord =>
      var p := s.programmer;
      s.(programmer := Applying(p.prev, p.written + {p.key}))
    case ReconcileStart => s.(programmer := Reconciling(s.programmer.prev, s.programmer.written))
    case ReconcileVisit(k) =>
      var p := s.programmer;
      s.(verdicts := if k in p.written then s.verdicts else s.verdicts - {k},
         programmer := Reconciling(p.todo - {k}, p.written))
    case ReconcileDone => s.(programmer := Resting(s.programmer.written))
    case Evict(k) => s.(verdicts := s.verdicts - {k})
  }

  // ---- Invariant ----

  /** Keys the programmer answers for. */
  function Owned(s: State): set<Key> {
    match s.programmer
    case Resting(prev) => prev
    case Applying(prev, written) => prev + written
    case Putting(prev, written, key) => prev + written + {key}
    case Reconciling(todo, written) => todo + written
  }

  /** The handler has just written `k` and not yet recorded it. */
  predicate InFlight(s: State, k: Key) {
    s.handler.Written? && s.handler.key == k
  }

  /** The learner's current provenance for `k`: the answer in flight, else the recorded one. */
  function Claim(s: State, k: Key): Option<Provenance> {
    if InFlight(s, k) then Some(s.handler.entry.prov)
    else if k in s.entries then Some(s.entries[k].prov)
    else None
  }

  /** Every verdict is the programmer's, or is learned and claimed with its true provenance. */
  predicate Attributed(s: State) {
    forall k <- s.verdicts ::
      k in Owned(s) || (Claim(s, k).Some? && s.verdicts[k].writer == Learned(Claim(s, k).value))
  }

  /** A learned verdict stamped under an engine since replaced was stamped before the
      replacement, unless its handling straddled it. */
  predicate ProvenanceOk(s: State, p: Provenance) {
    && p.stamp <= s.now && p.epoch <= Epoch(s)
    && (p.epoch < Epoch(s) && !p.straddled ==> p.stamp <= s.ends[p.epoch])
  }

  predicate EntryOk(s: State, e: Entry) {
    && ProvenanceOk(s, e.prov)
    && e.prov.stamp + MinLearnTtl <= e.expiry <= e.prov.stamp + MaxLearnTtl
  }

  predicate EntriesOk(s: State) {
    && (forall k <- s.entries :: EntryOk(s, s.entries[k]))
    && (s.handler.Matched? ==> s.handler.epoch <= Epoch(s))
    && (s.handler.Writing? || s.handler.Written? ==> EntryOk(s, s.handler.entry))
  }

  /** Entries the sweep has passed are unexpired; a key being deleted is only held elsewhere. */
  predicate SweepOk(s: State) {
    match s.sweeper
    case Sweeping(at, todo) => forall k <- s.entries :: k in todo || at <= s.entries[k].expiry
    case Deleting(at, todo, key) =>
      && (forall k <- s.entries :: k in todo || k == key || at <= s.entries[k].expiry)
      && (key in s.verdicts ==> key in Owned(s) || InFlight(s, key))
    case _ => true
  }

  /** Provenances the learner currently holds: recorded, or of the answer being handled. */
  predicate Holds(s: State, p: Provenance) {
    (exists k <- s.entries :: s.entries[k].prov == p) ||
    ((s.handler.Writing? || s.handler.Written?) && s.handler.entry.prov == p)
  }

  /** One answer at most straddles each replacement, and none does while the next is being matched. */
  ghost predicate StraddleOk(s: State) {
    && (forall p :: Holds(s, p) && p.straddled ==> p.epoch < Epoch(s))
    && (forall p :: Holds(s, p) && p.straddled && s.handler.Matched? ==> p.epoch < s.handler.epoch)
    && (forall p, q :: Holds(s, p) && Holds(s, q) && p.straddled && q.straddled && p.epoch == q.epoch ==> p == q)
  }

  ghost predicate Inv(s: State) {
    Attributed(s) && EntriesOk(s) && SweepOk(s) && StraddleOk(s)
  }

  predicate OfHandler(a: Step) {
    a.HandlerMatch? || a.HandlerNoRule? || a.HandlerStamp? || a.HandlerPut? || a.HandlerPutFails? ||
    a.HandlerRecord? || a.HandlerDone?
  }

  predicate OfSweeper(a: Step) {
    a.SweepFire? || a.SweepLock? || a.SweepKeep? || a.SweepDelete? || a.SweepForget? || a.SweepUnlock?
  }

  lemma HandlerSafe(s: State, a: Step)
    requires Attributed(s) && SweepOk(s) && Enabled(s, a) && OfHandler(a)
    ensures Attributed(Do(s, a)) && SweepOk(Do(s, a))
  {
  }

  lemma SweeperAttributes(s: State, a: Step)
    requires Attributed(s) && SweepOk(s) && Enabled(s, a) && OfSweeper(a)
    ensures Attributed(Do(s, a))
  {
  }

  lemma SweeperProgress(s: State, a: Step)
    requires Attributed(s) && SweepOk(s) && Enabled(s, a) && OfSweeper(a)
    ensures SweepOk(Do(s, a))
  {
  }

  lemma OthersSafe(s: State, a: Step)
    requires Attributed(s) && SweepOk(s) && Enabled(s, a) && !OfHandler(a) && !OfSweeper(a)
    ensures Attributed(Do(s, a)) && SweepOk(Do(s, a))
  {
  }

  lemma EntriesStep(s: State, a: Step)
    requires EntriesOk(s) && Enabled(s, a)
    ensures EntriesOk(Do(s, a))
  {
    var s' := Do(s, a);
    forall e: Entry | EntryOk(s, e) ensures EntryOk(s', e) {
    }
  }

  /** A step adds at most one provenance: the one being stamped. */
  lemma HoldsAfter(s: State, a: Step, p: Provenance)
    requires Enabled(s, a) && Holds(Do(s, a), p)
    ensures Holds(s, p) || (a.HandlerStamp? && p == Provenance(s.handler.epoch, s.now, s.handler.epoch != Epoch(s)))
  {
  }

  lemma StraddleStep(s: State, a: Step)
    requires EntriesOk(s) && StraddleOk(s) && Enabled(s, a)
    ensures StraddleOk(Do(s, a))
  {
    forall p | Holds(Do(s, a), p)
      ensures Holds(s, p) || (a.HandlerStamp? && p == Provenance(s.handler.epoch, s.now, s.handler.epoch != Epoch(s)))
    {
      HoldsAfter(s, a, p);
    }
  }

  lemma InvStep(s: State, a: Step)
    requires Inv(s) && Enabled(s, a)
    ensures Inv(Do(s, a))
  {
    EntriesStep(s, a);
    StraddleStep(s, a);
    if OfHandler(a) {
      HandlerSafe(s, a);
    } else if OfSweeper(a) {
      SweeperAttributes(s, a);
      SweeperProgress(s, a);
    } else {
      OthersSafe(s, a);
    }
  }

  // ---- Runs ----

  /** The state a run of enabled steps reaches. */
  ghost predicate Reaches(init: State, steps: seq<Step>, s: State) {
    if steps == [] then s == init
    else
      var n := |steps| - 1;
      exists m :: Reaches(init, steps[..n], m) && Enabled(m, steps[n]) && s == Do(m, steps[n])
  }

  lemma {:induction false} Invariant(init: State, steps: seq<Step>, s: State)
    requires Init(init) && Reaches(init, steps, s)
    ensures Inv(s)
  {
    if steps != [] {
      var n := |steps| - 1;
      var m :| Reaches(init, steps[..n], m) && Enabled(m, steps[n]) && s == Do(m, steps[n]);
      Invariant(init, steps[..n], m);
      InvStep(m, steps[n]);
    }
  }

  /** No interleaving leaves a verdict nobody will ever remove: each is recorded for expiry, is
      the key the handler is about to record, or is one the programmer answers for. */
  lemma NoUntrackedVerdict(init: State, steps: seq<Step>, s: State, k: Key)
    requires Init(init) && Reaches(init, steps, s) && k in s.verdicts
    ensures k in s.entries || InFlight(s, k) || k in Owned(s)
  {
    Invariant(init, steps, s);
  }

  /** Every recorded expiry lies between a minute and an hour after its answer was stamped. */
  lemma ExpiryWindow(init: State, steps: seq<Step>, s: State, k: Key)
    requires Init(init) && Reaches(init, steps, s) && k in s.entries
    ensures MinLearnTtl <= s.entries[k].expiry - s.entries[k].prov.stamp <= MaxLearnTtl
    ensures s.entries[k].prov.stamp <= s.now
  {
    Invariant(init, steps, s);
  }

  /** When a sweep started at `at` completes, every verdict that is neither the programmer's nor
      in flight was stamped within the last hour before `at`. */
  lemma BoundedStaleness(init: State, steps: seq<Step>, s: State, k: Key)
    requires Init(init) && Reaches(init, steps, s) && Enabled(s, SweepUnlock)
    requires k in s.verdicts && !InFlight(s, k) && k !in Owned(s)
    ensures s.verdicts[k].writer.Learned?
    ensures s.verdicts[k].writer.prov.stamp >= s.sweeper.at - MaxLearnTtl
  {
    Invariant(init, steps, s);
  }

  /** At most one answer straddles the replacement of an engine: the verdicts it left behind all
      carry one and the same provenance. */
  lemma OneStraddlingAnswer(init: State, steps: seq<Step>, s: State, k: Key, k': Key)
    requires Init(init) && Reaches(init, steps, s) && k in s.entries && k' in s.entries
    requires s.entries[k].prov.straddled && s.entries[k'].prov.straddled
    requires s.entries[k].prov.epoch == s.entries[k'].prov.epoch
    ensures s.entries[k].prov == s.entries[k'].prov && s.entries[k].prov.epoch < Epoch(s)
  {
    Invariant(init, steps, s);
    assert Holds(s, s.entries[k].prov) && Holds(s, s.entries[k'].prov);
  }

  /** So nothing learned under an engine replaced more than an hour before the sweep survives it,
      unless it comes from the one answer that was being handled while the engine was replaced. */
  lemma ReplacedEngineForgotten(init: State, steps: seq<Step>, s: State, k: Key)
    requires Init(init) && Reaches(init, steps, s) && Enabled(s, SweepUnlock)
    requires k in s.verdicts && !InFlight(s, k) && k !in Owned(s)
    ensures s.verdicts[k].writer.Learned?
    ensures var p := s.verdicts[k].writer.prov;
            p.epoch < Epoch(s) && s.sweeper.at > s.ends[p.epoch] + MaxLearnTtl ==> p.straddled
  {
    Invariant(init, steps, s);
    BoundedStaleness(init, steps, s, k);
  }

  // ---- What can take a programmed verdict away ----

  /** A step that neither evicts `k` nor stamps a new answer for it. */
  predicate Spares(a: Step, k: Key) {
    a != Evict(k) && !(a.HandlerStamp? && k in a.keys)
  }

  /** `s'` follows from `s` by steps that spare `k`, the programmer answering for `k` throughout. */
  ghost predicate Follows(s: State, steps: seq<Step>, s': State, k: Key) {
    if steps == [] then s' == s
    else
      var n := |steps| - 1;
      exists m ::
        && Follows(s, steps[..n], m, k) && Enabled(m, steps[n]) && s' == Do(m, steps[n])
        && Spares(steps[n], k) && k in Owned(s')
  }

  /** The learner has, or is about to have, an expiry for `k`; an entry whose verdict has just been
      deleted is only waiting to be forgotten. */
  predicate AtRisk(s: State, k: Key) {
    || (k in s.entries && !(s.sweeper.Deleting? && s.sweeper.key == k))
    || (s.handler.Writing? && k in s.handler.todo)
    || (s.handler.Written? && (k == s.handler.key || k in s.handler.todo))
  }

  lemma SafeStep(s: State, a: Step, k: Key)
    requires k in s.verdicts && !AtRisk(s, k)
    requires Enabled(s, a) && Spares(a, k) && k in Owned(s) && k in Owned(Do(s, a))
    ensures k in Do(s, a).verdicts && !AtRisk(Do(s, a), k)
  {
  }

  /** A programmed verdict that is not at risk stays, whatever the actors do. */
  lemma {:induction false} SafeStays(s: State, steps: seq<Step>, s': State, k: Key)
    requires k in s.verdicts && k in Owned(s) && !AtRisk(s, k) && Follows(s, steps, s', k)
    ensures k in s'.verdicts && k in Owned(s') && !AtRisk(s', k)
  {
    if steps != [] {
      var n := |steps| - 1;
      var m :| Follows(s, steps[..n], m, k) && Enabled(m, steps[n]) && s' == Do(m, steps[n])
               && Spares(steps[n], k) && k in Owned(s');
      SafeStays(s, steps[..n], m, k);
      SafeStep(m, steps[n], k);
    }
  }

  /** Extends a run by one sparing step that leaves the programmer alone. */
  lemma Onward(s: State, steps: seq<Step>, m: State, k: Key, a: Step) returns (steps': seq<Step>, m': State)
    requires Follows(s, steps, m, k) && Enabled(m, a) && Spares(a, k) && k in Owned(Do(m, a))
    ensures Follows(s, steps', m', k) && m' == Do(m, a)
  {
    steps', m' := steps + [a], Do(m, a);
    assert steps'[..|steps'| - 1] == steps && steps'[|steps'| - 1] == a;
  }

  /** Lets the running sweep visit the rest of its keys. */
  lemma {:induction false} FinishVisits(s: State, steps0: seq<Step>, m0: State, k: Key) returns (steps: seq<Step>, m: State)
    requires Follows(s, steps0, m0, k) && m0.sweeper.Sweeping? && k in m0.verdicts && k in Owned(m0)
    ensures Follows(s, steps, m, k)
    ensures k !in m.verdicts || (m.sweeper.Waiting? && k in Owned(m) && m.handler == m0.handler &&
                                 (k in m0.entries ==> k in m.entries))
    decreases m0.sweeper.todo
  {
    var todo := m0.sweeper.todo;
    if todo == {} {
      steps, m := Onward(s, steps0, m0, k, SweepUnlock);
    } else {
      var x :| x in todo;
      if x in m0.entries && m0.sweeper.at > m0.entries[x].expiry {
        steps, m := Onward(s, steps0, m0, k, SweepDelete(x));
        if x != k {
          steps, m := Onward(s, steps, m, k, SweepForget);
          steps, m := FinishVisits(s, steps, m, k);
        }
      } else {
        steps, m := Onward(s, steps0, m0, k, SweepKeep(x));
        steps, m := FinishVisits(s, steps, m, k);
      }
    }
  }

  /** Brings the sweeper to rest without losing the risk, or removes `k` on the way. */
  lemma FinishSweep(s: State, k: Key) returns (steps: seq<Step>, m: State)
    requires k in s.verdicts && k in Owned(s) && AtRisk(s, k)
    ensures Follows(s, steps, m, k)
    ensures k !in m.verdicts || (m.sweeper.Waiting? && k in Owned(m) && AtRisk(m, k))
  {
    steps, m := [], s;
    if m.sweeper.Fired? {
      steps, m := Onward(s, steps, m, k, SweepLock);
    } else if m.sweeper.Deleting? {
      steps, m := Onward(s, steps, m, k, SweepForget);
    }
    if m.sweeper.Sweeping? {
      steps, m := FinishVisits(s, steps, m, k);
    }
  }

  /** Lets the handler write and record until `k` is recorded. */
  lemma {:induction false} RecordPending(s: State, steps0: seq<Step>, m0: State, k: Key) returns (steps: seq<Step>, m: State)
    requires Follows(s, steps0, m0, k) && m0.sweeper.Waiting? && k in m0.verdicts && k in Owned(m0) && AtRisk(m0, k)
    ensures Follows(s, steps, m, k) && m.sweeper.Waiting? && k in m.verdicts && k in Owned(m) && k in m.entries
    decreases if k in m0.entries then 0 else if m0.handler.Written? then 2 * |m0.handler.todo| + 3 else 2 * |m0.handler.todo| + 2
  {
    if k in m0.entries {
      steps, m := steps0, m0;
    } else if m0.handler.Written? {
      steps, m := Onward(s, steps0, m0, k, HandlerRecord);
      steps, m := RecordPending(s, steps, m, k);
    } else {
      steps, m := Onward(s, steps0, m0, k, HandlerPut);
      steps, m := RecordPending(s, steps, m, k);
    }
  }

  /** Lets a recorded verdict expire. */
  lemma ExpireKey(s: State, steps0: seq<Step>, m0: State, k: Key) returns (steps: seq<Step>, m: State)
    requires Follows(s, steps0, m0, k) && m0.sweeper.Waiting? && k in m0.entries && k in Owned(m0)
    ensures Follows(s, steps, m, k) && k !in m.verdicts
  {
    var late := if m0.now > m0.entries[k].expiry then m0.now else m0.entries[k].expiry + 1;
    steps, m := Onward(s, steps0, m0, k, Tick(late));
    steps, m := Onward(s, steps, m, k, SweepFire);
    steps, m := Onward(s, steps, m, k, SweepLock);
    steps, m := Onward(s, steps, m, k, SweepDelete(k));
  }

  lemma AtRiskRemovable(s: State, k: Key) returns (steps: seq<Step>, m: State)
    requires k in s.verdicts && k in Owned(s) && AtRisk(s, k)
    ensures Follows(s, steps, m, k) && k !in m.verdicts
  {
    steps, m := FinishSweep(s, k);
    if k in m.verdicts {
      steps, m := RecordPending(s, steps, m, k);
      steps, m := ExpireKey(s, steps, m, k);
    }
  }

  /** A verdict the programmer answers for can disappear, with no eviction and no new answer for its
      key, exactly when the learner already holds or is writing an expiry for the same key. */
  lemma ProgrammedVerdictLostExactly(s: State, k: Key)
    requires k in s.verdicts && k in Owned(s)
    ensures (exists steps, m :: Follows(s, steps, m, k) && k !in m.verdicts) <==> AtRisk(s, k)
  {
    if AtRisk(s, k) {
      var steps, m := AtRiskRemovable(s, k);
      assert Follows(s, steps, m, k) && k !in m.verdicts;
    } else {
      forall steps, m | Follows(s, steps, m, k) ensures k in m.verdicts {
        SafeStays(s, steps, m, k);
      }
    }
  }

  // ---- And it does happen ----

  lemma Extend(init: State, steps: seq<Step>, s: State, a: Step) returns (steps': seq<Step>, s': State)
    requires Reaches(init, steps, s) && Enabled(s, a)
    ensures s' == Do(s, a) && Reaches(init, steps', s')
  {
    steps', s' := steps + [a], Do(s, a);
    assert steps'[..|steps'| - 1] == steps && steps'[|steps'| - 1] == a;
  }

  lemma LearnKey(init: State, k: Key) returns (steps: seq<Step>, s: State)
    requires Init(init)
    ensures Reaches(init, steps, s) && s.handler.Idle? && s.sweeper.Waiting? && s.programmer == Resting({})
    ensures k in s.entries && s.entries[k].expiry == s.now + MinLearnTtl
  {
    steps, s := Extend(init, [], init, HandlerMatch);
    steps, s := Extend(init, steps, s, HandlerStamp(0, 0, [k]));
    steps, s := Extend(init, steps, s, HandlerPut);
    steps, s := Extend(init, steps, s, HandlerRecord);
    steps, s := Extend(init, steps, s, HandlerDone);
  }

  lemma WriteKey(init: State, steps0: seq<Step>, s0: State, k: Key, act: Byte) returns (steps: seq<Step>, s: State)
    requires Reaches(init, steps0, s0) && s0.programmer == Resting({})
    ensures Reaches(init, steps, s)
    ensures s == s0.(verdicts := s0.verdicts[k := Value(act, Programmed)], programmer := Applying({}, {k}))
  {
    steps, s := Extend(init, steps0, s0, ApplyStart);
    steps, s := Extend(init, steps, s, ApplyPut(k, act));
    steps, s := Extend(init, steps, s, ApplyRecord);
    assert {} + {k} == {k};
  }

  lemma ProgramKey(init: State, steps0: seq<Step>, s0: State, k: Key, act: Byte) returns (steps: seq<Step>, s: State)
    requires Reaches(init, steps0, s0) && s0.programmer == Resting({})
    ensures Reaches(init, steps, s)
    ensures s == s0.(verdicts := s0.verdicts[k := Value(act, Programmed)], programmer := Resting({k}))
  {
    steps, s := WriteKey(init, steps0, s0, k, act);
    steps, s := Extend(init, steps, s, ReconcileStart);
    steps, s := Extend(init, steps, s, ReconcileDone);
  }

  /** From a fresh start, a sweep comes to delete a verdict that the programmer itself wrote and
      still answers for; it is then missing until the next apply. */
  lemma SweepDropsProgrammed(init: State, k: Key, act: Byte) returns (steps: seq<Step>, s: State)
    requires Init(init)
    ensures Reaches(init, steps, s) && Enabled(s, SweepDelete(k))
    ensures k in s.verdicts && s.verdicts[k] == Value(act, Programmed) && s.programmer == Resting({k})
    ensures k !in Do(s, SweepDelete(k)).verdicts && k in Owned(Do(s, SweepDelete(k)))
  {
    steps, s := LearnKey(init, k);
    steps, s := ProgramKey(init, steps, s, k, act);
    steps, s := Extend(init, steps, s, Tick(s.now + 2 * MinLearnTtl));
    steps, s := Extend(init, steps, s, SweepFire);
    steps, s := Extend(init, steps, s, SweepLock);
  }
}
