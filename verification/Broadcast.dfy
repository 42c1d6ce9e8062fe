/** The file policy source: keep the last good policy, and tell subscribers through one-slot
    lossy channels. One goroutine reloads and broadcasts; subscribers receive at any moment. */
module Broadcast {
  import opened Base

  // ---- Subsequences ----

  /** `a` is `b` with some members left out. */
  predicate Subseq<V(==)>(a: seq<V>, b: seq<V>)
    decreases |b|
  {
    a == [] ||
    (b != [] &&
     var n := |b| - 1;
     (a[|a| - 1] == b[n] && Subseq(a[..|a| - 1], b[..n])) || Subseq(a, b[..n]))
  }

  lemma {:induction false} SubseqDropLast<V>(a: seq<V>, b: seq<V>)
    requires Subseq(a, b) && a != []
    ensures Subseq(a[..|a| - 1], b)
    decreases |b|
  {
    var n := |b| - 1;
    if !(a[|a| - 1] == b[n] && Subseq(a[..|a| - 1], b[..n])) {
      SubseqDropLast(a, b[..n]);
    }
  }

  lemma SubseqMore<V>(a: seq<V>, b: seq<V>, v: V)
    requires Subseq(a, b)
    ensures Subseq(a, b + [v]) && Subseq(a + [v], b + [v])
  {
    assert (b + [v])[..|b|] == b && (a + [v])[..|a|] == a;
  }

  /** The members of `a` sit in `b` at the increasing positions `at`. */
  ghost predicate Embeds<V>(a: seq<V>, b: seq<V>, at: seq<nat>) {
    && |at| == |a|
    && (forall i :: 0 <= i < |a| ==> at[i] < |b| && a[i] == b[at[i]])
    && forall i, j :: 0 <= i < j < |a| ==> at[i] < at[j]
  }

  lemma {:induction false} SubseqEmbeds<V>(a: seq<V>, b: seq<V>) returns (at: seq<nat>)
    requires Subseq(a, b)
    ensures Embeds(a, b, at)
    decreases |b|
  {
    if a == [] {
      at := [];
    } else {
      var n, m := |b| - 1, |a| - 1;
      if a[m] == b[n] && Subseq(a[..m], b[..n]) {
        at := SubseqEmbeds(a[..m], b[..n]);
        at := at + [n];
      } else {
        at := SubseqEmbeds(a, b[..n]);
      }
    }
  }

  // ---- State ----

  /** One subscription: the channel slot, what was received, and what was broadcast to it. */
  datatype Chan<V> = Chan(slot: Option<V>, received: seq<V>, sent: seq<V>)

  /** What has been handed over so far: received, then waiting in the slot. */
  function Delivered<V>(c: Chan<V>): seq<V> {
    c.received + if c.slot.Some? then [c.slot.value] else []
  }

  datatype Stage = TrySend | Drain | Retry

  /** The broadcaster: idle, reloaded but not yet holding the lock, or at one subscriber. */
  datatype Control<V> = Idle | Reloaded(v: V) | At(v: V, i: nat, stage: Stage)

  datatype State<V> = State(cur: V, subs: seq<Chan<V>>, control: Control<V>)

  datatype Step<V> =
    | Reload(loaded: Option<V>)
    | Lock
    | Advance
    | Subscribe
    | Receive(j: nat)

  predicate Enabled<V>(s: State<V>, a: Step<V>) {
    match a
    case Reload(_) => s.control.Idle?
    case Lock => s.control.Reloaded?
    case Advance => s.control.At?
    case Subscribe => !s.control.At?
    case Receive(j) => j < |s.subs| && s.subs[j].slot.Some?
  }

  /** One channel operation of the broadcaster. */
  function SendStep<V>(c: Chan<V>, v: V, stage: Stage): Chan<V> {
    match stage
    case TrySend => Chan(if c.slot.None? then Some(v) else c.slot, c.received, c.sent + [v])
    case Drain => c.(slot := None)
    case Retry => c.(slot := if c.slot.None? then Some(v) else c.slot)
  }

  function NextControl<V>(c: Chan<V>, v: V, i: nat, stage: Stage): Control<V> {
    match stage
    case TrySend => if c.slot.None? then At(v, i + 1, TrySend) else At(v, i, Drain)
    case Drain => At(v, i, Retry)
    case Retry => At(v, i + 1, TrySend)
  }

  function Do<V>(s: State<V>, a: Step<V>): State<V>
    requires Enabled(s, a)
  {
    match a
    case Reload(loaded) => if loaded.None? then s else s.(cur := loaded.value, control := Reloaded(loaded.value))
    case Lock => s.(control := At(s.control.v, 0, TrySend))
    case Advance =>
      var At(v, i, stage) := s.control;
      if i >= |s.subs| then s.(control := Idle)
      else s.(subs := s.subs[i := SendStep(s.subs[i], v, stage)], control := NextControl(s.subs[i], v, i, stage))
    case Subscribe => s.(subs := s.subs + [Chan(None, [], [])])
    case Receive(j) =>
      var c := s.subs[j];
      s.(subs := s.subs[j := Chan(None, c.received + [c.slot.value], c.sent)])
  }

  /** The broadcaster left alone on one channel: its operations in turn. */
  function Broadcasted<V>(c: Chan<V>, v: V): Chan<V> {
    var c1 := SendStep(c, v, TrySend);
    if c.slot.None? then c1 else SendStep(SendStep(c1, v, Drain), v, Retry)
  }

  class FileSource<V> {
    var cur: V
    var subs: seq<Chan<V>>

    constructor (loaded: V)
      ensures cur == loaded && subs == []
    {
      cur, subs := loaded, [];
    }

    method Snapshot() returns (p: V)
      ensures p == cur
    {
      p := cur;
    }

    method Subscribe() returns (id: nat)
      modifies this`subs
      ensures id == |old(subs)| && subs == old(subs) + [Chan(None, [], [])]
    {
      id := |subs|;
      subs := subs + [Chan(None, [], [])];
    }

    /** Sends to every subscriber, replacing an unread value; undisturbed, every slot ends up
        holding exactly the new value and nothing received is touched. */
    method Send(p: V)
      modifies this`subs
      ensures |subs| == |old(subs)|
      ensures forall j :: 0 <= j < |subs| ==> subs[j] == Broadcasted(old(subs)[j], p)
      ensures forall j :: 0 <= j < |subs| ==>
                subs[j] == Chan(Some(p), old(subs)[j].received, old(subs)[j].sent + [p])
    {
      for i := 0 to |subs|
        invariant |subs| == |old(subs)|
        invariant forall j :: 0 <= j < i ==> subs[j] == Broadcasted(old(subs)[j], p)
        invariant forall j :: i <= j < |subs| ==> subs[j] == old(subs)[j]
      {
        var c := subs[i];
        var c' := SendStep(c, p, TrySend);
        if c.slot.Some? {
          c' := SendStep(c', p, Drain);
          c' := SendStep(c', p, Retry);
        }
        subs := subs[i := c'];
      }
    }

    /** A reload that fails to load keeps the last good policy and tells nobody. */
    method Reload(loaded: Option<V>)
      modifies this`cur, this`subs
      ensures loaded.None? ==> cur == old(cur) && subs == old(subs)
      ensures loaded.Some? ==> cur == loaded.value && |subs| == |old(subs)|
      ensures loaded.Some? ==> forall j :: 0 <= j < |subs| ==>
                subs[j] == Chan(Some(cur), old(subs)[j].received, old(subs)[j].sent + [cur])
    {
      if loaded.Some? {
        cur := loaded.value;
        Send(cur);
      }
    }
  }

  // ---- Invariant ----

  /** The newest value broadcast to the channel is the newest handed over. */
  ghost predicate Newest<V>(c: Chan<V>) {
    c.sent != [] ==> Delivered(c) != [] && Delivered(c)[|Delivered(c)| - 1] == c.sent[|c.sent| - 1]
  }

  ghost predicate Settled<V>(c: Chan<V>) {
    Subseq(Delivered(c), c.sent) && Newest(c)
  }

  /** Mid-broadcast: the new value is sent but not handed over; after the drain the slot is free. */
  ghost predicate Pending<V>(c: Chan<V>, v: V, stage: Stage) {
    && c.sent != [] && c.sent[|c.sent| - 1] == v
    && Subseq(Delivered(c), c.sent[..|c.sent| - 1])
    && (stage.Retry? ==> c.slot.None?)
  }

  ghost predicate Inv<V>(s: State<V>) {
    && (forall j :: 0 <= j < |s.subs| ==> ChanOk(s, j))
    && (s.control.Reloaded? || s.control.At? ==> s.control.v == s.cur)
    && (s.control.At? ==> s.control.i <= |s.subs| && (s.control.i == |s.subs| ==> s.control.stage.TrySend?))
  }

  ghost predicate ChanOk<V>(s: State<V>, j: nat)
    requires j < |s.subs|
  {
    var c := s.subs[j];
    if s.control.At? && s.control.i == j && !s.control.stage.TrySend? then Pending(c, s.control.v, s.control.stage)
    else Settled(c) && (Reached(s, j) && c.sent != [] ==> c.sent[|c.sent| - 1] == s.cur)
  }

  /** The current policy has been sent to subscriber `j`, if anything has. */
  predicate Reached<V>(s: State<V>, j: nat) {
    s.control.Idle? || (s.control.At? && j < s.control.i)
  }

  lemma SendSettled<V>(c: Chan<V>, v: V)
    requires Settled(c)
    ensures var c' := SendStep(c, v, TrySend);
            if c.slot.None? then Settled(c') && c'.sent[|c'.sent| - 1] == v else Pending(c', v, Drain)
  {
    SubseqMore(Delivered(c), c.sent, v);
    var c' := SendStep(c, v, TrySend);
    assert c.slot.None? ==> Delivered(c') == Delivered(c) + [v];
    assert c'.sent[..|c'.sent| - 1] == c.sent;
  }

  lemma DrainPending<V>(c: Chan<V>, v: V)
    requires Pending(c, v, Drain)
    ensures Pending(SendStep(c, v, Drain), v, Retry)
  {
    if c.slot.Some? {
      SubseqDropLast(Delivered(c), c.sent[..|c.sent| - 1]);
      assert Delivered(c)[..|Delivered(c)| - 1] == c.received;
    }
    assert c.received + [] == c.received;
  }

  /** A channel whose last value sent and last value handed over are both `v` is settled. */
  lemma HandedOver<V>(c: Chan<V>, delivered: seq<V>, sent: seq<V>, v: V)
    requires Subseq(delivered, sent) && Delivered(c) == delivered + [v] && c.sent == sent + [v]
    ensures Settled(c) && c.sent[|c.sent| - 1] == v
  {
    SubseqMore(delivered, sent, v);
  }

  lemma RetryPending<V>(c: Chan<V>, v: V)
    requires Pending(c, v, Retry)
    ensures var c' := SendStep(c, v, Retry); Settled(c') && c'.sent[|c'.sent| - 1] == v
  {
    var n, c' := |c.sent| - 1, SendStep(c, v, Retry);
    assert c'.sent == c.sent[..n] + [v];
    assert Delivered(c) == c.received by {
      assert c.received + [] == c.received;
    }
    HandedOver(c', Delivered(c), c.sent[..n], v);
  }

  lemma AdvanceStep<V>(s: State<V>)
    requires Inv(s) && s.control.At?
    ensures Inv(Do(s, Advance))
  {
    var At(v, i, stage) := s.control;
    if i < |s.subs| {
      var s' := Do(s, Advance);
      assert ChanOk(s, i);
      match stage {
        case TrySend => SendSettled(s.subs[i], v);
        case Drain => DrainPending(s.subs[i], v);
        case Retry => RetryPending(s.subs[i], v);
      }
      forall j | 0 <= j < |s'.subs| ensures ChanOk(s', j) {
        assert ChanOk(s, j);
      }
    } else {
      var s' := Do(s, Advance);
      forall j | 0 <= j < |s'.subs| ensures ChanOk(s', j) {
        assert ChanOk(s, j);
      }
    }
  }

  lemma ReceiveStep<V>(s: State<V>, j: nat)
    requires Inv(s) && Enabled(s, Receive(j))
    ensures Inv(Do(s, Receive(j)))
  {
    var s' := Do(s, Receive(j));
    assert ChanOk(s, j);
    assert Delivered(s'.subs[j]) == Delivered(s.subs[j]);
    forall i | 0 <= i < |s'.subs| ensures ChanOk(s', i) {
      assert ChanOk(s, i);
    }
  }

  lemma InvStep<V>(s: State<V>, a: Step<V>)
    requires Inv(s) && Enabled(s, a)
    ensures Inv(Do(s, a))
  {
    match a
    case Advance => AdvanceStep(s);
    case Receive(j) => ReceiveStep(s, j);
    case _ =>
      var s' := Do(s, a);
      forall j | 0 <= j < |s'.subs| ensures ChanOk(s', j) {
        if j < |s.subs| {
          assert ChanOk(s, j);
        }
      }
  }

  // ---- Runs ----

  ghost predicate Reaches<V(!new)>(init: V, steps: seq<Step<V>>, s: State<V>) {
    if steps == [] then s == State(init, [], Idle)
    else
      var n := |steps| - 1;
      exists m :: Reaches(init, steps[..n], m) && Enabled(m, steps[n]) && s == Do(m, steps[n])
  }

  lemma {:induction false} Invariant<V(!new)>(init: V, steps: seq<Step<V>>, s: State<V>)
    requires Reaches(init, steps, s)
    ensures Inv(s)
  {
    if steps != [] {
      var n := |steps| - 1;
      var m :| Reaches(init, steps[..n], m) && Enabled(m, steps[n]) && s == Do(m, steps[n]);
      Invariant(init, steps[..n], m);
      InvStep(m, steps[n]);
    }
  }

  lemma {:induction false} SubseqPrefix<V>(a: seq<V>, tail: seq<V>, b: seq<V>)
    requires Subseq(a + tail, b)
    ensures Subseq(a, b)
  {
    if tail == [] {
      assert a + tail == a;
    } else {
      SubseqDropLast(a + tail, b);
      assert (a + tail)[..|a + tail| - 1] == a + tail[..|tail| - 1];
      SubseqPrefix(a, tail[..|tail| - 1], b);
    }
  }

  /** In every interleaving a subscriber receives, in order, some of what was broadcast to it. */
  lemma ReceivesSubsequence<V(!new)>(init: V, steps: seq<Step<V>>, s: State<V>, j: nat)
    requires Reaches(init, steps, s) && j < |s.subs|
    ensures exists at :: Embeds(s.subs[j].received, s.subs[j].sent, at)
  {
    Invariant(init, steps, s);
    var c := s.subs[j];
    assert ChanOk(s, j);
    SubseqPrefix(c.received, if c.slot.Some? then [c.slot.value] else [], c.sent);
    var at := SubseqEmbeds(c.received, c.sent);
  }

  /** Whenever no broadcast is under way, every subscriber that has been sent anything has the
      current policy waiting in its slot, or received it last. */
  lemma LatestKept<V(!new)>(init: V, steps: seq<Step<V>>, s: State<V>, j: nat)
    requires Reaches(init, steps, s) && j < |s.subs| && s.control.Idle? && s.subs[j].sent != []
    ensures var c := s.subs[j];
            if c.slot.Some? then c.slot.value == s.cur
            else c.received != [] && c.received[|c.received| - 1] == s.cur
  {
    Invariant(init, steps, s);
    assert ChanOk(s, j);
    var c := s.subs[j];
    assert Delivered(c)[|Delivered(c)| - 1] == s.cur;
  }

  /** With a single producer the second send never finds the slot full. */
  lemma RetrySucceeds<V(!new)>(init: V, steps: seq<Step<V>>, s: State<V>)
    requires Reaches(init, steps, s) && s.control.At? && s.control.stage.Retry?
    ensures s.control.i < |s.subs| && s.subs[s.control.i].slot.None?
  {
    Invariant(init, steps, s);
    assert ChanOk(s, s.control.i);
  }
}
