/** DNS learning: answers become verdicts for the resolved addresses, with an expiry. */
module Learner {
  import opened Base
  import opened Lpm
  import opened Policy
  import opened Engine
  import opened Kernel
  import opened Programmer
  import P = VerdictProtocol

  // ---- The captured event ----

  const RecordHeader: nat := 16

  /** A captured DNS answer: the cgroup that received it and the message bytes. */
  datatype Record = Record(cgroup: U64, payload: Bytes)

  /** Reads the event header; short, empty, overlong and unattributed events are ignored. */
  function ParseRecord(raw: Bytes): (r: Option<Record>)
    ensures r.Some? ==> r.value.cgroup != 0 && r.value.payload != [] && RecordHeader + |r.value.payload| <= |raw|
  {
    if |raw| < RecordHeader then None
    else
      LittleEndianBound(raw[8..16]);
      Pow2Values();
      var plen, cg := LittleEndianValue(raw[0..4]), LittleEndianValue(raw[8..16]);
      if cg == 0 || plen == 0 || RecordHeader + plen > |raw| then None
      else Some(Record(cg, raw[RecordHeader..RecordHeader + plen]))
  }

  /** The layout the ingress hook writes: length, padding, cgroup, message. */
  function EncodeRecord(pad: Bytes, r: Record): Bytes {
    LittleEndian(|r.payload|, 4) + pad + LittleEndian(r.cgroup, 8) + r.payload
  }

  /** `raw` holds `r` as the hook writes it, with anything behind it. */
  predicate HoldsRecord(raw: Bytes, pad: Bytes, r: Record, slack: Bytes) {
    |pad| == 4 && r.cgroup != 0 && 0 < |r.payload| < 0x1_0000_0000 && raw == EncodeRecord(pad, r) + slack
  }

  lemma RecordRead(raw: Bytes, pad: Bytes, r: Record, slack: Bytes)
    requires HoldsRecord(raw, pad, r, slack)
    ensures ParseRecord(raw) == Some(r)
  {
    assert raw[0..4] == LittleEndian(|r.payload|, 4);
    assert raw[8..16] == LittleEndian(r.cgroup, 8);
    assert raw[16..16 + |r.payload|] == r.payload;
    Pow2Values();
    LittleEndianReads(|r.payload|, 4);
    LittleEndianReads(r.cgroup, 8);
  }

  /** Exactly the events laid out by the hook for a known cgroup are read, as what they hold. */
  lemma RecordExact(raw: Bytes, r: Record)
    ensures ParseRecord(raw) == Some(r) <==> exists pad, slack :: HoldsRecord(raw, pad, r, slack)
  {
    if ParseRecord(raw) == Some(r) {
      var pad, slack := raw[4..8], raw[16 + |r.payload|..];
      LittleEndianWrites(raw[0..4]);
      LittleEndianWrites(raw[8..16]);
      LittleEndianBound(raw[0..4]);
      Pow2Values();
      assert raw == raw[0..4] + raw[4..8] + raw[8..16] + raw[16..16 + |r.payload|] + raw[16 + |r.payload|..];
      assert HoldsRecord(raw, pad, r, slack);
    }
    if pad, slack :| HoldsRecord(raw, pad, r, slack) {
      RecordRead(raw, pad, r, slack);
    }
  }

  /** One answer record, as the message parser yields it. */
  datatype Answer = A(addr: U32, ttl: U32) | OtherRecord

  /** A parsed response: question names, then answers up to the first parse error; nothing when the
      message or a question is malformed. */
  datatype Message = Message(questions: seq<string>, answers: seq<Answer>)

  // ---- Reading a response ----

  function FirstName(questions: seq<string>): string {
    if questions == [] then ""
    else
      var before := FirstName(questions[..|questions| - 1]);
      if before != "" then before else TrimDot(questions[|questions| - 1])
  }

  function Addresses(answers: seq<Answer>): seq<U32> {
    if answers == [] then []
    else
      var last := answers[|answers| - 1];
      Addresses(answers[..|answers| - 1]) + if last.A? then [last.addr] else []
  }

  function Ttls(answers: seq<Answer>): seq<U32> {
    if answers == [] then []
    else
      var last := answers[|answers| - 1];
      Ttls(answers[..|answers| - 1]) + if last.A? then [last.ttl] else []
  }

  /** The running TTL, in which 0 doubles as "none yet". */
  function FoldTtl(ttls: seq<U32>): U32 {
    if ttls == [] then 0
    else
      var t, x := FoldTtl(ttls[..|ttls| - 1]), ttls[|ttls| - 1];
      if t == 0 || x < t then x else t
  }

  /** `q` is `s` without its final dot, if it has one. */
  predicate Undotted(s: string, q: string) {
    s == q + "." || (s == q && (q == "" || q[|q| - 1] != '.'))
  }

  /** `q` is the first question that is not empty once undotted; "" when there is none. */
  ghost predicate Asks(questions: seq<string>, q: string) {
    if q == "" then forall i :: 0 <= i < |questions| ==> Undotted(questions[i], "")
    else exists i :: 0 <= i < |questions| && FirstAsked(questions, q, i)
  }

  predicate FirstAsked(questions: seq<string>, q: string, i: nat)
    requires i < |questions|
  {
    Undotted(questions[i], q) && forall j :: 0 <= j < i ==> Undotted(questions[j], "")
  }

  /** `at` lists the positions of all A records in order, where `ips` and `ttls` stand. */
  ghost predicate ReadsOff(answers: seq<Answer>, at: seq<nat>, ips: seq<U32>, ttls: seq<U32>) {
    && |at| == |ips| == |ttls|
    && (forall a :: 0 <= a < |at| ==> at[a] < |answers| && answers[at[a]] == A(ips[a], ttls[a]))
    && (forall a, b :: 0 <= a < b < |at| ==> at[a] < at[b])
    && (forall i :: 0 <= i < |answers| && answers[i].A? ==> i in at)
  }

  /** Some answer resolves the question to `ip`. */
  ghost predicate Resolves(answers: seq<Answer>, ip: U32) {
    exists i :: 0 <= i < |answers| && answers[i].A? && answers[i].addr == ip
  }

  lemma TrimDotUndots(s: string, q: string)
    ensures TrimDot(s) == q <==> Undotted(s, q)
  {
    if s != "" {
      var n := |s| - 1;
      assert s == s[..n] + [s[n]] && s[n..] == [s[n]];
      assert s == q + "." ==> s[..n] == q;
    }
  }

  lemma AsksMore(questions: seq<string>, q: string, last: string)
    requires Asks(questions, q)
    ensures Asks(questions + [last], if q != "" then q else TrimDot(last))
  {
    var all, q' := questions + [last], TrimDot(last);
    if q != "" {
      var i :| 0 <= i < |questions| && FirstAsked(questions, q, i);
      assert FirstAsked(all, q, i);
    } else {
      TrimDotUndots(last, q');
      assert all[|questions|] == last;
      assert forall j :: 0 <= j < |questions| ==> all[j] == questions[j];
      if q' != "" {
        assert FirstAsked(all, q', |questions|);
      }
    }
  }

  lemma {:induction false} FirstNameAsked(questions: seq<string>)
    ensures Asks(questions, FirstName(questions))
  {
    if questions != [] {
      var n := |questions| - 1;
      FirstNameAsked(questions[..n]);
      AsksMore(questions[..n], FirstName(questions[..n]), questions[n]);
      assert questions[..n] + [questions[n]] == questions;
    }
  }

  lemma AskedOnce(questions: seq<string>, q: string, q': string)
    requires Asks(questions, q) && Asks(questions, q')
    ensures q == q'
  {
    forall i | 0 <= i < |questions|
      ensures (Undotted(questions[i], q) <==> TrimDot(questions[i]) == q)
      ensures (Undotted(questions[i], q') <==> TrimDot(questions[i]) == q')
      ensures (Undotted(questions[i], "") <==> TrimDot(questions[i]) == "")
    {
      TrimDotUndots(questions[i], q);
      TrimDotUndots(questions[i], q');
      TrimDotUndots(questions[i], "");
    }
  }

  lemma ReadsOffSkip(answers: seq<Answer>, at: seq<nat>, ips: seq<U32>, ttls: seq<U32>)
    requires ReadsOff(answers, at, ips, ttls)
    ensures ReadsOff(answers + [OtherRecord], at, ips, ttls)
  {
    assert forall i :: 0 <= i < |answers| ==> (answers + [OtherRecord])[i] == answers[i];
  }

  lemma ReadsOffTake(answers: seq<Answer>, at: seq<nat>, ips: seq<U32>, ttls: seq<U32>, ip: U32, ttl: U32)
    requires ReadsOff(answers, at, ips, ttls)
    ensures ReadsOff(answers + [A(ip, ttl)], at + [|answers|], ips + [ip], ttls + [ttl])
  {
    var all, at' := answers + [A(ip, ttl)], at + [|answers|];
    assert forall i :: 0 <= i < |answers| ==> all[i] == answers[i];
    forall i | 0 <= i < |all| && all[i].A? ensures i in at' {
      if i < |answers| {
        assert i in at;
      } else {
        assert at'[|at|] == i;
      }
    }
  }

  lemma {:induction false} AnswersReadOff(answers: seq<Answer>) returns (at: seq<nat>)
    ensures ReadsOff(answers, at, Addresses(answers), Ttls(answers))
  {
    if answers == [] {
      at := [];
    } else {
      var n := |answers| - 1;
      var ips, ttls := Addresses(answers[..n]), Ttls(answers[..n]);
      at := AnswersReadOff(answers[..n]);
      assert answers == answers[..n] + [answers[n]];
      match answers[n]
      case A(ip, ttl) =>
        ReadsOffTake(answers[..n], at, ips, ttls, ip, ttl);
        at := at + [n];
      case OtherRecord =>
        ReadsOffSkip(answers[..n], at, ips, ttls);
        assert ips + [] == ips && ttls + [] == ttls;
    }
  }

  lemma AddressesResolve(answers: seq<Answer>, ip: U32)
    ensures ip in Addresses(answers) <==> Resolves(answers, ip)
  {
    var at := AnswersReadOff(answers);
    var ips := Addresses(answers);
    if ip in ips {
      var a :| 0 <= a < |ips| && ips[a] == ip;
      assert answers[at[a]].addr == ip;
    }
    if i :| 0 <= i < |answers| && answers[i].A? && answers[i].addr == ip {
      var a :| 0 <= a < |at| && at[a] == i;
      assert ips[a] == ip;
    }
  }

  /** Extracts the first question name, the A-record addresses in order, and the folded TTL. */
  method ParseAnswers(m: Message) returns (qname: string, ips: seq<U32>, ttl: U32)
    ensures qname == FirstName(m.questions) && ips == Addresses(m.answers) && ttl == FoldTtl(Ttls(m.answers))
    ensures Asks(m.questions, qname)
    ensures exists at, ttls :: ReadsOff(m.answers, at, ips, ttls) && ttl == FoldTtl(ttls)
  {
    qname := "";
    for i := 0 to |m.questions|
      invariant qname == FirstName(m.questions[..i])
    {
      assert m.questions[..i + 1][..i] == m.questions[..i];
      if qname == "" {
        qname := TrimDot(m.questions[i]);
      }
    }
    assert m.questions[..|m.questions|] == m.questions;
    ips, ttl := CollectAnswers(m.answers);
    FirstNameAsked(m.questions);
    ghost var at := AnswersReadOff(m.answers);
  }

  method CollectAnswers(answers: seq<Answer>) returns (ips: seq<U32>, ttl: U32)
    ensures ips == Addresses(answers) && ttl == FoldTtl(Ttls(answers))
  {
    ips, ttl := [], 0;
    for i := 0 to |answers|
      invariant ips == Addresses(answers[..i]) && ttl == FoldTtl(Ttls(answers[..i]))
    {
      assert answers[..i + 1][..i] == answers[..i];
      var a := answers[i];
      if a.A? {
        ips := ips + [a.addr];
        ghost var ts := Ttls(answers[..i]);
        assert Ttls(answers[..i + 1]) == ts + [a.ttl] && (ts + [a.ttl])[..|ts|] == ts;
        if ttl == 0 || a.ttl < ttl {
          ttl := a.ttl;
        }
      } else {
        assert Ttls(answers[..i]) + [] == Ttls(answers[..i]);
      }
    }
    assert answers[..|answers|] == answers;
  }

  ghost predicate IsLeast(x: U32, ttls: seq<U32>) {
    x in ttls && forall y <- ttls :: x <= y
  }

  lemma {:induction false} FoldTtlZero(ttls: seq<U32>)
    requires ttls != []
    ensures FoldTtl(ttls) == 0 <==> ttls[|ttls| - 1] == 0
  {
    var n := |ttls| - 1;
    if n > 0 {
      FoldTtlZero(ttls[..n]);
    }
  }

  lemma {:induction false} FoldTtlPositive(ttls: seq<U32>)
    requires ttls != [] && 0 !in ttls
    ensures IsLeast(FoldTtl(ttls), ttls)
  {
    var n := |ttls| - 1;
    assert ttls == ttls[..n] + [ttls[n]];
    if n > 0 {
      FoldTtlPositive(ttls[..n]);
      FoldTtlZero(ttls[..n]);
      assert ttls[..n][n - 1] in ttls;
    }
  }

  /** The fold is the smallest TTL exactly when a zero TTL, if there is one, comes last. */
  lemma SmallestTtlExact(ttls: seq<U32>)
    requires ttls != []
    ensures IsLeast(FoldTtl(ttls), ttls) <==> (0 in ttls ==> ttls[|ttls| - 1] == 0)
  {
    FoldTtlZero(ttls);
    if 0 !in ttls {
      FoldTtlPositive(ttls);
    }
  }

  /** A zero TTL followed by a long one is forgotten, and the verdict is kept the whole hour. */
  lemma ZeroTtlForgotten()
    ensures FoldTtl([0, 86400]) == 86400 && P.ClampTtl(FoldTtl([0, 86400])) == P.MaxLearnTtl
    ensures P.ClampTtl(0) == P.MinLearnTtl
  {
    assert [0, 86400][..1] == [0] && [0][..0] == [];
    assert FoldTtl([0]) == 0;
  }

  // ---- Learning ----

  /** No listed port means any port. */
  function PortsOrAny(ports: seq<U16>): (r: seq<U16>)
    ensures r != []
  {
    if ports == [] then [0] else ports
  }

  function LearnedKeys(cg: U64, ips: seq<U32>, ports: seq<U16>): set<Key> {
    set ip <- ips, k <- PortKeys(cg, ip, ports) :: k
  }

  class DnsLearner {
    var verdicts: Table
    var entries: map<Key, P.Time>
    var engine: CompiledEngine
    var reliable: bool

    constructor (verdicts: Table, engine: CompiledEngine, reliable: bool)
      ensures this.verdicts == verdicts && entries == map[] && this.engine == engine && this.reliable == reliable
    {
      this.verdicts, this.entries, this.engine, this.reliable := verdicts, map[], engine, reliable;
    }

    method SetEngine(e: CompiledEngine)
      modifies this`engine
      ensures engine == e
    {
      engine := e;
    }

    /** Learns one key: the map write, then its expiry. `got` is what was learned. */
    method Learn(k: Key, act: Byte, expiry: P.Time) returns (ghost got: set<Key>)
      modifies this`verdicts, this`entries
      ensures LearnedOver(old(verdicts), old(entries), verdicts, entries, got, act, expiry)
      ensures got <= {k} && (reliable ==> got == {k})
    {
      var ok := *;
      got := {};
      LearnedNothing(verdicts, entries, act, expiry);
      if reliable || ok {
        got := {k};
        verdicts := verdicts[k := act];
        entries := entries[k := expiry];
      }
    }

    method LearnPorts(cg: U64, ip: U32, ports: seq<U16>, act: Byte, expiry: P.Time) returns (ghost got: set<Key>)
      modifies this`verdicts, this`entries
      ensures LearnedOver(old(verdicts), old(entries), verdicts, entries, got, act, expiry)
      ensures got <= PortKeys(cg, ip, ports) && (reliable ==> got == PortKeys(cg, ip, ports))
    {
      got := {};
      LearnedNothing(verdicts, entries, act, expiry);
      for i := 0 to |ports|
        invariant LearnedOver(old(verdicts), old(entries), verdicts, entries, got, act, expiry)
        invariant got <= PortKeys(cg, ip, ports[..i]) && (reliable ==> got == PortKeys(cg, ip, ports[..i]))
      {
        ghost var v, e := verdicts, entries;
        ghost var more := Learn(VerdictKey(cg, ip, ports[i]), act, expiry);
        LearnedThen(old(verdicts), old(entries), v, e, verdicts, entries, got, more, act, expiry);
        got := got + more;
        assert ports[..i + 1] == ports[..i] + [ports[i]];
        assert PortKeys(cg, ip, ports[..i + 1]) == PortKeys(cg, ip, ports[..i]) + {VerdictKey(cg, ip, ports[i])};
      }
      assert ports[..|ports|] == ports;
    }

    method LearnAll(cg: U64, ips: seq<U32>, ports: seq<U16>, act: Byte, expiry: P.Time) returns (ghost got: set<Key>)
      modifies this`verdicts, this`entries
      ensures LearnedOver(old(verdicts), old(entries), verdicts, entries, got, act, expiry)
      ensures got <= LearnedKeys(cg, ips, ports) && (reliable ==> got == LearnedKeys(cg, ips, ports))
    {
      got := {};
      LearnedNothing(verdicts, entries, act, expiry);
      for i := 0 to |ips|
        invariant LearnedOver(old(verdicts), old(entries), verdicts, entries, got, act, expiry)
        invariant got <= LearnedKeys(cg, ips[..i], ports) && (reliable ==> got == LearnedKeys(cg, ips[..i], ports))
      {
        ghost var v, e := verdicts, entries;
        ghost var more := LearnPorts(cg, ips[i], ports, act, expiry);
        LearnedThen(old(verdicts), old(entries), v, e, verdicts, entries, got, more, act, expiry);
        got := got + more;
        assert ips[..i + 1] == ips[..i] + [ips[i]];
        assert LearnedKeys(cg, ips[..i + 1], ports) == LearnedKeys(cg, ips[..i], ports) + PortKeys(cg, ips[i], ports);
      }
      assert ips[..|ips|] == ips;
    }

    /** Handles one captured event. The first domain rule `d` for the pod and the question decides
        the action; a bad event or one without a name, an address or a rule teaches nothing. What
        was learned is what the engine says of the named flow. */
    method Handle(raw: Bytes, dns: Bytes -> Message, lookup: U64 -> PodInfo, now: P.Time)
      returns (d: Option<nat>, ghost got: set<Key>)
      requires EngineValid(engine)
      modifies this`verdicts, this`entries
      ensures d.None? ==> verdicts == old(verdicts) && entries == old(entries)
      ensures d.None? ==> ParseRecord(raw).None? || var r := ParseRecord(raw).value;
                          !Teaches(engine.policy, dns(r.payload), lookup(r.cgroup))
      ensures d.Some? ==> ParseRecord(raw).Some? && var r := ParseRecord(raw).value;
                          LearnedAnswer(engine.policy, d.value, r.cgroup, dns(r.payload), lookup(r.cgroup), now,
                                        old(verdicts), old(entries), verdicts, entries, got, reliable)
      ensures d.Some? && reliable ==> ParseRecord(raw).Some? && var r := ParseRecord(raw).value;
                          FollowsEngine(engine.policy, d.value, r.cgroup, dns(r.payload), lookup(r.cgroup), old(verdicts), verdicts)
    {
      d, got := None, {};
      var rec := ParseRecord(raw);
      if rec.None? {
        return;
      }
      var cg, m := rec.value.cgroup, dns(rec.value.payload);
      var pod := lookup(cg);
      d, got := HandleMessage(cg, m, pod, now);
      if d.Some? && reliable {
        LearnedFollowsEngine(engine.policy, d.value, cg, m, pod, now, old(verdicts), old(entries), verdicts, entries, got);
      }
    }

    method HandleMessage(cg: U64, m: Message, pod: PodInfo, now: P.Time) returns (d: Option<nat>, ghost got: set<Key>)
      requires EngineValid(engine)
      modifies this`verdicts, this`entries
      ensures d.None? ==> verdicts == old(verdicts) && entries == old(entries) && !Teaches(engine.policy, m, pod)
      ensures d.Some? ==> LearnedAnswer(engine.policy, d.value, cg, m, pod, now,
                                        old(verdicts), old(entries), verdicts, entries, got, reliable)
    {
      d, got := None, {};
      var qname, ips, ttl := ParseAnswers(m);
      if qname == "" || ips == [] {
        NothingTaught(engine.policy, m, pod);
        return;
      }
      d := PickRule(pod, qname);
      if d.Some? {
        got := LearnRule(engine.policy.rules[d.value], cg, ips, ttl, now);
        LearnedIsAnswer(engine.policy, d.value, cg, m, pod, now, old(verdicts), old(entries), verdicts, entries, got, reliable);
      } else {
        NothingTaught(engine.policy, m, pod);
      }
    }

    method PickRule(pod: PodInfo, qname: string) returns (d: Option<nat>)
      requires EngineValid(engine)
      ensures d.Some? ==> FirstDomainRule(engine.policy, pod, pod.labels, qname, d.value)
      ensures d.None? ==> NoDomainRule(engine.policy.rules, pod, pod.labels, qname)
    {
      var out, i := DomainRuleVerdict(engine, pod, pod.labels, qname);
      d := if out.Some? then Some(i) else None;
    }

    method LearnRule(r: Rule, cg: U64, ips: seq<U32>, ttl: U32, now: P.Time) returns (ghost got: set<Key>)
      modifies this`verdicts, this`entries
      ensures LearnedFrom(r, cg, ips, ttl, now, old(verdicts), old(entries), verdicts, entries, got, reliable)
    {
      got := LearnAll(cg, ips, PortsOrAny(r.match_.ports), ActionByte(r.action), now + P.ClampTtl(ttl));
    }

    /** Deletes exactly the expired learned verdicts and their entries. */
    method Sweep(now: P.Time)
      modifies this`verdicts, this`entries
      ensures forall k :: k in entries <==> k in old(entries) && now <= old(entries)[k]
      ensures forall k :: k in verdicts <==> k in old(verdicts) && (k in old(entries) ==> now <= old(entries)[k])
      ensures forall k <- entries :: entries[k] == old(entries)[k]
      ensures forall k <- verdicts :: verdicts[k] == old(verdicts)[k]
    {
      var todo := entries.Keys;
      while todo != {}
        invariant todo <= entries.Keys
        invariant verdicts == old(verdicts) - (Expired(old(entries), now) - todo)
        invariant entries == old(entries) - (Expired(old(entries), now) - todo)
        decreases todo
      {
        var k :| k in todo;
        if now > entries[k] {
          verdicts := verdicts - {k};
          entries := entries - {k};
        }
        todo := todo - {k};
      }
      assert Expired(old(entries), now) - {} == Expired(old(entries), now);
    }
  }

  function Expired(entries: map<Key, P.Time>, now: P.Time): set<Key> {
    set k <- entries | now > entries[k]
  }

  /** From (v, e) to (v', e'): exactly `got` was learned, with `act` and `expiry`. */
  ghost predicate LearnedOver(v: Table, e: map<Key, P.Time>, v': Table, e': map<Key, P.Time>,
                              got: set<Key>, act: Byte, expiry: P.Time) {
    v' == v + Fill(got, act) && e' == e + Fill(got, expiry)
  }

  /** Rule `r` was learned from a response: its action, for every address and listed port. */
  ghost predicate LearnedFrom(r: Rule, cg: U64, ips: seq<U32>, ttl: U32, now: P.Time, v: Table, e: map<Key, P.Time>,
                              v': Table, e': map<Key, P.Time>, got: set<Key>, reliable: bool) {
    var keys := LearnedKeys(cg, ips, PortsOrAny(r.match_.ports));
    && got <= keys && (reliable ==> got == keys)
    && LearnedOver(v, e, v', e', got, ActionByte(r.action), now + P.ClampTtl(ttl))
  }

  /** A response with a name, an address and a domain rule for the pod. */
  ghost predicate Teaches(p: EgressPolicy, m: Message, pod: PodInfo) {
    && (exists ip :: Resolves(m.answers, ip))
    && exists q :: Asks(m.questions, q) && q != "" && !NoDomainRule(p.rules, pod, pod.labels, q)
  }

  /** Rule `d` is the first domain rule for the pod and the question. */
  ghost predicate AsksRule(p: EgressPolicy, d: nat, m: Message, pod: PodInfo) {
    exists q :: Asks(m.questions, q) && q != "" && FirstDomainRule(p, pod, pod.labels, q, d)
  }

  /** What rule `r` has to say about the response: every resolved address, on every port it lists, or
      on any port when it lists none. */
  ghost predicate Taught(r: Rule, cg: U64, answers: seq<Answer>, k: Key) {
    && k.VerdictKey? && k.cgroup == cg && Resolves(answers, k.addr)
    && if r.match_.ports == [] then k.port == 0 else k.port in r.match_.ports
  }

  /** Rule `d`, the first domain rule for the pod and the question, was learned from the response:
      `got` of its keys, and all of them when writes succeed. */
  ghost predicate LearnedAnswer(p: EgressPolicy, d: nat, cg: U64, m: Message, pod: PodInfo, now: P.Time,
                                v: Table, e: map<Key, P.Time>, v': Table, e': map<Key, P.Time>,
                                got: set<Key>, reliable: bool) {
    && AsksRule(p, d, m, pod) && d < |p.rules| && (exists ip :: Resolves(m.answers, ip))
    && (forall k <- got :: Taught(p.rules[d], cg, m.answers, k))
    && (reliable ==> forall k :: Taught(p.rules[d], cg, m.answers, k) ==> k in got)
    && LearnedOver(v, e, v', e', got, ActionByte(p.rules[d].action), now + P.ClampTtl(FoldTtl(Ttls(m.answers))))
  }

  lemma TaughtKeys(r: Rule, cg: U64, answers: seq<Answer>, k: Key)
    ensures k in LearnedKeys(cg, Addresses(answers), PortsOrAny(r.match_.ports)) <==> Taught(r, cg, answers, k)
  {
    var ips, ports := Addresses(answers), PortsOrAny(r.match_.ports);
    if k in LearnedKeys(cg, ips, ports) {
      AddressesResolve(answers, k.addr);
    }
    if Taught(r, cg, answers, k) {
      AddressesResolve(answers, k.addr);
      assert k in PortKeys(cg, k.addr, ports);
    }
  }

  lemma LearnedIsAnswer(p: EgressPolicy, d: nat, cg: U64, m: Message, pod: PodInfo, now: P.Time,
                        v: Table, e: map<Key, P.Time>, v': Table, e': map<Key, P.Time>, got: set<Key>, reliable: bool)
    requires FirstName(m.questions) != "" && Addresses(m.answers) != []
    requires FirstDomainRule(p, pod, pod.labels, FirstName(m.questions), d)
    requires LearnedFrom(p.rules[d], cg, Addresses(m.answers), FoldTtl(Ttls(m.answers)), now, v, e, v', e', got, reliable)
    ensures LearnedAnswer(p, d, cg, m, pod, now, v, e, v', e', got, reliable)
  {
    FirstNameAsked(m.questions);
    AddressesResolve(m.answers, Addresses(m.answers)[0]);
    forall k ensures k in LearnedKeys(cg, Addresses(m.answers), PortsOrAny(p.rules[d].match_.ports))
                     <==> Taught(p.rules[d], cg, m.answers, k)
    {
      TaughtKeys(p.rules[d], cg, m.answers, k);
    }
  }

  lemma NothingTaught(p: EgressPolicy, m: Message, pod: PodInfo)
    requires FirstName(m.questions) == "" || Addresses(m.answers) == []
             || NoDomainRule(p.rules, pod, pod.labels, FirstName(m.questions))
    ensures !Teaches(p, m, pod)
  {
    FirstNameAsked(m.questions);
    forall q | Asks(m.questions, q) ensures q == FirstName(m.questions) {
      AskedOnce(m.questions, q, FirstName(m.questions));
    }
    forall ip | Resolves(m.answers, ip) ensures ip in Addresses(m.answers) {
      AddressesResolve(m.answers, ip);
    }
  }

  lemma LearnedNothing(v: Table, e: map<Key, P.Time>, act: Byte, expiry: P.Time)
    ensures LearnedOver(v, e, v, e, {}, act, expiry)
  {
  }

  lemma LearnedThen(v0: Table, e0: map<Key, P.Time>, v1: Table, e1: map<Key, P.Time>, v2: Table, e2: map<Key, P.Time>,
                    a: set<Key>, b: set<Key>, act: Byte, expiry: P.Time)
    requires LearnedOver(v0, e0, v1, e1, a, act, expiry) && LearnedOver(v1, e1, v2, e2, b, act, expiry)
    ensures LearnedOver(v0, e0, v2, e2, a + b, act, expiry)
  {
    FillTwice(v0, a, b, act);
    FillTwice(e0, a, b, expiry);
  }

  // ---- What learning means in the datapath ----

  /** The first domain rule is the first match of the named flow, unless an earlier rule that
      bears no domain matches it. */
  lemma DomainRuleIsFirstMatch(p: EgressPolicy, d: nat, f: Flow)
    requires FirstDomainRule(p, f.pod, f.labels, f.domain, d)
    requires var m := p.rules[d].match_; m.cidrs == [] && !HasL7(m) && (m.ports == [] || f.port in m.ports)
    requires forall j :: 0 <= j < d && !DomainBearing(p.rules[j]) ==> !Matches(p.rules[j], f)
    ensures Evaluate(p, f) == RuleVerdict(p.rules[d])
  {
    forall j | 0 <= j < d ensures !Matches(p.rules[j], f) {
      assert p.rules[j] in p.rules[..d];
      assert !DomainRuleFor(p.rules[j], f.pod, f.labels, f.domain);
    }
    FirstMatchAt(p.rules, f, d);
  }

  /** Two tables hold the same verdicts; their networks and defaults may differ. */
  ghost predicate SameVerdicts(t: Table, v: Table) {
    forall k: Key :: k.VerdictKey? ==> (k in t <==> k in v) && (k in t ==> t[k] == v[k])
  }

  /** Whatever else the maps hold, the datapath treats a learned address on a covered port as the
      rule does, except exactly where a different exact-port verdict shadows an any-port one. */
  lemma LearnedVerdict(v: Table, t: Table, cg: U64, ips: seq<U32>, ports: seq<U16>, act: Byte, ip: U32, port: U16)
    requires ip in ips && port != 0 && (ports == [] || port in ports)
    requires SameVerdicts(t, v + Fill(LearnedKeys(cg, ips, PortsOrAny(ports)), act))
    ensures var exact := VerdictKey(cg, ip, port);
            VerdictFor(t, Dest(cg, ip, port)) == act <==> ports != [] || exact !in v || v[exact] == act
  {
    var keys := LearnedKeys(cg, ips, PortsOrAny(ports));
    var exact, any := VerdictKey(cg, ip, port), VerdictKey(cg, ip, 0);
    if ports == [] {
      assert any in PortKeys(cg, ip, PortsOrAny(ports)) && exact !in keys;
      assert any in keys;
      assert any in t && t[any] == act && (exact in t <==> exact in v);
    } else {
      assert exact in PortKeys(cg, ip, PortsOrAny(ports));
      assert exact in keys;
      assert exact in t && t[exact] == act;
    }
  }

  /** A flow of the pod to a resolved address under the question's name, on a port the rule covers,
      for which no earlier domain-free rule speaks. */
  ghost predicate DecidedBy(p: EgressPolicy, d: nat, m: Message, pod: PodInfo, f: Flow)
    requires d < |p.rules|
  {
    var r := p.rules[d].match_;
    && f.pod == pod && f.labels == pod.labels && Asks(m.questions, f.domain)
    && f.dst.Some? && f.dst.value.Ip4? && Resolves(m.answers, f.dst.value.v4)
    && f.port != 0 && r.cidrs == [] && !HasL7(r) && (r.ports == [] || f.port in r.ports)
    && forall j :: 0 <= j < d && !DomainBearing(p.rules[j]) ==> !Matches(p.rules[j], f)
  }

  /** From `v` to `v'` the datapath came to treat the flows rule `d` decides as the engine does,
      except exactly where a different exact-port verdict shadows an any-port one. */
  ghost predicate FollowsEngine(p: EgressPolicy, d: nat, cg: U64, m: Message, pod: PodInfo, v: Table, v': Table) {
    d < |p.rules| &&
    forall f: Flow, t: Table :: SameVerdicts(t, v') && DecidedBy(p, d, m, pod, f) ==>
      var exact := VerdictKey(cg, f.dst.value.v4, f.port);
      VerdictFor(t, Dest(cg, f.dst.value.v4, f.port)) == ActionByte(Evaluate(p, f).action)
      <==> p.rules[d].match_.ports != [] || exact !in v || v[exact] == ActionByte(p.rules[d].action)
  }

  /** End to end: handling an answer with writes that succeed makes the datapath follow the engine
      on every flow the learned rule decides. */
  lemma LearnedFollowsEngine(p: EgressPolicy, d: nat, cg: U64, m: Message, pod: PodInfo, now: P.Time,
                             v: Table, e: map<Key, P.Time>, v': Table, e': map<Key, P.Time>, got: set<Key>)
    requires LearnedAnswer(p, d, cg, m, pod, now, v, e, v', e', got, true)
    ensures FollowsEngine(p, d, cg, m, pod, v, v')
  {
    var keys := LearnedKeys(cg, Addresses(m.answers), PortsOrAny(p.rules[d].match_.ports));
    assert got == keys by {
      forall k ensures k in keys <==> k in got {
        TaughtKeys(p.rules[d], cg, m.answers, k);
      }
    }
    forall f: Flow, t: Table | SameVerdicts(t, v') && DecidedBy(p, d, m, pod, f)
      ensures var exact := VerdictKey(cg, f.dst.value.v4, f.port);
              VerdictFor(t, Dest(cg, f.dst.value.v4, f.port)) == ActionByte(Evaluate(p, f).action)
              <==> p.rules[d].match_.ports != [] || exact !in v || v[exact] == ActionByte(p.rules[d].action)
    {
      var r := p.rules[d];
      var q :| Asks(m.questions, q) && q != "" && FirstDomainRule(p, pod, pod.labels, q, d);
      AskedOnce(m.questions, q, f.domain);
      DomainRuleIsFirstMatch(p, d, f);
      AddressesResolve(m.answers, f.dst.value.v4);
      LearnedVerdict(v, t, cg, Addresses(m.answers), r.match_.ports, ActionByte(r.action), f.dst.value.v4, f.port);
    }
  }
}
