/** The HTTP/2 client-stream decoder: preface, frames, and HEADERS blocks handed to HPACK. */
module Http2 {
  import opened Base

  datatype Field = Field(name: string, value: string)

  datatype Request = Request(method_: string, host: string, path: string, headers: seq<Field>)

  /** HPACK, seen as a deterministic state transformer: a decoder state and a block give the next
      state and the fields, or an error. */
  type Hpack<!H> = (H, Bytes) -> (H, Option<seq<Field>>)

  /** "PRI * HTTP/2.0\r\n\r\nSM\r\n\r\n" */
  const Preface: Bytes :=
    [80, 82, 73, 32, 42, 32, 72, 84, 84, 80, 47, 50, 46, 48, 13, 10, 13, 10, 83, 77, 13, 10, 13, 10]

  const FrameHeaders: Byte := 1
  const MaxFrame: nat := 0x100_0000

  predicate EndHeaders(flags: Byte) { flags / 4 % 2 == 1 }
  predicate Padded(flags: Byte) { flags / 8 % 2 == 1 }
  predicate Prioritized(flags: Byte) { flags / 32 % 2 == 1 }

  function Bit(b: bool, value: nat): nat {
    if b then value else 0
  }

  /** The HEADERS flags of section 6.2 of RFC 9113: 0x04 ends the block, 0x08 says it is padded and
      0x20 that it carries a priority, whatever the other bits. */
  lemma FlagBits(b0: bool, b1: bool, b2: bool, b3: bool, b4: bool, b5: bool, b6: bool, b7: bool)
    ensures var flags := Bit(b0, 0x01) + Bit(b1, 0x02) + Bit(b2, 0x04) + Bit(b3, 0x08)
                         + Bit(b4, 0x10) + Bit(b5, 0x20) + Bit(b6, 0x40) + Bit(b7, 0x80);
            EndHeaders(flags) == b2 && Padded(flags) == b3 && Prioritized(flags) == b5
  {
  }

  // ---- HEADERS payloads ----

  /** The header block fragment of a HEADERS payload, or none when the payload is too short for
      its flags. */
  function Fragment(payload: Bytes, flags: Byte): Option<Bytes> {
    var unpadded :=
      if !Padded(flags) then Some(payload)
      else if |payload| < 1 || payload[0] > |payload| - 1 then None
      else Some(payload[1..|payload| - payload[0]]);
    if unpadded.None? then None
    else if !Prioritized(flags) then unpadded
    else if |unpadded.value| < 5 then None
    else Some(unpadded.value[5..])
  }

  function AddField(r: Request, f: Field): Request {
    if f.name == ":method" then r.(method_ := f.value)
    else if f.name == ":path" then r.(path := f.value)
    else if f.name == ":authority" then r.(host := f.value)
    else if f.name == ":scheme" then r
    else
      r.(host := if f.name == "host" && r.host == "" then f.value else r.host,
         headers := r.headers + [f])
  }

  function Collect(fields: seq<Field>): Request {
    if fields == [] then Request("", "", "", [])
    else AddField(Collect(fields[..|fields| - 1]), fields[|fields| - 1])
  }

  function RequestOf(fields: Option<seq<Field>>): seq<Request> {
    if fields.None? then []
    else
      var r := Collect(fields.value);
      if r.method_ == "" || r.path == "" then [] else [r]
  }

  /** The last value given to a field name, or "". */
  function LastValue(fields: seq<Field>, name: string): string {
    if fields == [] then ""
    else if fields[|fields| - 1].name == name then fields[|fields| - 1].value
    else LastValue(fields[..|fields| - 1], name)
  }

  predicate Pseudo(name: string) {
    name in {":method", ":path", ":authority", ":scheme"}
  }

  function Regular(fields: seq<Field>): seq<Field> {
    if fields == [] then []
    else
      var last := fields[|fields| - 1];
      Regular(fields[..|fields| - 1]) + if Pseudo(last.name) then [] else [last]
  }

  /** The first nonempty `host` field. */
  function FirstHost(fields: seq<Field>): string {
    if fields == [] then ""
    else
      var before, last := FirstHost(fields[..|fields| - 1]), fields[|fields| - 1];
      if before == "" && last.name == "host" then last.value else before
  }

  /** The fields behind the last authority. */
  function AfterAuthority(fields: seq<Field>): seq<Field> {
    if fields == [] || fields[|fields| - 1].name == ":authority" then []
    else AfterAuthority(fields[..|fields| - 1]) + [fields[|fields| - 1]]
  }

  lemma FirstHostExtend(fields: seq<Field>, last: Field)
    ensures FirstHost(fields + [last])
            == if FirstHost(fields) == "" && last.name == "host" then last.value else FirstHost(fields)
  {
    assert (fields + [last])[..|fields|] == fields;
  }

  lemma {:induction false} HostMeaning(fields: seq<Field>)
    ensures Collect(fields).host == if LastValue(fields, ":authority") != "" then LastValue(fields, ":authority")
                                    else FirstHost(AfterAuthority(fields))
  {
    if fields != [] {
      var n := |fields| - 1;
      HostMeaning(fields[..n]);
      if fields[n].name != ":authority" {
        FirstHostExtend(AfterAuthority(fields[..n]), fields[n]);
      }
    }
  }

  lemma {:induction false} NoAuthority(fields: seq<Field>)
    requires forall f <- fields :: f.name != ":authority"
    ensures AfterAuthority(fields) == fields
  {
    if fields != [] {
      var n := |fields| - 1;
      NoAuthority(fields[..n]);
      assert fields == fields[..n] + [fields[n]];
    }
  }

  lemma {:induction false} PseudoMeaning(fields: seq<Field>)
    ensures Collect(fields).method_ == LastValue(fields, ":method")
    ensures Collect(fields).path == LastValue(fields, ":path")
    ensures Collect(fields).headers == Regular(fields)
  {
    if fields != [] {
      PseudoMeaning(fields[..|fields| - 1]);
    }
  }

  /** A request carries the last method and path, every regular field in order, and as its host
      the last authority; where that is missing or empty, the first nonempty `host` field behind
      it, which without any authority is the first of all. */
  lemma {:induction false} CollectMeaning(fields: seq<Field>)
    ensures Collect(fields).method_ == LastValue(fields, ":method")
    ensures Collect(fields).path == LastValue(fields, ":path")
    ensures Collect(fields).headers == Regular(fields)
    ensures Collect(fields).host == if LastValue(fields, ":authority") != "" then LastValue(fields, ":authority")
                                    else FirstHost(AfterAuthority(fields))
    ensures (forall f <- fields :: f.name != ":authority") ==> AfterAuthority(fields) == fields
  {
    PseudoMeaning(fields);
    HostMeaning(fields);
    if forall f <- fields :: f.name != ":authority" {
      NoAuthority(fields);
    }
  }

  /** A decoded block is one request exactly when its last method and last path are both nonempty. */
  lemma RequestExactly(fields: seq<Field>)
    ensures RequestOf(Some(fields)) ==
            if LastValue(fields, ":method") != "" && LastValue(fields, ":path") != "" then [Collect(fields)] else []
    ensures RequestOf(None) == []
  {
    PseudoMeaning(fields);
  }

  // ---- The decoder as a function of its state ----

  datatype Conn<H> = Conn(buf: Bytes, preface: bool, hp: H)

  function FrameLength(buf: Bytes): nat
    requires |buf| >= 3
  {
    (buf[0] as int) * 0x1_0000 + (buf[1] as int) * 0x100 + buf[2]
  }

  predicate FrameReady(buf: Bytes) {
    |buf| >= 9 && |buf| >= 9 + FrameLength(buf)
  }

  /** One frame: only END_HEADERS HEADERS frames reach HPACK. */
  function StepFrame<H>(hpack: Hpack<H>, hp: H, ftype: Byte, flags: Byte, payload: Bytes): (H, seq<Request>) {
    var block := Fragment(payload, flags);
    if ftype != FrameHeaders || !EndHeaders(flags) || block.None? then (hp, [])
    else
      var (hp', fields) := hpack(hp, block.value);
      (hp', RequestOf(fields))
  }

  /** Consumes the frame at the front of the buffer. */
  function NextFrame<H>(hpack: Hpack<H>, buf: Bytes, hp: H): (r: (Bytes, H, seq<Request>))
    requires FrameReady(buf)
    ensures |r.0| < |buf|
  {
    var n := FrameLength(buf);
    var (hp', reqs) := StepFrame(hpack, hp, buf[3], buf[4], buf[9..9 + n]);
    (buf[9 + n..], hp', reqs)
  }

  function Frames<H>(hpack: Hpack<H>, buf: Bytes, hp: H): (Bytes, H, seq<Request>)
    decreases |buf|
  {
    if !FrameReady(buf) then (buf, hp, [])
    else
      var (next, hp', reqs) := NextFrame(hpack, buf, hp);
      var (rest, hp'', more) := Frames(hpack, next, hp');
      (rest, hp'', reqs + more)
  }

  function SkipPreface(buf: Bytes): Bytes {
    if Preface <= buf then buf[|Preface|..] else buf
  }

  function Fed<H>(hpack: Hpack<H>, c: Conn<H>, data: Bytes): (Conn<H>, seq<Request>) {
    var buf := c.buf + data;
    if !c.preface && |buf| < |Preface| then (c.(buf := buf), [])
    else
      var (rest, hp, reqs) := Frames(hpack, if c.preface then buf else SkipPreface(buf), c.hp);
      (Conn(rest, true, hp), reqs)
  }

  class H2Conn<H> {
    var buf: Bytes
    var preface: bool
    var hp: H
    const hpack: Hpack<H>

    constructor (hpack: Hpack<H>, hp: H)
      ensures State() == Conn([], false, hp) && this.hpack == hpack
    {
      this.buf, this.preface, this.hp, this.hpack := [], false, hp, hpack;
    }

    function State(): Conn<H>
      reads this
    {
      Conn(buf, preface, hp)
    }

    /** Appends bytes and returns the requests that became complete. */
    method Feed(data: Bytes) returns (reqs: seq<Request>)
      modifies this
      ensures (State(), reqs) == Fed(hpack, old(State()), data)
      ensures !preface ==> |buf| < |Preface|
      ensures preface ==> |buf| < 9 + MaxFrame
    {
      buf := buf + data;
      if !preface {
        if |buf| < |Preface| {
          return [];
        }
        if Preface <= buf {
          buf := buf[|Preface|..];
        }
        preface := true;
      }
      reqs := DrainFrames();
    }

    /** Consumes the complete frames at the front of the buffer. */
    method DrainFrames() returns (reqs: seq<Request>)
      modifies this`buf, this`hp
      ensures (buf, hp, reqs) == Frames(hpack, old(buf), old(hp))
      ensures !FrameReady(buf)
    {
      reqs := [];
      assert reqs + Frames(hpack, buf, hp).2 == Frames(hpack, buf, hp).2;
      while |buf| >= 9
        invariant Resumes(hpack, old(buf), old(hp), buf, hp, reqs)
        decreases |buf|
      {
        if |buf| < 9 + FrameLength(buf) {
          break;
        }
        ghost var b, h, before := buf, hp, reqs;
        var got := TakeFrame();
        reqs := reqs + got;
        ResumesStep(hpack, old(buf), old(hp), b, h, before);
      }
      ResumesEnd(hpack, old(buf), old(hp), buf, hp, reqs);
    }

    method TakeFrame() returns (reqs: seq<Request>)
      requires FrameReady(buf)
      modifies this`buf, this`hp
      ensures (buf, hp, reqs) == NextFrame(hpack, old(buf), old(hp))
    {
      var length := FrameLength(buf);
      var ftype, flags, payload := buf[3], buf[4], buf[9..9 + length];
      buf := buf[9 + length..];
      reqs := ParseFrame(ftype, flags, payload);
    }

    method ParseFrame(ftype: Byte, flags: Byte, payload: Bytes) returns (reqs: seq<Request>)
      modifies this`hp
      ensures (hp, reqs) == StepFrame(hpack, old(hp), ftype, flags, payload)
    {
      reqs := [];
      var block := Fragment(payload, flags);
      if ftype == FrameHeaders && EndHeaders(flags) && block.Some? {
        var (hp', fields) := hpack(hp, block.value);
        hp := hp';
        if fields.Some? {
          reqs := ParseFields(fields.value);
        }
      }
    }

    method ParseFields(fields: seq<Field>) returns (reqs: seq<Request>)
      ensures reqs == RequestOf(Some(fields))
    {
      var r := Request("", "", "", []);
      for i := 0 to |fields|
        invariant r == Collect(fields[..i])
      {
        assert fields[..i + 1][..i] == fields[..i];
        r := AddField(r, fields[i]);
      }
      assert fields[..|fields|] == fields;
      reqs := if r.method_ == "" || r.path == "" then [] else [r];
    }
  }

  /** Decoding `buf0` amounts to having produced `reqs` and decoding `buf`. */
  ghost predicate Resumes<H>(hpack: Hpack<H>, buf0: Bytes, hp0: H, buf: Bytes, hp: H, reqs: seq<Request>) {
    var (rest, hp', all) := Frames(hpack, buf0, hp0);
    var (rest', hp'', more) := Frames(hpack, buf, hp);
    rest == rest' && hp' == hp'' && all == reqs + more
  }

  lemma ResumesStep<H>(hpack: Hpack<H>, buf0: Bytes, hp0: H, buf: Bytes, hp: H, reqs: seq<Request>)
    requires Resumes(hpack, buf0, hp0, buf, hp, reqs) && FrameReady(buf)
    ensures var (next, hp', got) := NextFrame(hpack, buf, hp);
            Resumes(hpack, buf0, hp0, next, hp', reqs + got)
  {
    var (next, hp', got) := NextFrame(hpack, buf, hp);
    ConcatAssoc(reqs, got, Frames(hpack, next, hp').2);
  }

  lemma ResumesEnd<H>(hpack: Hpack<H>, buf0: Bytes, hp0: H, buf: Bytes, hp: H, reqs: seq<Request>)
    requires Resumes(hpack, buf0, hp0, buf, hp, reqs) && !FrameReady(buf)
    ensures Frames(hpack, buf0, hp0) == (buf, hp, reqs)
  {
    assert reqs + [] == reqs;
  }

  // ---- Chunking ----

  lemma {:induction false} FramesRest<H>(hpack: Hpack<H>, buf: Bytes, hp: H)
    ensures !FrameReady(Frames(hpack, buf, hp).0)
    decreases |buf|
  {
    if FrameReady(buf) {
      var (next, hp', _) := NextFrame(hpack, buf, hp);
      FramesRest(hpack, next, hp');
    }
  }

  /** A complete frame is read alike whatever follows it. */
  lemma NextFrameConcat<H>(hpack: Hpack<H>, a: Bytes, b: Bytes, hp: H)
    requires FrameReady(a)
    ensures FrameReady(a + b)
    ensures var (next, hp', got) := NextFrame(hpack, a, hp);
            NextFrame(hpack, a + b, hp) == (next + b, hp', got)
  {
    var n := FrameLength(a);
    assert FrameLength(a + b) == n;
    assert (a + b)[9..9 + n] == a[9..9 + n] && (a + b)[9 + n..] == a[9 + n..] + b;
  }

  /** Decoding a longer buffer is decoding the shorter one and then what it left plus the rest. */
  lemma {:induction false} FramesConcat<H>(hpack: Hpack<H>, a: Bytes, b: Bytes, hp: H)
    ensures var (rest, hp', reqs) := Frames(hpack, a, hp);
            var (rest', hp'', more) := Frames(hpack, rest + b, hp');
            Frames(hpack, a + b, hp) == (rest', hp'', reqs + more)
    decreases |a|
  {
    if FrameReady(a) {
      var (next, hp1, got) := NextFrame(hpack, a, hp);
      NextFrameConcat(hpack, a, b, hp);
      FramesConcat(hpack, next, b, hp1);
      var (rest, hp', reqs) := Frames(hpack, next, hp1);
      ConcatAssoc(got, reqs, Frames(hpack, rest + b, hp').2);
    } else {
      assert [] + Frames(hpack, a + b, hp).2 == Frames(hpack, a + b, hp).2;
    }
  }

  /** Feeding two pieces is feeding their concatenation. */
  lemma FedTwice<H>(hpack: Hpack<H>, c: Conn<H>, a: Bytes, b: Bytes)
    ensures var (c1, r1) := Fed(hpack, c, a);
            var (c2, r2) := Fed(hpack, c1, b);
            Fed(hpack, c, a + b) == (c2, r1 + r2)
  {
    var buf := c.buf + a;
    assert buf + b == c.buf + (a + b);
    if !c.preface && |buf| < |Preface| {
      var (c2, r2) := Fed(hpack, c.(buf := buf), b);
      assert [] + r2 == r2;
    } else {
      var start := if c.preface then buf else SkipPreface(buf);
      PrefaceStable(buf, b);
      FramesConcat(hpack, start, b, c.hp);
    }
  }

  lemma PrefaceStable(buf: Bytes, b: Bytes)
    ensures |buf| >= |Preface| ==> SkipPreface(buf + b) == SkipPreface(buf) + b
  {
    if |buf| >= |Preface| {
      assert (buf + b)[..|Preface|] == buf[..|Preface|];
      assert Preface <= buf <==> buf[..|Preface|] == Preface;
      assert Preface <= buf ==> (buf + b)[|Preface|..] == buf[|Preface|..] + b;
    }
  }

  function FedAll<H>(hpack: Hpack<H>, c: Conn<H>, chunks: seq<Bytes>): (Conn<H>, seq<Request>) {
    if chunks == [] then (c, [])
    else
      var (c', reqs) := FedAll(hpack, c, chunks[..|chunks| - 1]);
      var (c'', more) := Fed(hpack, c', chunks[|chunks| - 1]);
      (c'', reqs + more)
  }

  function Flat(chunks: seq<Bytes>): Bytes {
    if chunks == [] then [] else Flat(chunks[..|chunks| - 1]) + chunks[|chunks| - 1]
  }

  /** A state in which every complete frame has been consumed; feeding always ends in one. */
  predicate Settled<H>(c: Conn<H>) {
    if c.preface then !FrameReady(c.buf) else |c.buf| < |Preface|
  }

  lemma FedSettles<H>(hpack: Hpack<H>, c: Conn<H>, data: Bytes)
    ensures Settled(Fed(hpack, c, data).0)
  {
    var buf := c.buf + data;
    FramesRest(hpack, if c.preface then buf else SkipPreface(buf), c.hp);
  }

  lemma SettledBounded<H>(c: Conn<H>)
    requires Settled(c)
    ensures |c.buf| < if c.preface then 9 + MaxFrame else |Preface|
  {
  }

  /** Chunking invariance: however a byte stream is cut into writes, the requests, the retained
      buffer, the preface flag and the HPACK state are those of feeding it whole. */
  lemma {:induction false} ChunkingInvariance<H>(hpack: Hpack<H>, c: Conn<H>, chunks: seq<Bytes>)
    requires Settled(c)
    ensures FedAll(hpack, c, chunks) == Fed(hpack, c, Flat(chunks))
  {
    if chunks == [] {
      assert c.buf + [] == c.buf;
      assert !FrameReady(c.buf) ==> Frames(hpack, c.buf, c.hp) == (c.buf, c.hp, []);
    } else {
      var n := |chunks| - 1;
      ChunkingInvariance(hpack, c, chunks[..n]);
      FedTwice(hpack, c, Flat(chunks[..n]), chunks[n]);
    }
  }

  // ---- Round trip ----

  /** A frame to be sent; a HEADERS frame is given by its parts. */
  datatype Frame =
    | Headers(flags: Byte, stream: Bytes, padding: Bytes, priority: Bytes, fragment: Bytes)
    | Other(ftype: Byte, flags: Byte, stream: Bytes, payload: Bytes)

  /** The layout of sections 4.1 and 6.2 of RFC 9113: padding and priority fields are present
      exactly when their flags are set. */
  function Payload(f: Frame): Bytes
    requires f.Headers? ==> |f.padding| < 0x100
  {
    match f
    case Other(_, _, _, payload) => payload
    case Headers(flags, _, padding, priority, fragment) =>
      var body := (if Prioritized(flags) then priority else []) + fragment;
      if Padded(flags) then [|padding|] + body + padding else body
  }

  predicate FrameValid(f: Frame) {
    && |f.stream| == 4
    && (f.Headers? ==> |f.padding| < 0x100 && |f.priority| == 5)
    && (f.Other? ==> f.ftype != 1)
    && |Payload(f)| < MaxFrame
  }

  function Encode(f: Frame): Bytes
    requires FrameValid(f)
  {
    var p := Payload(f);
    [|p| / 0x1_0000, |p| / 0x100 % 0x100, |p| % 0x100, if f.Headers? then 1 else f.ftype, f.flags] + f.stream + p
  }

  ghost predicate FramesValid(fs: seq<Frame>) {
    forall f <- fs :: FrameValid(f)
  }

  function EncodeAll(fs: seq<Frame>): Bytes
    requires forall f <- fs :: FrameValid(f)
  {
    if fs == [] then [] else Encode(fs[0]) + EncodeAll(fs[1..])
  }

  /** What HPACK should see: the fragments of the complete HEADERS frames, in order. */
  function Fragments(fs: seq<Frame>): seq<Bytes> {
    if fs == [] then []
    else (if fs[0].Headers? && EndHeaders(fs[0].flags) then [fs[0].fragment] else []) + Fragments(fs[1..])
  }

  /** Running HPACK over blocks: the final state and the requests produced on the way. */
  function Decode<H>(hpack: Hpack<H>, hp: H, blocks: seq<Bytes>): (H, seq<Request>) {
    if blocks == [] then (hp, [])
    else
      var (hp', fields) := hpack(hp, blocks[0]);
      var (hp'', more) := Decode(hpack, hp', blocks[1..]);
      (hp'', RequestOf(fields) + more)
  }

  lemma FragmentRoundTrip(f: Frame)
    requires f.Headers? && |f.padding| < 0x100 && |f.priority| == 5
    ensures Fragment(Payload(f), f.flags) == Some(f.fragment)
  {
    var prio := if Prioritized(f.flags) then f.priority else [];
    var body := prio + f.fragment;
    if Padded(f.flags) {
      var p := Payload(f);
      assert p[1..|p| - p[0]] == body;
    }
    assert body[|prio|..] == f.fragment;
  }

  /** The payload of a HEADERS frame with these parts. */
  predicate HoldsFragment(payload: Bytes, flags: Byte, padding: Bytes, priority: Bytes, block: Bytes) {
    |padding| < 0x100 && |priority| == 5 && payload == Payload(Headers(flags, [], padding, priority, block))
  }

  lemma FragmentHeld(payload: Bytes, flags: Byte, block: Bytes) returns (padding: Bytes, priority: Bytes)
    requires Fragment(payload, flags) == Some(block)
    ensures HoldsFragment(payload, flags, padding, priority, block)
  {
    var body := payload;
    padding, priority := [], [0, 0, 0, 0, 0];
    if Padded(flags) {
      var n := |payload| - payload[0];
      body, padding := payload[1..n], payload[n..];
      assert payload == [payload[0]] + body + padding;
    }
    if Prioritized(flags) {
      priority := body[..5];
      assert body == priority + block;
    } else {
      assert body == [] + block;
    }
  }

  /** Exactly the payloads laid out for their flags have a fragment, and it is the one laid out; all
      others are skipped. */
  lemma FragmentExact(payload: Bytes, flags: Byte, block: Bytes)
    ensures Fragment(payload, flags) == Some(block)
            <==> exists padding, priority :: HoldsFragment(payload, flags, padding, priority, block)
  {
    if Fragment(payload, flags) == Some(block) {
      var padding, priority := FragmentHeld(payload, flags, block);
    }
    if padding, priority :| HoldsFragment(payload, flags, padding, priority, block) {
      FragmentRoundTrip(Headers(flags, [], padding, priority, block));
    }
  }

  lemma EncodeParses(f: Frame, rest: Bytes)
    requires FrameValid(f)
    ensures var buf := Encode(f) + rest;
            && FrameReady(buf) && FrameLength(buf) == |Payload(f)|
            && buf[3] == (if f.Headers? then 1 else f.ftype) && buf[4] == f.flags
            && buf[9..9 + |Payload(f)|] == Payload(f) && buf[9 + |Payload(f)|..] == rest
  {
    var p, buf := Payload(f), Encode(f) + rest;
    LengthBytes(|p|);
    assert buf[0] == |p| / 0x1_0000 && buf[1] == |p| / 0x100 % 0x100 && buf[2] == |p| % 0x100;
  }

  lemma LengthBytes(n: nat)
    requires n < MaxFrame
    ensures n / 0x1_0000 * 0x1_0000 + n / 0x100 % 0x100 * 0x100 + n % 0x100 == n
  {
    assert n / 0x100 / 0x100 == n / 0x1_0000;
  }

  lemma {:induction false} FramesRoundTrip<H>(hpack: Hpack<H>, hp: H, fs: seq<Frame>)
    requires FramesValid(fs)
    ensures var (hp', reqs) := Decode(hpack, hp, Fragments(fs));
            Frames(hpack, EncodeAll(fs), hp) == ([], hp', reqs)
  {
    if fs != [] {
      var f, rest := fs[0], EncodeAll(fs[1..]);
      EncodeParses(f, rest);
      if f.Headers? {
        FragmentRoundTrip(f);
      }
      if f.Headers? && EndHeaders(f.flags) {
        var hp1 := hpack(hp, f.fragment).0;
        FramesRoundTrip(hpack, hp1, fs[1..]);
        assert Fragments(fs)[0] == f.fragment && Fragments(fs)[1..] == Fragments(fs[1..]);
      } else {
        FramesRoundTrip(hpack, hp, fs[1..]);
        assert Fragments(fs) == Fragments(fs[1..]);
        var reqs := Frames(hpack, rest, hp).2;
        assert [] + reqs == reqs;
      }
    }
  }

  /** Sending the preface and any frames hands HPACK exactly the fragments of the END_HEADERS
      HEADERS frames, in order and byte for byte, however the bytes are cut into writes. */
  lemma RoundTrip<H>(hpack: Hpack<H>, hp: H, fs: seq<Frame>, chunks: seq<Bytes>)
    requires FramesValid(fs) && Flat(chunks) == Preface + EncodeAll(fs)
    ensures var (hp', reqs) := Decode(hpack, hp, Fragments(fs));
            FedAll(hpack, Conn([], false, hp), chunks) == (Conn([], true, hp'), reqs)
  {
    var c := Conn([], false, hp);
    var bytes := Preface + EncodeAll(fs);
    ChunkingInvariance(hpack, c, chunks);
    FramesRoundTrip(hpack, hp, fs);
    assert c.buf + bytes == bytes;
    assert bytes[|Preface|..] == EncodeAll(fs);
  }

  /** The same for a stream that does not open with the preface, once it is long enough to tell. */
  lemma RoundTripBare<H>(hpack: Hpack<H>, hp: H, fs: seq<Frame>, chunks: seq<Bytes>)
    requires FramesValid(fs) && Flat(chunks) == EncodeAll(fs) && |Flat(chunks)| >= 24 && !(Preface <= Flat(chunks))
    ensures var (hp', reqs) := Decode(hpack, hp, Fragments(fs));
            FedAll(hpack, Conn([], false, hp), chunks) == (Conn([], true, hp'), reqs)
  {
    var c := Conn([], false, hp);
    ChunkingInvariance(hpack, c, chunks);
    FramesRoundTrip(hpack, hp, fs);
    assert c.buf + EncodeAll(fs) == EncodeAll(fs);
  }
}
