/** Per-connection decoding of captured SSL writes. */
module Tracker {
  import opened Base
  import opened Http2
  import opened Lpm

  const MaxConns: nat := 16384
  const HeaderLen: nat := 40

  /** The plaintext HTTP/1 request parser. */
  type Http1 = Bytes -> Option<Request>

  /** A capture: the SSL pointer and the plaintext written. */
  datatype Capture = Capture(ssl: U64, cgroup: U64, data: Bytes)

  /** Reads the event header; short, empty and overlong events are ignored. */
  function ParseCapture(buf: Bytes): (c: Option<Capture>)
    ensures c.Some? ==> c.value.data != [] && HeaderLen + |c.value.data| <= |buf|
  {
    if |buf| < HeaderLen then None
    else
      LittleEndianBound(buf[24..32]);
      LittleEndianBound(buf[32..40]);
      Pow2Values();
      var dlen := LittleEndianValue(buf[4..8]);
      if dlen == 0 || HeaderLen + dlen > |buf| then None
      else Some(Capture(LittleEndianValue(buf[24..32]), LittleEndianValue(buf[32..40]), buf[HeaderLen..HeaderLen + dlen]))
  }

  /** The event layout the kernel side writes: pid, length, command, SSL pointer, cgroup, data. */
  function EncodeCapture(pid: U32, comm: Bytes, c: Capture): Bytes
    requires |comm| == 16 && |c.data| < 0x1_0000_0000
  {
    LittleEndian(pid, 4) + LittleEndian(|c.data|, 4) + comm + LittleEndian(c.ssl, 8) + LittleEndian(c.cgroup, 8) + c.data
  }

  /** `buf` holds the event as the kernel side writes it, with anything behind it. */
  predicate HoldsCapture(buf: Bytes, pid: U32, comm: Bytes, c: Capture, slack: Bytes) {
    |comm| == 16 && 0 < |c.data| < 0x1_0000_0000 && buf == EncodeCapture(pid, comm, c) + slack
  }

  lemma CaptureRead(buf: Bytes, pid: U32, comm: Bytes, c: Capture, slack: Bytes)
    requires HoldsCapture(buf, pid, comm, c, slack)
    ensures ParseCapture(buf) == Some(c)
  {
    assert buf[4..8] == LittleEndian(|c.data|, 4);
    assert buf[24..32] == LittleEndian(c.ssl, 8);
    assert buf[32..40] == LittleEndian(c.cgroup, 8);
    assert buf[40..40 + |c.data|] == c.data;
    Pow2Values();
    LittleEndianReads(|c.data|, 4);
    LittleEndianReads(c.ssl, 8);
    LittleEndianReads(c.cgroup, 8);
  }

  lemma CapturePieces(buf: Bytes, end: nat)
    requires 40 <= end <= |buf|
    ensures buf == buf[0..4] + buf[4..8] + buf[8..24] + buf[24..32] + buf[32..40] + buf[40..end] + buf[end..]
  {
  }

  lemma CaptureNumbers(buf: Bytes)
    requires 40 <= |buf|
    ensures LittleEndianValue(buf[0..4]) < 0x1_0000_0000 && LittleEndianValue(buf[4..8]) < 0x1_0000_0000
    ensures LittleEndian(LittleEndianValue(buf[0..4]), 4) == buf[0..4]
    ensures LittleEndian(LittleEndianValue(buf[4..8]), 4) == buf[4..8]
    ensures LittleEndian(LittleEndianValue(buf[24..32]), 8) == buf[24..32]
    ensures LittleEndian(LittleEndianValue(buf[32..40]), 8) == buf[32..40]
  {
    Pow2Values();
    LittleEndianBound(buf[0..4]);
    LittleEndianBound(buf[4..8]);
    LittleEndianWrites(buf[0..4]);
    LittleEndianWrites(buf[4..8]);
    LittleEndianWrites(buf[24..32]);
    LittleEndianWrites(buf[32..40]);
  }

  lemma CaptureHeld(buf: Bytes, c: Capture) returns (pid: U32, comm: Bytes, slack: Bytes)
    requires ParseCapture(buf) == Some(c)
    ensures HoldsCapture(buf, pid, comm, c, slack)
  {
    var end := HeaderLen + |c.data|;
    CaptureNumbers(buf);
    CapturePieces(buf, end);
    pid, comm, slack := LittleEndianValue(buf[0..4]), buf[8..24], buf[end..];
  }

  /** Exactly the events laid out by the kernel side are read, as what they hold. */
  lemma CaptureExact(buf: Bytes, c: Capture)
    ensures ParseCapture(buf) == Some(c) <==> exists pid, comm, slack :: HoldsCapture(buf, pid, comm, c, slack)
  {
    if ParseCapture(buf) == Some(c) {
      var pid, comm, slack := CaptureHeld(buf, c);
    }
    if pid, comm, slack :| HoldsCapture(buf, pid, comm, c, slack) {
      CaptureRead(buf, pid, comm, c, slack);
    }
  }

  datatype Mode = Unknown | ModeHttp1 | ModeHttp2 | Ignored

  /** A connection's mode and, for HTTP/2, its decoder. */
  datatype ConnState<H> = ConnState(mode: Mode, h2: Option<Conn<H>>)

  /** The protocol parsers and the initial HPACK state. */
  datatype Parsers<!H> = Parsers(hpack: Hpack<H>, hp: H, http1: Http1)

  function NewConn<H>(): ConnState<H> {
    ConnState(Unknown, None)
  }

  function Requests(r: Option<Request>): seq<Request> {
    if r.Some? then [r.value] else []
  }

  /** What one write does to its connection. */
  function ConnStep<H>(ps: Parsers<H>, c: ConnState<H>, data: Bytes): (ConnState<H>, seq<Request>) {
    match c.mode
    case Unknown =>
      if Preface <= data then
        var (h2, reqs) := Fed(ps.hpack, Conn([], false, ps.hp), data);
        (ConnState(ModeHttp2, Some(h2)), reqs)
      else
        var r := ps.http1(data);
        (ConnState(if r.Some? then ModeHttp1 else Ignored, c.h2), Requests(r))
    case ModeHttp1 => (c, Requests(ps.http1(data)))
    case ModeHttp2 =>
      if c.h2.None? then (c, [])
      else
        var (h2, reqs) := Fed(ps.hpack, c.h2.value, data);
        (ConnState(ModeHttp2, Some(h2)), reqs)
    case Ignored => (c, [])
  }

  // ---- The table of connections ----

  type Conns<H> = map<U64, ConnState<H>>

  predicate Resets<H>(conns: Conns<H>, ssl: U64) {
    ssl !in conns && |conns| >= MaxConns
  }

  /** The table once a write's connection is known. */
  function Admit<H>(conns: Conns<H>, ssl: U64): Conns<H> {
    if ssl in conns then conns
    else if |conns| >= MaxConns then map[ssl := NewConn()]
    else conns[ssl := NewConn()]
  }

  function Handled<H>(ps: Parsers<H>, conns: Conns<H>, e: Capture): (Conns<H>, seq<Request>) {
    var table := Admit(conns, e.ssl);
    var (c, reqs) := ConnStep(ps, table[e.ssl], e.data);
    (table[e.ssl := c], reqs)
  }

  /** Every connection has chosen a mode, has a decoder exactly in HTTP/2 mode, and the table is
      within its bound. */
  ghost predicate TableOk<H>(conns: Conns<H>) {
    |conns| <= MaxConns && forall p <- conns :: ConnOk(conns[p])
  }

  predicate ConnOk<H>(c: ConnState<H>) {
    !c.mode.Unknown? && (c.h2.Some? <==> c.mode.ModeHttp2?)
  }

  class ConnTracker<H> {
    var conns: Conns<H>
    const ps: Parsers<H>

    constructor (ps: Parsers<H>)
      ensures conns == map[] && this.ps == ps
    {
      this.conns, this.ps := map[], ps;
    }

    /** Decodes one captured event and returns the requests to report. */
    method Handle(buf: Bytes) returns (reqs: seq<Request>)
      requires TableOk(conns)
      modifies this
      ensures TableOk(conns)
      ensures var e := ParseCapture(buf);
              (conns, reqs) == if e.None? then (old(conns), []) else Handled(ps, old(conns), e.value)
    {
      var e := ParseCapture(buf);
      if e.None? {
        return [];
      }
      var ssl, data := e.value.ssl, e.value.data;
      TableStep(ps, conns, e.value);
      if ssl !in conns {
        if |conns| >= MaxConns {
          conns := map[];
        }
        conns := conns[ssl := NewConn()];
      }
      var (c, out) := ConnStep(ps, conns[ssl], data);
      conns := conns[ssl := c];
      reqs := out;
    }
  }

  lemma TableStep<H>(ps: Parsers<H>, conns: Conns<H>, e: Capture)
    requires TableOk(conns)
    ensures TableOk(Handled(ps, conns, e).0)
  {
    var table := Admit(conns, e.ssl);
    assert e.ssl !in conns && |conns| < MaxConns ==> table.Keys == conns.Keys + {e.ssl};
    var next := Handled(ps, conns, e).0;
    assert next.Keys == table.Keys;
    assert |next| == |next.Keys| && |conns| == |conns.Keys|;
    assert next[e.ssl] == ConnStep(ps, table[e.ssl], e.data).0;
  }

  // ---- Runs ----

  /** The table after a run of events. */
  function Table<H>(ps: Parsers<H>, conns: Conns<H>, es: seq<Capture>): Conns<H> {
    if es == [] then conns else Handled(ps, Table(ps, conns, es[..|es| - 1]), es[|es| - 1]).0
  }

  /** The requests emitted for one SSL pointer. */
  function Emitted<H>(ps: Parsers<H>, conns: Conns<H>, es: seq<Capture>, p: U64): seq<Request> {
    if es == [] then []
    else
      var n := |es| - 1;
      Emitted(ps, conns, es[..n], p) +
      if es[n].ssl == p then Handled(ps, Table(ps, conns, es[..n]), es[n]).1 else []
  }

  function PayloadsOf(es: seq<Capture>, p: U64): seq<Bytes> {
    if es == [] then []
    else PayloadsOf(es[..|es| - 1], p) + if es[|es| - 1].ssl == p then [es[|es| - 1].data] else []
  }

  /** A lone connection fed the payloads in turn. */
  function Lone<H>(ps: Parsers<H>, c: ConnState<H>, payloads: seq<Bytes>): (ConnState<H>, seq<Request>) {
    if payloads == [] then (c, [])
    else
      var n := |payloads| - 1;
      var (c', reqs) := Lone(ps, c, payloads[..n]);
      var (c'', more) := ConnStep(ps, c', payloads[n]);
      (c'', reqs + more)
  }

  ghost predicate NoReset<H>(ps: Parsers<H>, conns: Conns<H>, es: seq<Capture>) {
    forall i :: 0 <= i < |es| ==> !Resets(Table(ps, conns, es[..i]), es[i].ssl)
  }

  /** The invariant holds along every run, in particular from the empty table. */
  lemma {:induction false} ReachableTables<H>(ps: Parsers<H>, conns: Conns<H>, es: seq<Capture>)
    requires TableOk(conns)
    ensures TableOk(Table(ps, conns, es))
  {
    if es != [] {
      ReachableTables(ps, conns, es[..|es| - 1]);
      TableStep(ps, Table(ps, conns, es[..|es| - 1]), es[|es| - 1]);
    }
  }

  /** The state a pointer's connection starts from. */
  function StartOf<H>(conns: Conns<H>, p: U64): ConnState<H> {
    if p in conns then conns[p] else NewConn()
  }

  lemma NoResetPrefix<H>(ps: Parsers<H>, conns: Conns<H>, es: seq<Capture>)
    requires NoReset(ps, conns, es) && es != []
    ensures NoReset(ps, conns, es[..|es| - 1]) && !Resets(Table(ps, conns, es[..|es| - 1]), es[|es| - 1].ssl)
  {
    var n := |es| - 1;
    forall i | 0 <= i < n ensures !Resets(Table(ps, conns, es[..n][..i]), es[..n][i].ssl) {
      assert es[..n][..i] == es[..i];
    }
  }

  lemma ModeKept<H>(ps: Parsers<H>, conns: Conns<H>, e: Capture, p: U64)
    requires TableOk(conns) && !Resets(conns, e.ssl) && p in conns
    ensures p in Handled(ps, conns, e).0 && Handled(ps, conns, e).0[p].mode == conns[p].mode
  {
    assert Admit(conns, e.ssl)[p] == conns[p];
  }

  /** The pointer has a connection in mode `m`. */
  predicate InMode<H>(conns: Conns<H>, p: U64, m: Mode) {
    p in conns && conns[p].mode == m
  }

  lemma ModeStep<H>(ps: Parsers<H>, conns: Conns<H>, es: seq<Capture>, p: U64, m: Mode)
    requires TableOk(conns) && NoReset(ps, conns, es) && es != []
    requires InMode(Table(ps, conns, es[..|es| - 1]), p, m)
    ensures InMode(Table(ps, conns, es), p, m)
  {
    var n := |es| - 1;
    NoResetPrefix(ps, conns, es);
    ReachableTables(ps, conns, es[..n]);
    ModeKept(ps, Table(ps, conns, es[..n]), es[n], p);
  }

  /** Between resets a connection, once in the table, stays there and keeps the mode it first
      chose, whatever it and the others send. */
  lemma {:induction false} ModeFixed<H>(ps: Parsers<H>, conns: Conns<H>, es: seq<Capture>, i: nat, p: U64, m: Mode)
    requires TableOk(conns) && NoReset(ps, conns, es) && i <= |es| && InMode(Table(ps, conns, es[..i]), p, m)
    ensures InMode(Table(ps, conns, es), p, m)
    decreases |es|
  {
    if i == |es| {
      assert es[..i] == es;
    } else {
      assert es[..|es| - 1][..i] == es[..i];
      NoResetPrefix(ps, conns, es);
      ModeFixed(ps, conns, es[..|es| - 1], i, p, m);
      ModeStep(ps, conns, es, p, m);
    }
  }

  /** Demultiplexing: between resets, what is emitted for a pointer over any interleaving, and the
      state its connection ends in, are those of a lone connection fed only its payloads. */
  lemma {:induction false} Demultiplexing<H>(ps: Parsers<H>, conns: Conns<H>, es: seq<Capture>, p: U64)
    requires NoReset(ps, conns, es)
    ensures Lone(ps, StartOf(conns, p), PayloadsOf(es, p))
            == (StartOf(Table(ps, conns, es), p), Emitted(ps, conns, es, p))
  {
    if es != [] {
      var n := |es| - 1;
      var e, table := es[n], Table(ps, conns, es[..n]);
      NoResetPrefix(ps, conns, es);
      Demultiplexing(ps, conns, es[..n], p);
      if e.ssl == p {
        var ds := PayloadsOf(es[..n], p);
        assert (ds + [e.data])[..|ds|] == ds;
        assert Admit(table, p)[p] == StartOf(table, p);
      } else {
        assert PayloadsOf(es, p) == PayloadsOf(es[..n], p);
        assert Emitted(ps, conns, es, p) == Emitted(ps, conns, es[..n], p);
      }
    }
  }

  /** A lone connection whose first write carries the preface is one decoder fed its chunks. */
  lemma {:induction false} LoneHttp2<H>(ps: Parsers<H>, payloads: seq<Bytes>)
    requires payloads != [] && Preface <= payloads[0]
    ensures var (h2, reqs) := FedAll(ps.hpack, Conn([], false, ps.hp), payloads);
            Lone(ps, NewConn(), payloads) == (ConnState(ModeHttp2, Some(h2)), reqs)
  {
    var n := |payloads| - 1;
    if n > 0 {
      LoneHttp2(ps, payloads[..n]);
    } else {
      assert payloads[..0] == [];
    }
  }

  /** The requests the HTTP/1 parser finds in each of the payloads, in turn. */
  function ParsedAll(http1: Http1, payloads: seq<Bytes>): seq<Request> {
    if payloads == [] then []
    else
      var n := |payloads| - 1;
      ParsedAll(http1, payloads[..n]) + if http1(payloads[n]).Some? then [http1(payloads[n]).value] else []
  }

  lemma {:induction false} LonePlain<H>(ps: Parsers<H>, payloads: seq<Bytes>)
    requires payloads != [] && !(Preface <= payloads[0])
    ensures Lone(ps, NewConn(), payloads) ==
            if ps.http1(payloads[0]).Some? then (ConnState(ModeHttp1, None), ParsedAll(ps.http1, payloads))
            else (ConnState(Ignored, None), [])
  {
    var n := |payloads| - 1;
    if n > 0 {
      LonePlain(ps, payloads[..n]);
    } else {
      assert payloads[..0] == [];
      assert [] + Requests(ps.http1(payloads[0])) == Requests(ps.http1(payloads[0]));
    }
  }

  /** A new connection that does not open with the HTTP/2 preface: if its first write parses as an
      HTTP/1 request, every write is parsed on its own and reported if it parses; if not, nothing is
      ever reported for it. */
  lemma PlainConnection<H>(ps: Parsers<H>, conns: Conns<H>, es: seq<Capture>, p: U64)
    requires NoReset(ps, conns, es) && p !in conns
    requires var ds := PayloadsOf(es, p); ds != [] && !(Preface <= ds[0])
    ensures var ds := PayloadsOf(es, p);
            Emitted(ps, conns, es, p) == if ps.http1(ds[0]).Some? then ParsedAll(ps.http1, ds) else []
  {
    Demultiplexing(ps, conns, es, p);
    LonePlain(ps, PayloadsOf(es, p));
  }

  /** A new connection that finds 16384 others is handled as the first of all; otherwise every other
      connection stays as it was. */
  lemma ResetStartsOver<H>(ps: Parsers<H>, conns: Conns<H>, e: Capture)
    ensures if e.ssl !in conns && |conns| >= 16384
            then Handled(ps, conns, e) == Handled(ps, map[], e) && Handled(ps, conns, e).0.Keys == {e.ssl}
            else Handled(ps, conns, e).0 - {e.ssl} == conns - {e.ssl} && e.ssl in Handled(ps, conns, e).0
  {
    if e.ssl !in conns && |conns| >= 16384 {
      assert Admit(conns, e.ssl) == map[e.ssl := NewConn()] == Admit(map[], e.ssl);
    }
  }

  /** The requests reported for a new HTTP/2 connection, over any interleaving of its writes with
      those of others, are those of one decoder given all its bytes at once. */
  lemma StreamReassembled<H>(ps: Parsers<H>, conns: Conns<H>, es: seq<Capture>, p: U64)
    requires NoReset(ps, conns, es) && p !in conns
    requires var ds := PayloadsOf(es, p); ds != [] && Preface <= ds[0]
    ensures Emitted(ps, conns, es, p) == Fed(ps.hpack, Conn([], false, ps.hp), Flat(PayloadsOf(es, p))).1
  {
    var ds := PayloadsOf(es, p);
    Demultiplexing(ps, conns, es, p);
    LoneHttp2(ps, ds);
    ChunkingInvariance(ps.hpack, Conn([], false, ps.hp), ds);
  }
}
