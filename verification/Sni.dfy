/** Extraction of the server name from a TLS ClientHello. */
module Sni {
  import opened Base

  datatype Result = Name(host: Bytes) | NotClientHello | Truncated | NoSni

  /** Drops a field with a one-byte length. */
  function Skip8(p: Bytes): Option<Bytes> {
    if |p| < 1 || |p| < 1 + (p[0] as int) then None else Some(p[1 + (p[0] as int)..])
  }

  /** Drops a field with a two-byte length. */
  function Skip16(p: Bytes): Option<Bytes> {
    if |p| < 2 || |p| < 2 + Be16(p, 0) then None else Some(p[2 + Be16(p, 0)..])
  }

  function Clip(p: Bytes, n: nat): Bytes {
    if |p| > n then p[..n] else p
  }

  /** The first host_name of a server name list. */
  function FirstHost(sn: Bytes): Result
    decreases |sn|
  {
    if |sn| < 3 then NoSni
    else
      var n := Be16(sn, 1);
      if |sn| - 3 < n then Truncated
      else if sn[0] == 0 then Name(sn[3..3 + n])
      else FirstHost(sn[3 + n..])
  }

  function NameList(ext: Bytes): Result {
    if |ext| < 2 then Truncated else FirstHost(Clip(ext[2..], Be16(ext, 0)))
  }

  /** The name list of the first server_name extension. */
  function FindExtension(p: Bytes): Result
    decreases |p|
  {
    if |p| < 4 then NoSni
    else
      var n := Be16(p, 2);
      if |p| - 4 < n then Truncated
      else if Be16(p, 0) == 0 then NameList(p[4..4 + n])
      else FindExtension(p[4 + n..])
  }

  function Extensions(p: Bytes): Result {
    if |p| < 2 then NoSni else FindExtension(Clip(p[2..], Be16(p, 0)))
  }

  /** Compression methods, then extensions. */
  function AfterCiphers(p: Bytes): Result {
    var rest := Skip8(p);
    if rest.None? then Truncated else Extensions(rest.value)
  }

  function AfterSession(p: Bytes): Result {
    var rest := Skip16(p);
    if rest.None? then Truncated else AfterCiphers(rest.value)
  }

  /** Session id, cipher suites, compression methods, extensions. */
  function AfterRandom(p: Bytes): Result {
    var rest := Skip8(p);
    if rest.None? then Truncated else AfterSession(rest.value)
  }

  function ServerNameOf(b: Bytes): Result {
    if |b| < 5 || b[0] != 0x16 then NotClientHello
    else if |b| < 9 || b[5] != 1 then NotClientHello
    else if |b| < 43 then Truncated
    else AfterRandom(b[43..])
  }

  // ---- The walker ----

  method ParseServerNameList(ext: Bytes) returns (r: Result)
    ensures r == NameList(ext)
  {
    if |ext| < 2 {
      return Truncated;
    }
    var sn := Clip(ext[2..], Be16(ext, 0));
    while |sn| >= 3
      invariant FirstHost(sn) == NameList(ext)
      decreases |sn|
    {
      var nameType, nameLen := sn[0], Be16(sn, 1);
      if |sn| - 3 < nameLen {
        return Truncated;
      }
      if nameType == 0 {
        return Name(sn[3..3 + nameLen]);
      }
      sn := sn[3 + nameLen..];
    }
    r := NoSni;
  }

  method ServerName(b: Bytes) returns (r: Result)
    ensures r == ServerNameOf(b)
  {
    if |b| < 5 || b[0] != 0x16 {
      return NotClientHello;
    }
    var p := b[5..];
    if |p| < 4 || p[0] != 1 {
      return NotClientHello;
    }
    p := p[4..];
    if |p| < 34 {
      return Truncated;
    }
    p := p[34..];
    assert p == b[43..];
    var rest := Skip8(p);
    if rest.None? {
      return Truncated;
    }
    rest := Skip16(rest.value);
    if rest.None? {
      return Truncated;
    }
    rest := Skip8(rest.value);
    if rest.None? {
      return Truncated;
    }
    r := WalkExtensions(rest.value);
  }

  method WalkExtensions(block: Bytes) returns (r: Result)
    ensures r == Extensions(block)
  {
    if |block| < 2 {
      return NoSni;
    }
    var p := Clip(block[2..], Be16(block, 0));
    while |p| >= 4
      invariant FindExtension(p) == Extensions(block)
      decreases |p|
    {
      var extType, extLen := Be16(p, 0), Be16(p, 2);
      if |p| - 4 < extLen {
        return Truncated;
      }
      if extType == 0 {
        r := ParseServerNameList(p[4..4 + extLen]);
        return;
      }
      p := p[4 + extLen..];
    }
    r := NoSni;
  }

  // ---- A name found on a prefix is the name ----

  lemma Skip8Prefix(p: Bytes, q: Bytes)
    requires p <= q && Skip8(p).Some?
    ensures Skip8(q).Some? && Skip8(p).value <= Skip8(q).value
  {
  }

  lemma Skip16Prefix(p: Bytes, q: Bytes)
    requires p <= q && Skip16(p).Some?
    ensures Skip16(q).Some? && Skip16(p).value <= Skip16(q).value
  {
  }

  lemma {:induction false} FindExtensionPrefix(p: Bytes, q: Bytes)
    requires p <= q && FindExtension(p).Name?
    ensures FindExtension(q) == FindExtension(p)
    decreases |p|
  {
    var n := Be16(p, 2);
    assert q[2..4] == p[2..4];
    if Be16(p, 0) == 0 {
      assert q[4..4 + n] == p[4..4 + n];
    } else {
      assert p[4 + n..] <= q[4 + n..];
      FindExtensionPrefix(p[4 + n..], q[4 + n..]);
    }
  }

  lemma ExtensionsPrefix(p: Bytes, q: Bytes)
    requires p <= q && Extensions(p).Name?
    ensures Extensions(q) == Extensions(p)
  {
    assert Clip(p[2..], Be16(p, 0)) <= Clip(q[2..], Be16(q, 0));
    FindExtensionPrefix(Clip(p[2..], Be16(p, 0)), Clip(q[2..], Be16(q, 0)));
  }

  /** A name returned on any prefix of a capture is the name returned on every longer one. */
  lemma PrefixStable(p: Bytes, q: Bytes)
    requires p <= q && ServerNameOf(p).Name?
    ensures ServerNameOf(q) == ServerNameOf(p)
  {
    var p0, q0 := p[43..], q[43..];
    assert p0 <= q0;
    Skip8Prefix(p0, q0);
    var p1, q1 := Skip8(p0).value, Skip8(q0).value;
    Skip16Prefix(p1, q1);
    var p2, q2 := Skip16(p1).value, Skip16(q1).value;
    Skip8Prefix(p2, q2);
    ExtensionsPrefix(Skip8(p2).value, Skip8(q2).value);
  }

  /** So a truncated capture yields the right name or an error, never a wrong name. */
  lemma TruncationNeverLies(b: Bytes, n: nat, host: Bytes)
    requires n <= |b| && ServerNameOf(b) == Name(host)
    ensures ServerNameOf(b[..n]) == Name(host) || !ServerNameOf(b[..n]).Name?
  {
    if ServerNameOf(b[..n]).Name? {
      PrefixStable(b[..n], b);
    }
  }

  // ---- Well-formed ClientHellos ----

  /** One tagged, length-prefixed item: a TLS extension or a server name entry. */
  datatype Item = Item(tag: U16, body: Bytes)

  function Len16(n: nat): (b: Bytes)
    requires n < 0x1_0000
    ensures |b| == 2 && Be16(b, 0) == n
  {
    [n / 0x100, n % 0x100]
  }

  predicate Fits(items: seq<Item>) {
    forall i <- items :: |i.body| < 0x1_0000
  }

  /** Extensions of section 4.2 of RFC 8446: a two-byte type and a two-byte length. */
  function EncodeExtensions(es: seq<Item>): Bytes
    requires Fits(es)
  {
    if es == [] then [] else Len16(es[0].tag) + Len16(|es[0].body|) + es[0].body + EncodeExtensions(es[1..])
  }

  /** Server name entries of section 3 of RFC 6066: a one-byte type and a two-byte length. */
  function EncodeNames(ns: seq<Item>): Bytes
    requires Fits(ns) && forall n <- ns :: n.tag < 0x100
  {
    if ns == [] then [] else [ns[0].tag] + Len16(|ns[0].body|) + ns[0].body + EncodeNames(ns[1..])
  }

  /** The parts of a ClientHello that carries a server name. `header` is the record and handshake
      header, `random` the version and random; `tail` is whatever follows the extensions. */
  datatype Hello = Hello(
    header: Bytes, random: Bytes, session: Bytes, ciphers: Bytes, compression: Bytes,
    before: seq<Item>, otherNames: seq<Item>, host: Bytes, afterNames: Bytes, after: Bytes, tail: Bytes)

  /** The server name list, of which `afterNames` is the part behind the host. */
  function NamesOf(h: Hello): Bytes
    requires Fits(h.otherNames) && |h.host| < 0x1_0000 && forall n <- h.otherNames :: 0 < n.tag < 0x100
  {
    EncodeNames(h.otherNames) + ([0] + Len16(|h.host|) + h.host) + h.afterNames
  }

  predicate NamesValid(h: Hello) {
    && Fits(h.otherNames) && |h.host| < 0x1_0000 && (forall n <- h.otherNames :: 0 < n.tag < 0x100)
    && |NamesOf(h)| + 2 < 0x1_0000
  }

  function ExtensionsOf(h: Hello): Bytes
    requires NamesValid(h) && Fits(h.before)
  {
    var body := Len16(|NamesOf(h)|) + NamesOf(h);
    EncodeExtensions(h.before) + (Len16(0) + Len16(|body|) + body) + h.after
  }

  /** Sizes fit their length fields, and no extension of `before` is a server_name. */
  predicate FieldsValid(h: Hello) {
    && |h.header| == 9 && h.header[0] == 0x16 && h.header[5] == 1 && |h.random| == 34
    && |h.session| < 0x100 && |h.ciphers| < 0x1_0000 && |h.compression| < 0x100
    && Fits(h.before) && (forall e <- h.before :: e.tag != 0)
  }

  predicate HelloValid(h: Hello) {
    FieldsValid(h) && NamesValid(h) && |ExtensionsOf(h)| < 0x1_0000
  }

  /** A field with a one-byte length, followed by `rest`. */
  function Field8(body: Bytes, rest: Bytes): (b: Bytes)
    requires |body| < 0x100
    ensures |b| == 1 + |body| + |rest|
  {
    [|body|] + body + rest
  }

  /** A field with a two-byte length, followed by `rest`. */
  function Field16(body: Bytes, rest: Bytes): (b: Bytes)
    requires |body| < 0x1_0000
    ensures |b| == 2 + |body| + |rest|
  {
    Len16(|body|) + body + rest
  }

  /** Session id, cipher suites and compression methods, then the extensions block. */
  function FieldsThen(session: Bytes, ciphers: Bytes, compression: Bytes, block: Bytes): (b: Bytes)
    requires |session| < 0x100 && |ciphers| < 0x1_0000 && |compression| < 0x100
    ensures |b| == 4 + |session| + |ciphers| + |compression| + |block|
  {
    Field8(session, Field16(ciphers, Field8(compression, block)))
  }

  /** Where the extensions block begins. */
  function BlockStart(h: Hello): nat {
    47 + |h.session| + |h.ciphers| + |h.compression|
  }

  /** The ClientHello of section 4.1.2 of RFC 8446, with a given extension list. */
  function HelloBytes(h: Hello, exts: Bytes): (b: Bytes)
    requires FieldsValid(h) && |exts| < 0x1_0000
    ensures |b| == BlockStart(h) + 2 + |exts| + |h.tail|
  {
    h.header + h.random + FieldsThen(h.session, h.ciphers, h.compression, Field16(exts, h.tail))
  }

  function EncodeHello(h: Hello): Bytes
    requires HelloValid(h)
  {
    HelloBytes(h, ExtensionsOf(h))
  }

  // ---- Truncated captures ----

  lemma Skip8Cut(body: Bytes, rest: Bytes, n: nat)
    requires |body| < 0x100 && n <= |Field8(body, rest)|
    ensures Skip8(Field8(body, rest)[..n]) == if n < 1 + |body| then None else Some(rest[..n - 1 - |body|])
  {
    var p := Field8(body, rest)[..n];
    assert n >= 1 ==> p[0] == |body|;
    if n >= 1 + |body| {
      assert p[1 + |body|..] == rest[..n - 1 - |body|];
    }
  }

  lemma Skip16Cut(body: Bytes, rest: Bytes, n: nat)
    requires |body| < 0x1_0000 && n <= |Field16(body, rest)|
    ensures Skip16(Field16(body, rest)[..n]) == if n < 2 + |body| then None else Some(rest[..n - 2 - |body|])
  {
    var p := Field16(body, rest)[..n];
    if n >= 2 {
      assert p[..2] == Len16(|body|) && Be16(p, 0) == Be16(p[..2], 0);
    }
    if n >= 2 + |body| {
      assert p[2 + |body|..] == rest[..n - 2 - |body|];
    }
  }

  /** The length of an extension list. */
  function Size(es: seq<Item>): nat {
    if es == [] then 0 else 4 + |es[0].body| + Size(es[1..])
  }

  /** A cut after `m` bytes of an extension list falls inside, or just before, the four-byte header
      of an extension up to and including the one behind `before`. */
  predicate InHeader(before: seq<Item>, m: nat) {
    m < 4 || (before != [] && m >= 4 + |before[0].body| && InHeader(before[1..], m - 4 - |before[0].body|))
  }

  lemma {:induction false} EncodedSize(es: seq<Item>)
    requires Fits(es)
    ensures |EncodeExtensions(es)| == Size(es)
  {
    if es != [] {
      EncodedSize(es[1..]);
    }
  }

  /** The list `before`, then a server_name extension, then anything. */
  function WithServerName(before: seq<Item>, body: Bytes, rest: Bytes): Bytes
    requires Fits(before) && |body| < 0x1_0000
  {
    EncodeExtensions(before) + (Len16(0) + Len16(|body|) + body) + rest
  }

  /** An extension, then anything. */
  function ItemThen(e: Item, tail: Bytes): (b: Bytes)
    requires |e.body| < 0x1_0000
    ensures |b| == 4 + |e.body| + |tail|
  {
    Len16(e.tag) + Len16(|e.body|) + e.body + tail
  }

  lemma HeaderCut(e: Item, tail: Bytes, m: nat)
    requires |e.body| < 0x1_0000 && 4 <= m <= 4 + |e.body| + |tail|
    ensures var p := ItemThen(e, tail)[..m]; Be16(p, 0) == e.tag && Be16(p, 2) == |e.body|
  {
    var full := ItemThen(e, tail);
    assert full[0..2] == Len16(e.tag) && full[2..4] == Len16(|e.body|);
    assert full[..m][0..2] == full[0..2] && full[..m][2..4] == full[2..4];
    Be16At(full[..m], 0);
    Be16At(full[..m], 2);
  }

  lemma BodyCut(e: Item, tail: Bytes, m: nat)
    requires |e.body| < 0x1_0000 && 4 + |e.body| <= m <= 4 + |e.body| + |tail|
    ensures var p := ItemThen(e, tail)[..m];
            p[4..4 + |e.body|] == e.body && p[4 + |e.body|..] == tail[..m - 4 - |e.body|]
  {
  }

  /** An extension is passed over, or taken, once all of it is there. */
  lemma ItemCut(e: Item, tail: Bytes, m: nat)
    requires |e.body| < 0x1_0000 && m <= 4 + |e.body| + |tail|
    ensures FindExtension(ItemThen(e, tail)[..m]) ==
            if m < 4 then NoSni else if m < 4 + |e.body| then Truncated
            else if e.tag == 0 then NameList(e.body) else FindExtension(tail[..m - 4 - |e.body|])
  {
    if m >= 4 {
      HeaderCut(e, tail, m);
      if m >= 4 + |e.body| {
        BodyCut(e, tail, m);
      }
    }
  }

  lemma ItemsFirst(before: seq<Item>, body: Bytes, rest: Bytes)
    requires Fits(before) && |body| < 0x1_0000
    ensures WithServerName(before, body, rest) ==
            if before == [] then ItemThen(Item(0, body), rest) else ItemThen(before[0], WithServerName(before[1..], body, rest))
  {
    if before != [] {
      var e, own := before[0], Len16(0) + Len16(|body|) + body;
      var head := Len16(e.tag) + Len16(|e.body|) + e.body;
      ConcatAssoc(head, EncodeExtensions(before[1..]), own);
      ConcatAssoc(head, EncodeExtensions(before[1..]) + own, rest);
    }
  }

  lemma {:induction false} FindCut(before: seq<Item>, body: Bytes, rest: Bytes, m: nat)
    requires Fits(before) && |body| < 0x1_0000 && (forall e <- before :: e.tag != 0)
    requires m <= |WithServerName(before, body, rest)|
    ensures FindExtension(WithServerName(before, body, rest)[..m]) ==
            if m >= Size(before) + 4 + |body| then NameList(body) else if InHeader(before, m) then NoSni else Truncated
  {
    ItemsFirst(before, body, rest);
    if before == [] {
      ItemCut(Item(0, body), rest, m);
    } else {
      var e, tail := before[0], WithServerName(before[1..], body, rest);
      ItemCut(e, tail, m);
      if m >= 4 + |e.body| {
        FindCut(before[1..], body, rest, m - 4 - |e.body|);
      }
    }
  }

  // ---- Server name lists ----

  /** A name entry, then anything. */
  function NameThen(e: Item, tail: Bytes): (b: Bytes)
    requires |e.body| < 0x1_0000 && e.tag < 0x100
    ensures |b| == 3 + |e.body| + |tail|
  {
    [e.tag] + Len16(|e.body|) + e.body + tail
  }

  function NamesSize(es: seq<Item>): nat {
    if es == [] then 0 else 3 + |es[0].body| + NamesSize(es[1..])
  }

  /** A cut after `m` bytes of a name list falls inside, or just before, the three-byte header of an
      entry up to and including the one behind `others`. */
  predicate InNameHeader(others: seq<Item>, m: nat) {
    m < 3 || (others != [] && m >= 3 + |others[0].body| && InNameHeader(others[1..], m - 3 - |others[0].body|))
  }

  predicate OtherNames(others: seq<Item>) {
    Fits(others) && forall n <- others :: 0 < n.tag < 0x100
  }

  /** The entries `others`, then a host, then anything. */
  function WithHost(others: seq<Item>, host: Bytes, rest: Bytes): Bytes
    requires OtherNames(others) && |host| < 0x1_0000
  {
    EncodeNames(others) + ([0] + Len16(|host|) + host) + rest
  }

  lemma NameHeaderCut(e: Item, tail: Bytes, m: nat)
    requires |e.body| < 0x1_0000 && e.tag < 0x100 && 3 <= m <= 3 + |e.body| + |tail|
    ensures var p := NameThen(e, tail)[..m]; p[0] == e.tag && Be16(p, 1) == |e.body|
  {
    var full := NameThen(e, tail);
    assert full[1..3] == Len16(|e.body|);
    assert full[..m][1..3] == full[1..3];
    Be16At(full[..m], 1);
  }

  lemma NameBodyCut(e: Item, tail: Bytes, m: nat)
    requires |e.body| < 0x1_0000 && e.tag < 0x100 && 3 + |e.body| <= m <= 3 + |e.body| + |tail|
    ensures var p := NameThen(e, tail)[..m];
            p[3..3 + |e.body|] == e.body && p[3 + |e.body|..] == tail[..m - 3 - |e.body|]
  {
  }

  lemma NameCut(e: Item, tail: Bytes, m: nat)
    requires |e.body| < 0x1_0000 && e.tag < 0x100 && m <= 3 + |e.body| + |tail|
    ensures FirstHost(NameThen(e, tail)[..m]) ==
            if m < 3 then NoSni else if m < 3 + |e.body| then Truncated
            else if e.tag == 0 then Name(e.body) else FirstHost(tail[..m - 3 - |e.body|])
  {
    if m >= 3 {
      NameHeaderCut(e, tail, m);
      if m >= 3 + |e.body| {
        NameBodyCut(e, tail, m);
      }
    }
  }

  lemma NamesFirst(others: seq<Item>, host: Bytes, rest: Bytes)
    requires OtherNames(others) && |host| < 0x1_0000
    ensures WithHost(others, host, rest) ==
            if others == [] then NameThen(Item(0, host), rest) else NameThen(others[0], WithHost(others[1..], host, rest))
  {
    if others != [] {
      var e, own := others[0], [0] + Len16(|host|) + host;
      var head := [e.tag] + Len16(|e.body|) + e.body;
      ConcatAssoc(head, EncodeNames(others[1..]), own);
      ConcatAssoc(head, EncodeNames(others[1..]) + own, rest);
    }
  }

  /** What the first `m` bytes of such a list are read as. */
  function NamesOutcome(others: seq<Item>, host: Bytes, m: nat): Result {
    if m >= NamesSize(others) + 3 + |host| then Name(host) else if InNameHeader(others, m) then NoSni else Truncated
  }

  lemma {:induction false} NamesCut(others: seq<Item>, host: Bytes, rest: Bytes, m: nat)
    requires OtherNames(others) && |host| < 0x1_0000 && m <= |WithHost(others, host, rest)|
    ensures FirstHost(WithHost(others, host, rest)[..m]) == NamesOutcome(others, host, m)
  {
    NamesFirst(others, host, rest);
    if others == [] {
      NameCut(Item(0, host), rest, m);
    } else {
      var e, tail := others[0], WithHost(others[1..], host, rest);
      NameCut(e, tail, m);
      if m >= 3 + |e.body| {
        NamesCut(others[1..], host, rest, m - 3 - |e.body|);
      }
    }
  }

  lemma {:induction false} NamesEncodedSize(others: seq<Item>)
    requires OtherNames(others)
    ensures |EncodeNames(others)| == NamesSize(others)
  {
    if others != [] {
      NamesEncodedSize(others[1..]);
    }
  }

  /** A server_name body is read up to the length it states or the bytes it has, whichever is less;
      one too short to state a length is truncated. */
  lemma NameListExactly(others: seq<Item>, host: Bytes, rest: Bytes, stated: U16, n: nat)
    requires OtherNames(others) && |host| < 0x1_0000 && n <= 2 + |WithHost(others, host, rest)|
    ensures var names := WithHost(others, host, rest);
            NameList((Len16(stated) + names)[..n]) ==
            if n < 2 then Truncated else NamesOutcome(others, host, if n - 2 < stated then n - 2 else stated)
  {
    var names := WithHost(others, host, rest);
    var ext := (Len16(stated) + names)[..n];
    if n >= 2 {
      assert ext[0..2] == Len16(stated) && ext[2..] == names[..n - 2];
      Be16At(ext, 0);
      if n - 2 > stated {
        assert names[..n - 2][..stated] == names[..stated];
        NamesCut(others, host, rest, stated);
      } else {
        NamesCut(others, host, rest, n - 2);
      }
    }
  }

  lemma HostFound(h: Hello)
    requires NamesValid(h)
    ensures NameList(Len16(|NamesOf(h)|) + NamesOf(h)) == Name(h.host)
  {
    var names := NamesOf(h);
    var ext := Len16(|names|) + names;
    assert names == WithHost(h.otherNames, h.host, h.afterNames);
    NamesEncodedSize(h.otherNames);
    NameListExactly(h.otherNames, h.host, h.afterNames, |names|, |ext|);
    assert ext[..|ext|] == ext;
  }

  // ---- The extensions block and the whole ----

  /** What the first `n` bytes of the extensions block are read as. */
  function BlockOutcome(h: Hello, n: nat): Result
    requires NamesValid(h)
  {
    if n < 2 then NoSni
    else if n >= Size(h.before) + 8 + |NamesOf(h)| then Name(h.host)
    else if InHeader(h.before, n - 2) then NoSni
    else Truncated
  }

  /** What the first `n` bytes of a well-formed ClientHello are read as. */
  function CutOutcome(h: Hello, n: nat): Result
    requires NamesValid(h)
  {
    if n < 9 then NotClientHello
    else if n < BlockStart(h) then Truncated
    else BlockOutcome(h, n - BlockStart(h))
  }

  lemma BlockCut(es: Bytes, tail: Bytes, n: nat)
    requires |es| < 0x1_0000 && 2 <= n <= |Field16(es, tail)|
    ensures var p := Field16(es, tail)[..n];
            Clip(p[2..], Be16(p, 0)) == es[..if n - 2 < |es| then n - 2 else |es|]
  {
    var p := Field16(es, tail)[..n];
    assert p[..2] == Len16(|es|) && Be16(p, 0) == Be16(p[..2], 0);
    assert p[2..] == (es + tail)[..n - 2];
  }

  lemma ExtensionsCut(h: Hello, n: nat)
    requires HelloValid(h) && n <= |Field16(ExtensionsOf(h), h.tail)|
    ensures Extensions(Field16(ExtensionsOf(h), h.tail)[..n]) == BlockOutcome(h, n)
  {
    var es, names := ExtensionsOf(h), NamesOf(h);
    var body := Len16(|names|) + names;
    var p := Field16(es, h.tail)[..n];
    if n >= 2 {
      var m := if n - 2 < |es| then n - 2 else |es|;
      BlockCut(es, h.tail, n);
      EncodedSize(h.before);
      FindCut(h.before, body, h.after, m);
      HostFound(h);
    }
  }

  /** Reading a cut of `fields` by `read` is truncation up to `k` bytes, and cuts `block` after. */
  ghost predicate CutsTo(read: Bytes -> Result, fields: Bytes, k: nat, block: Bytes) {
    && |fields| == k + |block|
    && forall a :: 0 <= a <= |fields| ==> read(fields[..a]) == if a < k then Truncated else Extensions(block[..a - k])
  }

  lemma CompressionCut(compression: Bytes, block: Bytes)
    requires |compression| < 0x100
    ensures CutsTo(AfterCiphers, Field8(compression, block), 1 + |compression|, block)
  {
    forall a | 0 <= a <= |Field8(compression, block)|
      ensures AfterCiphers(Field8(compression, block)[..a])
              == if a < 1 + |compression| then Truncated else Extensions(block[..a - 1 - |compression|])
    {
      Skip8Cut(compression, block, a);
    }
  }

  lemma CiphersCut(ciphers: Bytes, fields: Bytes, k: nat, block: Bytes)
    requires |ciphers| < 0x1_0000 && CutsTo(AfterCiphers, fields, k, block)
    ensures CutsTo(AfterSession, Field16(ciphers, fields), 2 + |ciphers| + k, block)
  {
    forall a | 0 <= a <= |Field16(ciphers, fields)|
      ensures AfterSession(Field16(ciphers, fields)[..a])
              == if a < 2 + |ciphers| + k then Truncated else Extensions(block[..a - 2 - |ciphers| - k])
    {
      Skip16Cut(ciphers, fields, a);
    }
  }

  lemma SessionCut(session: Bytes, fields: Bytes, k: nat, block: Bytes)
    requires |session| < 0x100 && CutsTo(AfterSession, fields, k, block)
    ensures CutsTo(AfterRandom, Field8(session, fields), 1 + |session| + k, block)
  {
    forall a | 0 <= a <= |Field8(session, fields)|
      ensures AfterRandom(Field8(session, fields)[..a])
              == if a < 1 + |session| + k then Truncated else Extensions(block[..a - 1 - |session| - k])
    {
      Skip8Cut(session, fields, a);
    }
  }

  lemma HeaderKept(header: Bytes, random: Bytes, fields: Bytes, k: nat, block: Bytes, n: nat)
    requires |header| == 9 && header[0] == 0x16 && header[5] == 1 && |random| == 34
    requires CutsTo(AfterRandom, fields, k, block) && n <= 43 + |fields|
    ensures ServerNameOf((header + random + fields)[..n])
            == if n < 9 then NotClientHello else if n < 43 + k then Truncated else Extensions(block[..n - 43 - k])
  {
    var b := (header + random + fields)[..n];
    assert n > 5 ==> b[0] == header[0] && b[5] == header[5];
    if n >= 43 {
      assert b[43..] == fields[..n - 43];
    }
  }

  lemma HelloCut(h: Hello, exts: Bytes, n: nat, r: Result)
    requires FieldsValid(h) && |exts| < 0x1_0000 && n <= |HelloBytes(h, exts)|
    requires r == if n < 9 then NotClientHello else if n < BlockStart(h) then Truncated
                  else Extensions(Field16(exts, h.tail)[..n - BlockStart(h)])
    ensures ServerNameOf(HelloBytes(h, exts)[..n]) == r
  {
    var block := Field16(exts, h.tail);
    CompressionCut(h.compression, block);
    CiphersCut(h.ciphers, Field8(h.compression, block), 1 + |h.compression|, block);
    SessionCut(h.session, Field16(h.ciphers, Field8(h.compression, block)), 3 + |h.ciphers| + |h.compression|, block);
    HeaderKept(h.header, h.random, FieldsThen(h.session, h.ciphers, h.compression, block),
               4 + |h.session| + |h.ciphers| + |h.compression|, block, n);
  }

  /** Exactly what every truncation of a well-formed ClientHello that carries a server name is read
      as. The name is found once its whole extension is there; before that, a cut is reported as
      truncation if it falls inside a field or an extension body, but as the absence of a server
      name if it falls inside the length of the extensions block or a header of an extension. */
  lemma TruncationExactly(h: Hello, n: nat)
    requires HelloValid(h) && n <= |EncodeHello(h)|
    ensures ServerNameOf(EncodeHello(h)[..n]) == CutOutcome(h, n)
  {
    if n >= BlockStart(h) {
      ExtensionsCut(h, n - BlockStart(h));
    }
    HelloCut(h, ExtensionsOf(h), n, CutOutcome(h, n));
  }

  lemma HelloSize(h: Hello)
    requires HelloValid(h)
    ensures |EncodeHello(h)| == BlockStart(h) + 2 + |ExtensionsOf(h)| + |h.tail|
    ensures |ExtensionsOf(h)| == Size(h.before) + 6 + |NamesOf(h)| + |h.after|
  {
    EncodedSize(h.before);
  }

  /** Every well-formed ClientHello with a server name yields that name. */
  lemma RoundTrip(h: Hello)
    requires HelloValid(h)
    ensures ServerNameOf(EncodeHello(h)) == Name(h.host)
  {
    var b := EncodeHello(h);
    HelloSize(h);
    TruncationExactly(h, |b|);
    assert b[..|b|] == b;
  }

  /** So "no server name" can be reported of a ClientHello that has one: cut it where its extensions
      block begins. */
  lemma NamePresentButUnseen(h: Hello)
    requires HelloValid(h)
    ensures ServerNameOf(EncodeHello(h)) == Name(h.host)
    ensures BlockStart(h) <= |EncodeHello(h)| && ServerNameOf(EncodeHello(h)[..BlockStart(h)]) == NoSni
  {
    HelloSize(h);
    RoundTrip(h);
    TruncationExactly(h, BlockStart(h));
  }

  // ---- No server name ----

  lemma {:induction false} NoneFound(es: seq<Item>)
    requires Fits(es) && forall e <- es :: e.tag != 0
    ensures FindExtension(EncodeExtensions(es)) == NoSni
  {
    if es != [] {
      var e, tail := es[0], EncodeExtensions(es[1..]);
      var p := EncodeExtensions(es);
      assert p == ItemThen(e, tail);
      assert p[..|p|] == p && tail[..|tail|] == tail;
      HeaderCut(e, tail, |p|);
      BodyCut(e, tail, |p|);
      NoneFound(es[1..]);
    }
  }

  lemma BlockWhole(es: Bytes, tail: Bytes)
    requires |es| < 0x1_0000
    ensures Extensions(Field16(es, tail)) == FindExtension(es)
  {
    var p := Field16(es, tail);
    BlockCut(es, tail, |p|);
    assert p[..|p|] == p && es[..|es|] == es;
  }

  lemma HelloWhole(h: Hello, exts: Bytes)
    requires FieldsValid(h) && |exts| < 0x1_0000
    ensures ServerNameOf(HelloBytes(h, exts)) == Extensions(Field16(exts, h.tail))
  {
    var b, block := HelloBytes(h, exts), Field16(exts, h.tail);
    assert b[..|b|] == b && block[..|block|] == block;
    HelloCut(h, exts, |b|, Extensions(block));
  }

  /** A well-formed ClientHello without a server_name extension has no server name. */
  lemma NoServerName(h: Hello)
    requires FieldsValid(h) && |EncodeExtensions(h.before)| < 0x1_0000
    ensures ServerNameOf(HelloBytes(h, EncodeExtensions(h.before))) == NoSni
  {
    HelloWhole(h, EncodeExtensions(h.before));
    BlockWhole(EncodeExtensions(h.before), h.tail);
    NoneFound(h.before);
  }

  lemma {:induction false} HostListRead(sn: Bytes)
    ensures FirstHost(sn) != NotClientHello
    decreases |sn|
  {
    if |sn| >= 3 && |sn| - 3 >= Be16(sn, 1) {
      HostListRead(sn[3 + Be16(sn, 1)..]);
    }
  }

  lemma {:induction false} ExtensionListRead(p: Bytes)
    ensures FindExtension(p) != NotClientHello
    decreases |p|
  {
    if |p| >= 4 && |p| - 4 >= Be16(p, 2) {
      var ext := p[4..4 + Be16(p, 2)];
      if |ext| >= 2 {
        HostListRead(Clip(ext[2..], Be16(ext, 0)));
      }
      ExtensionListRead(p[4 + Be16(p, 2)..]);
    }
  }

  lemma BlockRead(p: Bytes)
    ensures Extensions(p) != NotClientHello
  {
    if |p| >= 2 {
      ExtensionListRead(Clip(p[2..], Be16(p, 0)));
    }
  }

  /** Exactly the captures that do not start as a ClientHello does are reported as not being one. */
  lemma NotClientHelloExactly(b: Bytes)
    ensures ServerNameOf(b) == NotClientHello <==> |b| < 9 || b[0] != 0x16 || b[5] != 0x01
  {
    forall p: Bytes ensures Extensions(p) != NotClientHello {
      BlockRead(p);
    }
  }
}
