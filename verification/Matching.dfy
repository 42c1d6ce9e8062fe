/** What a rule's match means: an AND across the dimensions it sets, an OR within each. */
module Matching {
  import opened Base
  import opened Lpm
  import opened Policy
  import opened Domains

  const AnyMatch := Match(ZeroSelector, [], [], [], [], "")

  /** A match that sets nothing about the destination matches everything. */
  lemma EmptyMatchesAll(f: Flow)
    ensures DestMatches(AnyMatch, f)
  {
  }

  /** The dimensions are independent: a flow must pass each of them alone. */
  lemma AcrossIsAnd(m: Match, f: Flow)
    ensures DestMatches(m, f) <==>
            && DestMatches(AnyMatch.(domains := m.domains), f)
            && DestMatches(AnyMatch.(cidrs := m.cidrs), f)
            && DestMatches(AnyMatch.(ports := m.ports), f)
            && DestMatches(AnyMatch.(methods := m.methods), f)
            && DestMatches(AnyMatch.(pathPrefix := m.pathPrefix), f)
  {
  }

  lemma ByPort(ports: seq<U16>, f: Flow)
    requires ports != []
    ensures DestMatches(AnyMatch.(ports := ports), f) <==> exists i :: 0 <= i < |ports| && ports[i] == f.port
  {
  }

  /** `x` lies in the run of 2^k numbers that starts at `block` times 2^k. */
  predicate InRun(x: nat, block: nat, k: nat) {
    block * Pow2(k) <= x < (block + 1) * Pow2(k)
  }

  ghost predicate SameRun(x: nat, y: nat, k: nat) {
    exists block: nat :: InRun(x, block, k) && InRun(y, block, k)
  }

  /** The numbers of a parsed network are one aligned run; the two families never mix. */
  ghost predicate InBlock(c: Cidr, a: Address) {
    match c
    case V4(net, ones) => a.Ip4? && net <= a.v4 < net + Pow2(32 - ones)
    case V6(net, ones) => a.Ip6? && SameRun(net, a.v6, 128 - ones)
    case Malformed(_) => false
  }

  lemma RunOfShift(x: nat, block: nat, k: nat)
    ensures InRun(x, block, k) <==> Shr(x, k) == block
  {
    var q := Shr(x, k);
    ShiftBracket(x, k);
    ShlIsTimes(q, k);
    ShlIsTimes(q + 1, k);
    ShlIsTimes(block, k);
    ShlIsTimes(block + 1, k);
    if q < block {
      ShlMonotone(q + 1, block, k);
    } else if block < q {
      ShlMonotone(block + 1, q, k);
    }
  }

  lemma SameRunIsShift(x: nat, y: nat, k: nat)
    ensures SameRun(x, y, k) <==> Shr(x, k) == Shr(y, k)
  {
    RunOfShift(x, Shr(x, k), k);
    RunOfShift(y, Shr(x, k), k);
    if block: nat :| InRun(x, block, k) && InRun(y, block, k) {
      RunOfShift(x, block, k);
      RunOfShift(y, block, k);
    }
  }

  lemma ContainsIsInBlock(c: Cidr, a: Address)
    ensures CidrContains(c, a) <==> InBlock(c, a)
  {
    match c
    case V4(net, ones) =>
      if a.Ip4? {
        InNetIsRange(net, ones, a.v4);
      }
    case V6(net, ones) =>
      if a.Ip6? {
        SameRunIsShift(net, a.v6, 128 - ones);
      }
    case Malformed(_) =>
  }

  /** A flow passes a list of networks if its address lies in one of them; a flow without an address
      passes none. */
  lemma ByCidr(cidrs: seq<Cidr>, f: Flow)
    requires cidrs != []
    ensures DestMatches(AnyMatch.(cidrs := cidrs), f) <==> f.dst.Some? && exists c <- cidrs :: InBlock(c, f.dst.value)
  {
    if f.dst.Some? {
      forall c <- cidrs ensures CidrContains(c, f.dst.value) <==> InBlock(c, f.dst.value) {
        ContainsIsInBlock(c, f.dst.value);
      }
    }
  }

  /** `s` is the method `name` up to letter case and surrounding space. */
  ghost predicate NamesMethod(s: string, name: string) {
    exists pre: string, core: string, post: string ::
      s == pre + core + post && Blank(pre) && Blank(post) && (core == "" || Trimmed(core)) && SameButCase(core, name)
  }

  lemma MethodIsNamed(s: string, name: string)
    ensures Upper(TrimSpace(s)) == Upper(name) <==> NamesMethod(s, name)
  {
    var pre, post := TrimSpaceCore(s);
    UpperForgetsCase(TrimSpace(s), name);
    forall a: string, core: string, b: string
      | s == a + core + b && Blank(a) && Blank(b) && (core == "" || Trimmed(core))
      ensures TrimSpace(s) == core
    {
      if core == "" {
        TrimSpaceBlank(s);
      } else {
        TrimSpaceAround(a, core, b);
      }
    }
  }

  lemma ByMethod(methods: seq<string>, f: Flow)
    requires methods != []
    ensures DestMatches(AnyMatch.(methods := methods), f) <==> exists s <- methods :: NamesMethod(s, f.method_)
  {
    forall s <- methods ensures Upper(TrimSpace(s)) == Upper(f.method_) <==> NamesMethod(s, f.method_) {
      MethodIsNamed(s, f.method_);
    }
  }

  lemma ByPath(prefix: string, f: Flow)
    ensures DestMatches(AnyMatch.(pathPrefix := prefix), f) <==> exists rest: string :: f.path == prefix + rest
  {
    if prefix <= f.path {
      assert f.path == prefix + f.path[|prefix|..];
    }
  }

  /** A flow passes a list of patterns if its name falls under one of them; patterns that normalize
      to nothing are ignored, and a list of only such patterns is no restriction. */
  lemma ByDomain(domains: seq<string>, f: Flow)
    ensures DestMatches(AnyMatch.(domains := domains), f) <==>
            || (forall i :: 0 <= i < |domains| ==> NormalizeDomainPattern(domains[i]) == "")
            || (exists i :: 0 <= i < |domains| && DomainMatches(NormalizeDomainPattern(domains[i]), f.domain))
  {
    if d :| d in domains && DomainMatches(NormalizeDomainPattern(d), f.domain) {
      var i :| 0 <= i < |domains| && domains[i] == d;
      assert DomainMatches(NormalizeDomainPattern(domains[i]), f.domain);
    }
  }
}
