/** The kernel lookup tables and the in-kernel decision over them. */
module Kernel {
  import opened Base
  import opened Lpm

  /** A key of one of the three enforcement maps, tagged with the map it belongs to.
      Cgroup 0 is node-global and port 0 is any port. */
  datatype Key =
    | DefaultKey(cgroup: U64)
    | VerdictKey(cgroup: U64, addr: U32, port: U16)
    | CidrKey(cgroup: U64, net: U32, ones: nat)

  /** `default_action`, `verdicts` and `cidr_verdicts` as one map over tagged keys. */
  type Table = map<Key, Byte>

  const ActionDeny: Byte := 0
  const ActionAllow: Byte := 1

  const GlobalDefault: Key := DefaultKey(0)

  /** Trie keys carry a masked network of at most 32 bits. */
  predicate KeyValid(k: Key) {
    k.CidrKey? ==> k.ones <= 32 && Masked(k.net, k.ones)
  }

  predicate TableValid(t: Table) {
    forall k <- t :: KeyValid(k)
  }

  /** A destination as the datapath sees it: sending cgroup, IPv4 address, port. */
  datatype Dest = Dest(cgroup: U64, addr: U32, port: U16)

  /** The trie entry `k` answers a lookup of (cgroup, addr), decided on the key bytes. */
  ghost predicate TrieHit(t: Table, k: Key, cgroup: U64, addr: U32, ones: nat) {
    && k in t && k.CidrKey? && k.ones == ones <= 32
    && EntryMatches(64 + ones, CidrKeyBytes(64 + ones, k.cgroup, k.net), CidrKeyBytes(96, cgroup, addr))
  }

  /** Longest-prefix lookup among entries of at most `ones` network bits. */
  ghost function TrieLookup(t: Table, cgroup: U64, addr: U32, ones: nat): Option<Byte> {
    if exists k :: TrieHit(t, k, cgroup, addr, ones) then
      var k :| TrieHit(t, k, cgroup, addr, ones); Some(t[k])
    else if ones == 0 then None
    else TrieLookup(t, cgroup, addr, ones - 1)
  }

  /** Resolves the action for a destination, most specific entry first. */
  ghost function VerdictFor(t: Table, d: Dest): Byte {
    if VerdictKey(d.cgroup, d.addr, d.port) in t then t[VerdictKey(d.cgroup, d.addr, d.port)]
    else if VerdictKey(d.cgroup, d.addr, 0) in t then t[VerdictKey(d.cgroup, d.addr, 0)]
    else if VerdictKey(0, d.addr, d.port) in t then t[VerdictKey(0, d.addr, d.port)]
    else if VerdictKey(0, d.addr, 0) in t then t[VerdictKey(0, d.addr, 0)]
    else
      var own := TrieLookup(t, d.cgroup, d.addr, 32);
      if own.Some? then own.value
      else
        var global := TrieLookup(t, 0, d.addr, 32);
        if global.Some? then global.value
        else if DefaultKey(d.cgroup) in t then t[DefaultKey(d.cgroup)]
        else if DefaultKey(0) in t then t[DefaultKey(0)]
        else ActionAllow
  }

  // ---- Specificity ----

  /** Key `k` speaks about destination `d`. */
  predicate Covers(k: Key, d: Dest) {
    && (k.cgroup == d.cgroup || k.cgroup == 0)
    && match k
       case DefaultKey(_) => true
       case VerdictKey(_, addr, port) => addr == d.addr && (port == d.port || port == 0)
       case CidrKey(_, net, ones) => ones <= 32 && InNet(net, ones, d.addr)
  }

  /** How specific a covering key is; larger is more specific. */
  function Rank(k: Key, d: Dest): nat {
    match k
    case DefaultKey(c) => if c == d.cgroup then 1 else 0
    case CidrKey(c, _, ones) => if c == d.cgroup then 35 + ones else 2 + ones
    case VerdictKey(c, _, port) =>
      if c == d.cgroup then (if port == d.port then 71 else 70)
      else (if port == d.port then 69 else 68)
  }

  /** For a pod's destination: its own host entries before the node's, exact port before any port;
      then its own networks before the node's, longer before shorter; then its own default before
      the node's. */
  lemma SpecificityOrder(d: Dest, own: U32, ownOnes: nat, global: U32, globalOnes: nat, shorter: nat)
    requires d.cgroup != 0 && d.port != 0 && shorter < ownOnes <= 32 && shorter < globalOnes <= 32
    ensures Rank(VerdictKey(d.cgroup, d.addr, d.port), d) > Rank(VerdictKey(d.cgroup, d.addr, 0), d)
            > Rank(VerdictKey(0, d.addr, d.port), d) > Rank(VerdictKey(0, d.addr, 0), d)
            > Rank(CidrKey(d.cgroup, own, ownOnes), d) > Rank(CidrKey(d.cgroup, own, shorter), d)
            > Rank(CidrKey(0, global, globalOnes), d) > Rank(CidrKey(0, global, shorter), d)
            > Rank(DefaultKey(d.cgroup), d) > Rank(DefaultKey(0), d)
  {
  }

  /** No two valid covering keys are equally specific. */
  lemma RankInjective(k: Key, k': Key, d: Dest)
    requires KeyValid(k) && KeyValid(k') && Covers(k, d) && Covers(k', d)
    requires Rank(k, d) == Rank(k', d)
    ensures k == k'
  {
    if k.CidrKey? {
      MaskedUnique(k.net, k'.net, k.ones, d.addr);
    }
  }

  /** `k` is the most specific key of `t` that covers `d`. */
  ghost predicate Top(t: Table, d: Dest, k: Key) {
    k in t && Covers(k, d) && forall k' <- t :: Covers(k', d) ==> Rank(k', d) <= Rank(k, d)
  }

  /** A trie lookup finds the entry of a given length when it exists and no longer one does. */
  lemma {:induction false} TrieFinds(t: Table, cgroup: U64, addr: U32, bound: nat, k: Key)
    requires TableValid(t) && k in t && k.CidrKey? && k.cgroup == cgroup
    requires k.ones <= bound <= 32 && InNet(k.net, k.ones, addr)
    requires forall k' <- t :: k'.CidrKey? && k'.cgroup == cgroup && InNet(k'.net, k'.ones, addr) ==> k'.ones <= k.ones
    ensures TrieLookup(t, cgroup, addr, bound) == Some(t[k])
  {
    if bound == k.ones {
      KeyAdequacy(k.ones, k.cgroup, k.net, cgroup, addr);
      assert TrieHit(t, k, cgroup, addr, bound);
      forall k' | TrieHit(t, k', cgroup, addr, bound) ensures k' == k {
        KeyAdequacy(bound, k'.cgroup, k'.net, cgroup, addr);
        assert KeyValid(k) && KeyValid(k');
        MaskedUnique(k.net, k'.net, bound, addr);
      }
    } else {
      forall k' ensures !TrieHit(t, k', cgroup, addr, bound) {
        if TrieHit(t, k', cgroup, addr, bound) {
          KeyAdequacy(bound, k'.cgroup, k'.net, cgroup, addr);
          assert false;
        }
      }
      TrieFinds(t, cgroup, addr, bound - 1, k);
    }
  }

  lemma {:induction false} TrieMisses(t: Table, cgroup: U64, addr: U32, bound: nat)
    requires TableValid(t) && bound <= 32
    requires forall k' <- t :: k'.CidrKey? && k'.cgroup == cgroup ==> !InNet(k'.net, k'.ones, addr)
    ensures TrieLookup(t, cgroup, addr, bound) == None
  {
    forall k' ensures !TrieHit(t, k', cgroup, addr, bound) {
      if TrieHit(t, k', cgroup, addr, bound) {
        KeyAdequacy(bound, k'.cgroup, k'.net, cgroup, addr);
        assert false;
      }
    }
    if bound != 0 {
      TrieMisses(t, cgroup, addr, bound - 1);
    }
  }

  /** The eight lookups return the value of the most specific covering key. */
  lemma VerdictIsTop(t: Table, d: Dest, k: Key)
    requires TableValid(t) && Top(t, d, k)
    ensures VerdictFor(t, d) == t[k]
  {
    NoFinerVerdict(t, d, k);
    if !k.VerdictKey? {
      if k.CidrKey? && k.cgroup == d.cgroup {
        TrieTop(t, d, k);
      } else {
        NoFinerTrie(t, d, k, d.cgroup);
        if k.CidrKey? {
          TrieTop(t, d, k);
        } else {
          NoFinerTrie(t, d, k, 0);
          assert k == DefaultKey(d.cgroup) || k == DefaultKey(0);
        }
      }
    }
  }

  lemma NoFinerVerdict(t: Table, d: Dest, k: Key)
    requires TableValid(t) && Top(t, d, k)
    ensures forall k' <- t :: k'.VerdictKey? && Covers(k', d) ==> k.VerdictKey? && Rank(k', d) <= Rank(k, d)
  {
  }

  lemma TrieTop(t: Table, d: Dest, k: Key)
    requires TableValid(t) && Top(t, d, k) && k.CidrKey?
    ensures TrieLookup(t, k.cgroup, d.addr, 32) == Some(t[k])
  {
    forall k' <- t | k'.CidrKey? && k'.cgroup == k.cgroup && InNet(k'.net, k'.ones, d.addr)
      ensures k'.ones <= k.ones
    {
      assert Covers(k', d);
    }
    TrieFinds(t, k.cgroup, d.addr, 32, k);
  }

  lemma NoFinerTrie(t: Table, d: Dest, k: Key, cgroup: U64)
    requires TableValid(t) && Top(t, d, k) && !k.VerdictKey?
    requires cgroup == d.cgroup || cgroup == 0
    requires k.CidrKey? ==> k.cgroup != d.cgroup && cgroup == d.cgroup
    ensures TrieLookup(t, cgroup, d.addr, 32) == None
  {
    forall k' <- t | k'.CidrKey? && k'.cgroup == cgroup ensures !InNet(k'.net, k'.ones, d.addr) {
      assert KeyValid(k');
      assert Covers(k', d) <==> InNet(k'.net, k'.ones, d.addr);
    }
    TrieMisses(t, cgroup, d.addr, 32);
  }

  /** With nothing covering the destination the datapath fails open. */
  lemma VerdictOfNothing(t: Table, d: Dest)
    requires TableValid(t) && forall k <- t :: !Covers(k, d)
    ensures VerdictFor(t, d) == 1
  {
    forall cgroup | cgroup == d.cgroup || cgroup == 0 ensures TrieLookup(t, cgroup, d.addr, 32) == None {
      forall k' <- t | k'.CidrKey? && k'.cgroup == cgroup ensures !InNet(k'.net, k'.ones, d.addr) {
        assert KeyValid(k') && !Covers(k', d);
      }
      TrieMisses(t, cgroup, d.addr, 32);
    }
    assert !Covers(VerdictKey(d.cgroup, d.addr, d.port), d) || VerdictKey(d.cgroup, d.addr, d.port) !in t;
  }
}
