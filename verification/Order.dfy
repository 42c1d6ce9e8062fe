/** The order policies are merged in: lexicographic on (namespace, name). */
module Order {

  /** Strict lexicographic order on text. */
  predicate Less(a: string, b: string) {
    b != "" && (a == "" || a[0] < b[0] || (a[0] == b[0] && Less(a[1..], b[1..])))
  }

  /** `a` runs out first, or is smaller, at position `k`, up to which they agree. */
  ghost predicate FirstDifference(a: string, b: string, k: nat) {
    k <= |a| && k < |b| && a[..k] == b[..k] && (k == |a| || a[k] < b[k])
  }

  lemma {:induction false} LessByFirstDifference(a: string, b: string)
    ensures Less(a, b) <==> exists k: nat :: FirstDifference(a, b, k)
  {
    if b != "" && a != "" && a[0] == b[0] {
      LessByFirstDifference(a[1..], b[1..]);
      if Less(a[1..], b[1..]) {
        var k: nat :| FirstDifference(a[1..], b[1..], k);
        assert a[..k + 1] == [a[0]] + a[1..][..k] && b[..k + 1] == [b[0]] + b[1..][..k];
        assert FirstDifference(a, b, k + 1);
      }
      if k: nat :| FirstDifference(a, b, k) {
        assert k > 0;
        assert a[1..][..k - 1] == a[..k][1..] && b[1..][..k - 1] == b[..k][1..];
        assert FirstDifference(a[1..], b[1..], k - 1);
      }
    } else if Less(a, b) {
      assert FirstDifference(a, b, 0);
    }
  }

  lemma {:induction false} LessTotal(a: string, b: string)
    ensures Less(a, b) || a == b || Less(b, a)
    ensures !(Less(a, b) && Less(b, a)) && !Less(a, a)
  {
    if a != "" {
      LessTotal(a[1..], a[1..]);
      if b != "" {
        LessTotal(a[1..], b[1..]);
        assert a == [a[0]] + a[1..] && b == [b[0]] + b[1..];
      }
    }
  }

  lemma {:induction false} LessTransitive(a: string, b: string, c: string)
    requires Less(a, b) && Less(b, c)
    ensures Less(a, c)
  {
    if a != "" && a[0] == b[0] == c[0] {
      LessTransitive(a[1..], b[1..], c[1..]);
    }
  }

  /** A sort key: namespace, then name. */
  type SortKey = (string, string)

  predicate KeyLess(x: SortKey, y: SortKey) {
    if x.0 != y.0 then Less(x.0, y.0) else Less(x.1, y.1)
  }

  lemma KeyTotal(x: SortKey, y: SortKey)
    ensures KeyLess(x, y) || x == y || KeyLess(y, x)
    ensures !(KeyLess(x, y) && KeyLess(y, x)) && !KeyLess(x, x)
  {
    LessTotal(x.0, y.0);
    LessTotal(x.1, y.1);
    LessTotal(x.1, x.1);
  }

  lemma KeyTransitive(x: SortKey, y: SortKey, z: SortKey)
    requires KeyLess(x, y) && KeyLess(y, z)
    ensures KeyLess(x, z)
  {
    if x.0 == y.0 == z.0 {
      LessTransitive(x.1, y.1, z.1);
    } else if x.0 != y.0 && y.0 != z.0 {
      LessTransitive(x.0, y.0, z.0);
      LessTotal(x.0, y.0);
    }
  }

  /** No element is preceded by a larger one. */
  ghost predicate Sorted<T>(s: seq<T>, key: T -> SortKey) {
    forall i, j :: 0 <= i < j < |s| ==> !KeyLess(key(s[j]), key(s[i]))
  }

  /** `a` comes strictly before `b`, decided at their first difference. */
  ghost predicate Before(a: string, b: string) {
    exists k: nat :: FirstDifference(a, b, k)
  }

  /** No later element comes before an earlier one by namespace, or by name within a namespace. */
  ghost predicate NameOrdered<T>(s: seq<T>, key: T -> SortKey) {
    forall i, j :: 0 <= i < j < |s| ==> !Precedes(key(s[j]), key(s[i]))
  }

  ghost predicate Precedes(x: SortKey, y: SortKey) {
    Before(x.0, y.0) || (x.0 == y.0 && Before(x.1, y.1))
  }

  lemma KeyLessIsPrecedes(x: SortKey, y: SortKey)
    ensures KeyLess(x, y) <==> Precedes(x, y)
  {
    LessByFirstDifference(x.0, y.0);
    LessByFirstDifference(x.1, y.1);
    LessTotal(x.0, y.0);
  }

  lemma SortedByName<T>(s: seq<T>, key: T -> SortKey)
    ensures Sorted(s, key) <==> NameOrdered(s, key)
  {
    forall i, j | 0 <= i < j < |s| ensures KeyLess(key(s[j]), key(s[i])) <==> Precedes(key(s[j]), key(s[i])) {
      KeyLessIsPrecedes(key(s[j]), key(s[i]));
    }
  }

  /** No two positions share a key. */
  ghost predicate UniqueKeys<T>(s: seq<T>, key: T -> SortKey) {
    forall i, j :: 0 <= i < j < |s| ==> key(s[i]) != key(s[j])
  }

  /** Insertion into a sorted sequence, before the first strictly larger member. */
  method Insert<T>(s: seq<T>, x: T, key: T -> SortKey) returns (r: seq<T>)
    requires Sorted(s, key)
    ensures Sorted(r, key) && multiset(r) == multiset(s) + multiset{x}
  {
    var i := 0;
    while i < |s| && !KeyLess(key(x), key(s[i]))
      invariant 0 <= i <= |s|
      invariant forall j :: 0 <= j < i ==> !KeyLess(key(x), key(s[j]))
    {
      i := i + 1;
    }
    r := s[..i] + [x] + s[i..];
    assert s == s[..i] + s[i..];
    InsertSorted(s, i, x, key);
  }

  lemma InsertSorted<T>(s: seq<T>, i: nat, x: T, key: T -> SortKey)
    requires Sorted(s, key) && i <= |s|
    requires forall j :: 0 <= j < i ==> !KeyLess(key(x), key(s[j]))
    requires i < |s| ==> KeyLess(key(x), key(s[i]))
    ensures Sorted(s[..i] + [x] + s[i..], key)
  {
    var r := s[..i] + [x] + s[i..];
    forall a, b | 0 <= a < b < |r| ensures !KeyLess(key(r[b]), key(r[a])) {
      if a == i {
        assert r[b] == s[b - 1];
        KeyTotal(key(x), key(s[i]));
        KeyTotal(key(s[b - 1]), key(s[i]));
        if KeyLess(key(s[b - 1]), key(x)) {
          KeyTransitive(key(s[b - 1]), key(x), key(s[i]));
        }
      }
    }
  }

  /** A sorted rearrangement of the input. */
  method Sort<T>(s: seq<T>, key: T -> SortKey) returns (r: seq<T>)
    ensures Sorted(r, key) && multiset(r) == multiset(s)
    ensures NameOrdered(r, key)
  {
    r := [];
    for i := 0 to |s|
      invariant Sorted(r, key) && multiset(r) == multiset(s[..i])
    {
      r := Insert(r, s[i], key);
      assert s[..i + 1] == s[..i] + [s[i]];
    }
    assert s[..|s|] == s;
    SortedByName(r, key);
  }

  /** With unique keys there is only one sorted rearrangement. */
  lemma {:induction false} SortedUnique<T>(a: seq<T>, b: seq<T>, key: T -> SortKey)
    requires Sorted(a, key) && Sorted(b, key) && UniqueKeys(a, key)
    requires multiset(a) == multiset(b)
    ensures a == b
  {
    SameSize(a, b);
    if a != [] {
      SameMember(a, b, a[0]);
      SameMember(b, a, b[0]);
      HeadIsLeast(a, b, key);
      TailMultiset(a);
      TailMultiset(b);
      MultisetCancel(multiset(a[1..]), multiset(b[1..]), a[0]);
      SortedUnique(a[1..], b[1..], key);
      assert a == [a[0]] + a[1..] && b == [b[0]] + b[1..];
    }
  }

  lemma SameSize<T>(a: seq<T>, b: seq<T>)
    requires multiset(a) == multiset(b)
    ensures |a| == |b|
  {
    assert |multiset(a)| == |a| && |multiset(b)| == |b|;
  }

  lemma SameMember<T>(a: seq<T>, b: seq<T>, x: T)
    requires multiset(a) == multiset(b) && x in a
    ensures x in b
  {
    assert multiset(a)[x] > 0;
  }

  lemma TailMultiset<T>(a: seq<T>)
    requires a != []
    ensures multiset(a[1..]) + multiset{a[0]} == multiset(a)
  {
    assert a == [a[0]] + a[1..];
  }

  lemma HeadIsLeast<T>(a: seq<T>, b: seq<T>, key: T -> SortKey)
    requires a != [] && b != [] && Sorted(a, key) && Sorted(b, key) && UniqueKeys(a, key)
    requires a[0] in b && b[0] in a
    ensures a[0] == b[0]
  {
    var i :| 0 <= i < |b| && b[i] == a[0];
    var j :| 0 <= j < |a| && a[j] == b[0];
    assert i == 0 || !KeyLess(key(b[i]), key(b[0]));
    assert j == 0 || (!KeyLess(key(a[j]), key(a[0])) && key(a[0]) != key(a[j]));
    KeyTotal(key(a[0]), key(b[0]));
  }

  lemma MultisetWithout<T>(r: seq<T>, i: nat)
    requires i < |r|
    ensures multiset(r[..i] + r[i + 1..]) + multiset{r[i]} == multiset(r)
  {
    assert r == r[..i] + [r[i]] + r[i + 1..];
  }

  lemma SortedWithout<T>(r: seq<T>, i: nat, key: T -> SortKey)
    requires Sorted(r, key) && i < |r|
    ensures Sorted(r[..i] + r[i + 1..], key)
  {
    var s := r[..i] + r[i + 1..];
    forall a, b | 0 <= a < b < |s| ensures !KeyLess(key(s[b]), key(s[a])) {
      assert s[a] == r[if a < i then a else a + 1] && s[b] == r[if b < i then b else b + 1];
    }
  }

  /** Adding one member to a sorted sequence with unique keys inserts it at one place. */
  lemma SortedInsertion<T>(s: seq<T>, x: T, r: seq<T>, key: T -> SortKey) returns (i: nat)
    requires Sorted(s, key) && Sorted(r, key) && UniqueKeys(s, key)
    requires multiset(r) == multiset(s) + multiset{x}
    ensures i <= |s| && r == s[..i] + [x] + s[i..]
  {
    assert multiset(r)[x] > 0;
    i :| 0 <= i < |r| && r[i] == x;
    MultisetWithout(r, i);
    MultisetCancel(multiset(r[..i] + r[i + 1..]), multiset(s), x);
    SortedWithout(r, i, key);
    SortedUnique(s, r[..i] + r[i + 1..], key);
    SplitAt(s, r, i);
  }

  lemma MultisetCancel<T>(a: multiset<T>, b: multiset<T>, x: T)
    requires a + multiset{x} == b + multiset{x}
    ensures a == b
  {
    assert (a + multiset{x}) - multiset{x} == a && (b + multiset{x}) - multiset{x} == b;
  }

  lemma SplitAt<T>(s: seq<T>, r: seq<T>, i: nat)
    requires i < |r| && s == r[..i] + r[i + 1..]
    ensures i <= |s| && r == s[..i] + [r[i]] + s[i..]
  {
    assert s[..i] == r[..i] && s[i..] == r[i + 1..];
  }
}
