/** What domain patterns mean, in terms of DNS labels. */
module Domains {
  import opened Base
  import opened Policy

  /** The labels of a name, left to right. */
  function Split(s: string): (ls: seq<string>)
    ensures ls != []
  {
    if s == "" then [""]
    else
      var rest := Split(s[1..]);
      if s[0] == '.' then [""] + rest else [[s[0]] + rest[0]] + rest[1..]
  }

  function Join(ls: seq<string>): string
    requires ls != []
  {
    if |ls| == 1 then ls[0] else ls[0] + "." + Join(ls[1..])
  }

  lemma JoinCons(head: string, rest: seq<string>)
    requires rest != []
    ensures Join([head] + rest) == head + "." + Join(rest)
  {
    assert ([head] + rest)[1..] == rest;
  }

  /** Prepending a character to the first label prepends it to the name. */
  lemma JoinPrepend(c: char, ls: seq<string>)
    requires ls != []
    ensures Join([[c] + ls[0]] + ls[1..]) == [c] + Join(ls)
  {
    var out := [[c] + ls[0]] + ls[1..];
    assert out[1..] == ls[1..];
    if |ls| > 1 {
      ConcatAssoc([c], ls[0], ".");
      ConcatAssoc([c], ls[0] + ".", Join(ls[1..]));
    }
  }

  lemma {:induction false} JoinSplit(s: string)
    ensures Join(Split(s)) == s
  {
    if s != "" {
      var rest := Split(s[1..]);
      JoinSplit(s[1..]);
      if s[0] == '.' {
        JoinCons("", rest);
      } else {
        JoinPrepend(s[0], rest);
      }
      assert s == [s[0]] + s[1..];
    }
  }

  lemma {:induction false} SplitDot(x: string, y: string)
    ensures Split(x + "." + y) == Split(x) + Split(y)
  {
    var s := x + "." + y;
    if x == "" {
      assert s[1..] == y && s[0] == '.';
    } else {
      var xs, ys := Split(x[1..]), Split(y);
      assert s[1..] == x[1..] + "." + y && s[0] == x[0];
      SplitDot(x[1..], y);
      if x[0] == '.' {
        ConcatAssoc([""], xs, ys);
      } else {
        assert (xs + ys)[1..] == xs[1..] + ys && (xs + ys)[0] == xs[0];
        ConcatAssoc([[x[0]] + xs[0]], xs[1..], ys);
      }
    }
  }

  lemma {:induction false} JoinConcat(a: seq<string>, b: seq<string>)
    requires a != [] && b != []
    ensures Join(a + b) == Join(a) + "." + Join(b)
  {
    assert (a + b)[1..] == a[1..] + b;
    if |a| > 1 {
      JoinConcat(a[1..], b);
      assert Join(a + b) == a[0] + "." + (Join(a[1..]) + "." + Join(b));
    } else {
      assert a[1..] + b == b;
    }
  }

  predicate LabelSuffix(base: seq<string>, name: seq<string>) {
    |base| <= |name| && name[|name| - |base|..] == base
  }

  lemma DottedSuffixIsLabelSuffix(base: string, n: string)
    requires HasSuffix(n, "." + base)
    ensures LabelSuffix(Split(base), Split(n))
  {
    var x := n[..|n| - |base| - 1];
    assert n == x + ("." + base) == x + "." + base;
    SplitDot(x, base);
  }

  lemma EndsWith(x: string, base: string, n: string)
    requires n == x + "." + base
    ensures HasSuffix(n, "." + base)
  {
    assert n == x + ("." + base);
  }

  lemma JoinedSuffix(pre: seq<string>, bs: seq<string>)
    requires bs != []
    ensures Join(pre + bs) == Join(bs) || HasSuffix(Join(pre + bs), "." + Join(bs))
  {
    if pre == [] {
      assert pre + bs == bs;
    } else {
      JoinConcat(pre, bs);
      EndsWith(Join(pre), Join(bs), Join(pre + bs));
    }
  }

  lemma JoinedLabelSuffix(bs: seq<string>, ls: seq<string>)
    requires bs != [] && LabelSuffix(bs, ls)
    ensures Join(ls) == Join(bs) || HasSuffix(Join(ls), "." + Join(bs))
  {
    var pre := ls[..|ls| - |bs|];
    assert ls == pre + bs;
    JoinedSuffix(pre, bs);
  }

  lemma LabelSuffixIsDottedSuffix(base: string, n: string)
    requires LabelSuffix(Split(base), Split(n))
    ensures n == base || HasSuffix(n, "." + base)
  {
    JoinedLabelSuffix(Split(base), Split(n));
    JoinSplit(n);
    JoinSplit(base);
  }

  /** A name matches a base exactly when the base's labels are its last labels, compared without
      case and without a trailing dot; the empty name and the empty base match nothing. */
  lemma DomainMatchesByLabel(base: string, name: string)
    ensures var n := Lower(TrimDot(TrimSpace(name)));
            DomainMatches(base, name) <==> base != "" && n != "" && LabelSuffix(Split(base), Split(n))
  {
    var n := Lower(TrimDot(TrimSpace(name)));
    if HasSuffix(n, "." + base) {
      DottedSuffixIsLabelSuffix(base, n);
    }
    if LabelSuffix(Split(base), Split(n)) {
      LabelSuffixIsDottedSuffix(base, n);
    }
  }

  // ---- Letter case and surrounding space ----

  predicate Capital(c: char) {
    65 <= c as int <= 90
  }

  predicate Small(c: char) {
    97 <= c as int <= 122
  }

  /** The same ASCII letter in either case, or the same character. */
  predicate SameLetter(c: char, d: char) {
    || c == d
    || (Capital(c) && d as int == c as int + 32)
    || (Capital(d) && c as int == d as int + 32)
  }

  predicate SameButCase(s: string, t: string) {
    |s| == |t| && forall i :: 0 <= i < |s| ==> SameLetter(s[i], t[i])
  }

  predicate NoCapitals(s: string) {
    forall c <- s :: !Capital(c)
  }

  /** Space, tab, line feed, vertical tab, form feed and carriage return. */
  predicate Space(c: char) {
    var n := c as int;
    n == 32 || n == 9 || n == 10 || n == 11 || n == 12 || n == 13
  }

  lemma SpacesTrimmed(c: char)
    ensures IsSpace(c) <==> Space(c)
  {
  }

  predicate Blank(s: string) {
    forall c <- s :: Space(c)
  }

  /** Neither empty nor bordered by space. */
  predicate Trimmed(s: string) {
    s != "" && !Space(s[0]) && !Space(s[|s| - 1])
  }

  lemma {:induction false} LowerAt(s: string, i: nat)
    requires i < |s|
    ensures Lower(s)[i] == LowerChar(s[i])
  {
    if i > 0 {
      LowerAt(s[1..], i - 1);
    }
  }

  lemma {:induction false} UpperAt(s: string)
    ensures |Upper(s)| == |s| && forall i :: 0 <= i < |s| ==> Upper(s)[i] == UpperChar(s[i])
  {
    if s != "" {
      UpperAt(s[1..]);
    }
  }

  lemma LetterCase(c: char, d: char)
    ensures UpperChar(c) == UpperChar(d) <==> SameLetter(c, d)
    ensures !Capital(d) ==> (LowerChar(c) == d <==> SameLetter(c, d))
  {
  }

  /** Upper-casing forgets exactly the letter case. */
  lemma UpperForgetsCase(s: string, t: string)
    ensures Upper(s) == Upper(t) <==> SameButCase(s, t)
  {
    UpperAt(s);
    UpperAt(t);
    if |s| == |t| {
      forall i | 0 <= i < |s| ensures Upper(s)[i] == Upper(t)[i] <==> SameLetter(s[i], t[i]) {
        LetterCase(s[i], t[i]);
      }
    }
  }

  /** Lower-casing turns any spelling of a text without capitals into that text. */
  lemma LowerSettlesCase(s: string, t: string)
    requires NoCapitals(t)
    ensures Lower(s) == t <==> SameButCase(s, t)
  {
    if |s| == |t| {
      forall i | 0 <= i < |s| ensures Lower(s)[i] == t[i] <==> SameLetter(s[i], t[i]) {
        LowerAt(s, i);
        assert t[i] in t;
        LetterCase(s[i], t[i]);
      }
    }
  }

  lemma {:induction false} TrimSpaceAround(pre: string, s: string, post: string)
    requires Blank(pre) && Blank(post) && Trimmed(s)
    ensures TrimSpace(pre + s + post) == s
    decreases |pre|, |post|
  {
    var text := pre + s + post;
    SpacesTrimmed(text[0]);
    SpacesTrimmed(text[|text| - 1]);
    if pre != "" {
      assert text[0] == pre[0] && text[1..] == pre[1..] + s + post;
      TrimSpaceAround(pre[1..], s, post);
    } else if post != "" {
      var n := |post| - 1;
      assert text[0] == s[0] && text[|text| - 1] == post[n] && text[..|text| - 1] == pre + s + post[..n];
      TrimSpaceAround(pre, s, post[..n]);
    } else {
      assert text == s;
    }
  }

  lemma {:induction false} TrimSpaceBlank(s: string)
    requires Blank(s)
    ensures TrimSpace(s) == ""
  {
    if s != "" {
      SpacesTrimmed(s[0]);
      TrimSpaceBlank(s[1..]);
    }
  }

  /** Every text is what trimming leaves of it, between blanks. */
  lemma {:induction false} TrimSpaceCore(s: string) returns (pre: string, post: string)
    ensures s == pre + TrimSpace(s) + post && Blank(pre) && Blank(post)
    ensures TrimSpace(s) == "" || Trimmed(TrimSpace(s))
    decreases |s|
  {
    pre, post := "", "";
    if s != "" {
      var n := |s| - 1;
      SpacesTrimmed(s[0]);
      SpacesTrimmed(s[n]);
      if Space(s[0]) {
        pre, post := TrimSpaceCore(s[1..]);
        PutBack(s, [s[0]], pre, TrimSpace(s), post, "");
        pre := [s[0]] + pre;
      } else if Space(s[n]) {
        pre, post := TrimSpaceCore(s[..n]);
        PutBack(s, "", pre, TrimSpace(s), post, [s[n]]);
        post := post + [s[n]];
        assert "" + pre == pre;
      }
    }
  }

  lemma PutBack(s: string, first: string, pre: string, core: string, post: string, last: string)
    requires s == first + (pre + core + post) + last
    ensures s == (first + pre) + core + (post + last)
  {
  }

  // ---- Spellings of a pattern and of a name ----

  /** A base without capitals, surrounding space, final dot or wildcard. */
  predicate Plain(base: string) {
    Trimmed(base) && NoCapitals(base) && base[|base| - 1] != '.' && !("*." <= base)
  }

  lemma {:induction false} LowerConcat(a: string, b: string)
    ensures Lower(a + b) == Lower(a) + Lower(b)
  {
    if a == "" {
      assert a + b == b;
    } else {
      assert (a + b)[1..] == a[1..] + b;
      LowerConcat(a[1..], b);
    }
  }

  lemma DotEnds(s: string)
    requires s != ""
    ensures HasSuffix(s, ".") <==> s[|s| - 1] == '.'
  {
    assert s[|s| - 1..] == [s[|s| - 1]];
  }

  lemma LowerMarks()
    ensures Lower("*.") == "*." && Lower(".") == "." && Lower("") == ""
  {
    assert "*."[1..] == "." && "."[1..] == "";
  }

  /** A spelling of a base: an optional wildcard, the base in any letter case, an optional final dot. */
  function Spelling(wild: bool, s: string, dot: bool): string {
    (if wild then "*." else "") + s + (if dot then "." else "")
  }

  lemma LowerSpelling(wild: bool, s: string, dot: bool)
    ensures Lower(Spelling(wild, s, dot)) == Spelling(wild, Lower(s), dot)
  {
    var mark := if wild then "*." else "";
    LowerMarks();
    LowerConcat(mark, s);
    LowerConcat(mark + s, if dot then "." else "");
  }

  lemma SpellingReduces(wild: bool, base: string, dot: bool)
    requires Plain(base)
    ensures TrimDot(Spelling(wild, base, dot)) == Spelling(wild, base, false)
    ensures var p := Spelling(wild, base, false); (if "*." <= p then p[2..] else p) == base
  {
    var full, p := Spelling(wild, base, dot), Spelling(wild, base, false);
    DotEnds(full);
    if dot {
      assert full[..|full| - 1] == p;
    } else {
      assert full[|full| - 1] == base[|base| - 1];
    }
    if wild {
      assert p[2..] == base;
    } else {
      assert p == base;
    }
  }

  lemma SpellingTrimmed(wild: bool, s: string, dot: bool)
    requires Trimmed(s)
    ensures Trimmed(Spelling(wild, s, dot))
  {
    var text := Spelling(wild, s, dot);
    assert text[0] == (if wild then '*' else s[0]) && text[|text| - 1] == (if dot then '.' else s[|s| - 1]);
  }

  lemma CaseKeepsTrimmed(s: string, t: string)
    requires SameButCase(s, t) && Trimmed(t)
    ensures Trimmed(s)
  {
    assert SameLetter(s[0], t[0]) && SameLetter(s[|s| - 1], t[|s| - 1]);
  }

  /** Plain or wildcard, fully qualified or not, in any letter case and with any space around it, a
      pattern is the one plain base. */
  lemma PatternSpellings(base: string, s: string, wild: bool, dot: bool, pre: string, post: string)
    requires Plain(base) && SameButCase(s, base) && Blank(pre) && Blank(post)
    ensures NormalizeDomainPattern(pre + Spelling(wild, s, dot) + post) == base
  {
    CaseKeepsTrimmed(s, base);
    SpellingTrimmed(wild, s, dot);
    TrimSpaceAround(pre, Spelling(wild, s, dot), post);
    LowerSettlesCase(s, base);
    LowerSpelling(wild, s, dot);
    SpellingReduces(wild, base, dot);
  }

  /** A name in any letter case, fully qualified or not and with any space around it, matches a base
      exactly when the base's labels are the last labels of the plain name. */
  lemma NameSpellings(base: string, n: string, s: string, dot: bool, pre: string, post: string)
    requires Trimmed(n) && NoCapitals(n) && n[|n| - 1] != '.' && SameButCase(s, n) && Blank(pre) && Blank(post)
    ensures DomainMatches(base, pre + Spelling(false, s, dot) + post) <==> base != "" && LabelSuffix(Split(base), Split(n))
  {
    var text := Spelling(false, s, dot);
    CaseKeepsTrimmed(s, n);
    SpellingTrimmed(false, s, dot);
    TrimSpaceAround(pre, text, post);
    LowerSettlesCase(s, n);
    DotEnds(text);
    assert SameLetter(s[|s| - 1], n[|n| - 1]);
    assert TrimDot(text) == s by {
      if dot {
        assert text[..|text| - 1] == s;
      } else {
        assert text == s;
      }
    }
    DomainMatchesByLabel(base, pre + text + post);
  }
}
