/** Replacing text left to right without overlap, as Python's `str.replace` does, and when two such passes
    can be undone by two others. */
module Replacing {
  import opened Strings

  function Replace(s: string, a: string, b: string): string
    requires a != ""
    decreases |s|
  {
    if s == "" then ""
    else if a <= s then b + Replace(s[|a|..], a, b)
    else [s[0]] + Replace(s[1..], a, b)
  }

  /** Both replacements in a single pass. */
  function Scan(s: string, a: string, b: string, c: string, d: string): string
    requires a != "" && c != ""
    decreases |s|
  {
    if s == "" then ""
    else if a <= s then b + Scan(s[|a|..], a, b, c, d)
    else if c <= s then d + Scan(s[|c|..], a, b, c, d)
    else [s[0]] + Scan(s[1..], a, b, c, d)
  }

  /** No occurrence of `c` starts inside `b`, whatever follows `b`. */
  predicate Clear(b: string, c: string)
    requires |c| > 1
  {
    b == "" || ((c[0] != b[0] || (|b| > 1 && c[1] != b[1])) && Clear(b[1..], c))
  }

  /** The character is not among those of the text. */
  predicate Lacks(s: string, x: char) {
    s == "" || (s[0] != x && Lacks(s[1..], x))
  }

  lemma {:induction false} LacksAll(s: string, x: char)
    ensures Lacks(s, x) <==> x !in s
  {
    if s == "" {
    } else {
      LacksAll(s[1..], x);
      assert s == [s[0]] + s[1..];
    }
  }

  lemma {:induction false} ClearByIndex(b: string, c: string)
    requires |c| > 1
    requires forall k :: 0 <= k < |b| && b[k] == c[0] ==> k + 1 < |b| && b[k + 1] != c[1]
    ensures Clear(b, c)
  {
    if b == "" {
    } else {
      assert forall k :: 0 <= k < |b[1..]| ==> b[1..][k] == b[k + 1];
      ClearByIndex(b[1..], c);
    }
  }

  /** There is no occurrence of `a` that starts before this place. */
  ghost predicate NoneBefore(s: string, a: string, end: nat) {
    forall i :: 0 <= i < end ==> !MatchAt(s, a, i)
  }

  lemma NoneInTail(s: string, a: string, end: nat)
    requires s != "" && end > 0 && NoneBefore(s, a, end)
    ensures NoneBefore(s[1..], a, end - 1)
  {
    forall i | 0 <= i < end - 1 ensures !MatchAt(s[1..], a, i) {
      assert !MatchAt(s, a, i + 1);
      if i + 1 + |a| <= |s| {
        assert s[1..][i..i + |a|] == s[i + 1..i + 1 + |a|];
      }
    }
  }

  lemma ReplaceKept(e: char, s: string, a: string, b: string)
    requires a != "" && !(a <= [e] + s)
    ensures Replace([e] + s, a, b) == [e] + Replace(s, a, b)
  {
    assert ([e] + s)[1..] == s;
  }

  /** The first occurrence is replaced, and the search goes on behind it. */
  lemma {:induction false} ReplaceFirst(p: string, a: string, x: string, b: string)
    requires a != "" && NoneBefore(p + (a + x), a, |p|)
    ensures Replace(p + (a + x), a, b) == p + (b + Replace(x, a, b))
  {
    var y := a + x;
    if p == "" {
      assert p + y == y && p + (b + Replace(x, a, b)) == b + Replace(x, a, b);
      ReplaceAt(a, b, x);
    } else {
      var e, q := p[0], p[1..];
      assert p + y == [e] + (q + y) && (p + y)[1..] == q + y;
      assert p + (b + Replace(x, a, b)) == [e] + (q + (b + Replace(x, a, b)));
      assert !MatchAt(p + y, a, 0);
      NotAtStart(p + y, a);
      NoneInTail(p + y, a, |p|);
      ReplaceFirst(q, a, x, b);
      ReplaceKept(e, q + y, a, b);
    }
  }

  lemma NotAtStart(s: string, a: string)
    requires !MatchAt(s, a, 0)
    ensures !(a <= s)
  {
    assert |a| <= |s| ==> s[0..0 + |a|] == s[..|a|];
  }

  /** A text without an occurrence stays as it is. */
  lemma {:induction false} ReplaceNone(s: string, a: string, b: string)
    requires a != "" && !Contains(s, a)
    ensures Replace(s, a, b) == s
  {
    if s == "" {
    } else {
      assert NoneBefore(s, a, |s|);
      NotAtStart(s, a);
      NoneInTail(s, a, |s|);
      assert !MatchAt(s[1..], a, |s| - 1);
      ReplaceNone(s[1..], a, b);
    }
  }

  /** Replacing `a` by `b` neither makes nor hides an occurrence of `c`. */
  predicate Apart(a: string, b: string, c: string) {
    && |a| > 1 && |c| > 1 && b != ""
    && Clear(b, c) && Lacks(c, a[0]) && Lacks(c[1..], b[0])
  }

  lemma AppendFacts(b: string, x: string)
    requires b != ""
    ensures (b + x)[0] == b[0] && (b + x)[1..] == b[1..] + x && b + x == [b[0]] + (b[1..] + x)
    ensures |b| > 1 ==> (b + x)[1] == b[1]
  {}

  lemma PrefixFacts(c: string, s: string)
    requires c <= s && c != ""
    ensures s == c + s[|c|..] && s[0] == c[0] && c[1..] <= s[1..]
    ensures |c| > 1 ==> s[1] == c[1]
  {}

  lemma ReplaceAt(c: string, d: string, x: string)
    requires c != ""
    ensures Replace(c + x, c, d) == d + Replace(x, c, d)
  {
    assert (c + x)[|c|..] == x;
  }

  lemma {:induction false} ReplacePasses(b: string, x: string, c: string, d: string)
    requires |c| > 1 && Clear(b, c)
    ensures Replace(b + x, c, d) == b + Replace(x, c, d)
  {
    if b == "" {
      assert b + x == x;
    } else {
      AppendFacts(b, x);
      AppendFacts(b, Replace(x, c, d));
      ReplacePasses(b[1..], x, c, d);
      if c <= b + x {
        PrefixFacts(c, b + x);
        assert false;
      }
    }
  }

  lemma {:induction false} LacksClear(b: string, c: string)
    requires |c| > 1 && Lacks(b, c[0])
    ensures Clear(b, c)
  {
    if b == "" {
    } else {
      LacksClear(b[1..], c);
    }
  }

  lemma ReplaceStart(x: string, a: string, b: string)
    requires a != "" && b != "" && x != ""
    ensures a <= x ==> Replace(x, a, b) != "" && Replace(x, a, b)[0] == b[0]
  {}

  /** What is found after replacing was there before. */
  lemma {:induction false} FoundBefore(u: string, x: string, a: string, b: string)
    requires a != "" && b != "" && Lacks(u, b[0]) && u <= Replace(x, a, b)
    ensures u <= x
    decreases |x|
  {
    if u == "" || x == "" {
    } else {
      PrefixFacts(u, Replace(x, a, b));
      ReplaceStart(x, a, b);
      if !(a <= x) {
        var rest := Replace(x[1..], a, b);
        assert ([x[0]] + rest)[1..] == rest;
        FoundBefore(u[1..], x[1..], a, b);
        assert u == [u[0]] + u[1..] && x == [x[0]] + x[1..];
      }
    }
  }

  lemma FoundAtStart(c: string, s: string, a: string, b: string)
    requires Apart(a, b, c) && s != "" && !(a <= s) && c <= Replace(s, a, b)
    ensures c <= s
  {
    var rest := Replace(s[1..], a, b);
    PrefixFacts(c, Replace(s, a, b));
    assert ([s[0]] + rest)[1..] == rest;
    FoundBefore(c[1..], s[1..], a, b);
    assert c == [c[0]] + c[1..] && s == [s[0]] + s[1..];
  }

  lemma FoundExactly(s: string, a: string, b: string, c: string)
    requires Apart(a, b, c) && s != "" && !(a <= s)
    ensures c <= Replace(s, a, b) <==> c <= s
  {
    if c <= s {
      LacksClear(c, a);
      PrefixFacts(c, s);
      ReplacePasses(c, s[|c|..], a, b);
    }
    if c <= Replace(s, a, b) {
      FoundAtStart(c, s, a, b);
    }
  }

  /** Two passes one after the other do what a single pass does. */
  lemma {:induction false} TwoPasses(s: string, a: string, b: string, c: string, d: string)
    requires Apart(a, b, c)
    ensures Replace(Replace(s, a, b), c, d) == Scan(s, a, b, c, d)
    decreases |s|
  {
    if s == "" {
    } else if a <= s {
      TwoPasses(s[|a|..], a, b, c, d);
      ReplacePasses(b, Replace(s[|a|..], a, b), c, d);
    } else {
      FoundExactly(s, a, b, c);
      if c <= s {
        LacksClear(c, a);
        PrefixFacts(c, s);
        ReplacePasses(c, s[|c|..], a, b);
        ReplaceAt(c, d, Replace(s[|c|..], a, b));
        TwoPasses(s[|c|..], a, b, c, d);
      } else {
        var rest := Replace(s[1..], a, b);
        assert ([s[0]] + rest)[1..] == rest;
        TwoPasses(s[1..], a, b, c, d);
      }
    }
  }

  /* ---------- undoing ---------- */

  /** At no place where the text is kept does what is written there begin with one of the new texts. */
  predicate Faithful(s: string, a: string, b: string, c: string, d: string)
    requires a != "" && c != ""
    decreases |s|
  {
    if s == "" then true
    else if a <= s then Faithful(s[|a|..], a, b, c, d)
    else if c <= s then Faithful(s[|c|..], a, b, c, d)
    else
      && !(b <= Scan(s, a, b, c, d))
      && !(d <= Scan(s, a, b, c, d))
      && Faithful(s[1..], a, b, c, d)
  }

  lemma SameHead(p: string, x: string, y: string)
    ensures p + x == p + y <==> x == y
  {
    assert (p + x)[|p|..] == x && (p + y)[|p|..] == y;
  }

  lemma ScanFirst(b: string, x: string, a: string, d: string, c: string)
    requires b != "" && d != ""
    ensures Scan(b + x, b, a, d, c) == a + Scan(x, b, a, d, c)
  {
    assert (b + x)[|b|..] == x;
  }

  lemma ScanSecond(b: string, x: string, a: string, d: string, c: string)
    requires b != "" && d != "" && b[0] != d[0]
    ensures Scan(d + x, b, a, d, c) == c + Scan(x, b, a, d, c)
  {
    assert (d + x)[|d|..] == x && (d + x)[0] == d[0];
  }

  lemma ScanKept(e: char, x: string, b: string, a: string, d: string, c: string)
    requires b != "" && d != "" && !(b <= [e] + x) && !(d <= [e] + x)
    ensures Scan([e] + x, b, a, d, c) == [e] + Scan(x, b, a, d, c)
  {
    assert ([e] + x)[1..] == x;
  }

  /** The two passes one after the other. */
  function ThereAndBack(s: string, a: string, b: string, c: string, d: string): string
    requires a != "" && b != "" && c != "" && d != ""
  {
    Scan(Scan(s, a, b, c, d), b, a, d, c)
  }

  lemma BackFirst(s: string, a: string, b: string, c: string, d: string)
    requires a != "" && b != "" && c != "" && d != "" && s != "" && a <= s
    ensures ThereAndBack(s, a, b, c, d) == a + ThereAndBack(s[|a|..], a, b, c, d)
    ensures Faithful(s, a, b, c, d) == Faithful(s[|a|..], a, b, c, d)
  {
    ScanFirst(b, Scan(s[|a|..], a, b, c, d), a, d, c);
  }

  lemma BackSecond(s: string, a: string, b: string, c: string, d: string)
    requires a != "" && b != "" && c != "" && d != "" && b[0] != d[0] && s != "" && !(a <= s) && c <= s
    ensures ThereAndBack(s, a, b, c, d) == c + ThereAndBack(s[|c|..], a, b, c, d)
    ensures Faithful(s, a, b, c, d) == Faithful(s[|c|..], a, b, c, d)
  {
    ScanSecond(b, Scan(s[|c|..], a, b, c, d), a, d, c);
  }

  lemma SameBehind(head: string, back: string, s: string)
    requires head <= s
    ensures head + back == s <==> back == s[|head|..]
  {
    SameHead(head, back, s[|head|..]);
    assert s == head + s[|head|..];
  }

  /** The opposite pass restores exactly the faithful texts. */
  lemma {:induction false} UndoneExactly(s: string, a: string, b: string, c: string, d: string)
    requires a != "" && b != "" && c != "" && d != "" && a[0] != b[0] && c[0] != d[0] && b[0] != d[0]
    ensures ThereAndBack(s, a, b, c, d) == s <==> Faithful(s, a, b, c, d)
    decreases |s|
  {
    if s == "" {
    } else if a <= s {
      UndoneExactly(s[|a|..], a, b, c, d);
      BackFirst(s, a, b, c, d);
      SameBehind(a, ThereAndBack(s[|a|..], a, b, c, d), s);
    } else if c <= s {
      UndoneExactly(s[|c|..], a, b, c, d);
      BackSecond(s, a, b, c, d);
      SameBehind(c, ThereAndBack(s[|c|..], a, b, c, d), s);
    } else {
      UndoneExactly(s[1..], a, b, c, d);
      UndoneKept(s, a, b, c, d);
      SameBehind([s[0]], ThereAndBack(s[1..], a, b, c, d), s);
    }
  }

  lemma UndoneKept(s: string, a: string, b: string, c: string, d: string)
    requires a != "" && b != "" && c != "" && d != "" && a[0] != b[0] && c[0] != d[0] && b[0] != d[0]
    requires s != "" && !(a <= s) && !(c <= s)
    ensures var t := Scan(s, a, b, c, d);
            if b <= t || d <= t then Scan(t, b, a, d, c) != s
            else Scan(t, b, a, d, c) == [s[0]] + Scan(Scan(s[1..], a, b, c, d), b, a, d, c)
  {
    var rest := Scan(s[1..], a, b, c, d);
    var t := [s[0]] + rest;
    assert t == Scan(s, a, b, c, d);
    if b <= t || d <= t {
      StartsOtherwise(t, b, a, d, c);
    } else {
      ScanKept(s[0], rest, b, a, d, c);
    }
  }

  lemma StartsOtherwise(t: string, b: string, a: string, d: string, c: string)
    requires a != "" && b != "" && c != "" && d != "" && a[0] != b[0] && c[0] != d[0]
    requires b <= t || d <= t
    ensures Scan(t, b, a, d, c) != "" && Scan(t, b, a, d, c)[0] != t[0]
  {
    if b <= t {
      AppendFacts(a, Scan(t[|b|..], b, a, d, c));
    } else {
      AppendFacts(c, Scan(t[|d|..], b, a, d, c));
    }
  }

  /* ---------- what a pass keeps ---------- */

  lemma HitAfterStart(s: string, i: nat, a: string)
    requires MatchAt(s, a, i) && !(a <= s)
    ensures i > 0 && MatchAt(s[1..], a, i - 1)
  {
    assert |a| <= |s|;
    assert a <= s <==> s[0..|a|] == a;
    assert s[1..][i - 1..i - 1 + |a|] == s[i..i + |a|];
  }

  lemma ContainsAtStart(b: string, rest: string)
    ensures Contains(b + rest, b)
  {
    assert (b + rest)[..|b|] == b;
    assert MatchAt(b + rest, b, 0);
  }

  /** A text with an occurrence of the first pattern comes out with one of its replacement, and longer or shorter
      as the replacements are. */
  lemma {:induction false} ScanHits(s: string, i: nat, a: string, b: string, c: string, d: string)
    requires a != "" && c != "" && Lacks(c, a[0]) && MatchAt(s, a, i)
    ensures Contains(Scan(s, a, b, c, d), b)
    ensures |b| < |a| && |d| <= |c| ==> |Scan(s, a, b, c, d)| < |s|
    ensures |b| > |a| && |d| >= |c| ==> |Scan(s, a, b, c, d)| > |s|
    decreases |s|
  {
    if a <= s {
      ContainsAtStart(b, Scan(s[|a|..], a, b, c, d));
      ScanLength(s[|a|..], a, b, c, d);
    } else if c <= s {
      HitBeyond(s, i, a, c);
      ScanHits(s[|c|..], i - |c|, a, b, c, d);
      ContainsAfter(d, Scan(s[|c|..], a, b, c, d), b);
    } else {
      HitAfterStart(s, i, a);
      ScanHits(s[1..], i - 1, a, b, c, d);
      ContainsAfter([s[0]], Scan(s[1..], a, b, c, d), b);
    }
  }

  lemma HitBeyond(s: string, i: nat, a: string, c: string)
    requires a != "" && c != "" && Lacks(c, a[0]) && MatchAt(s, a, i) && c <= s
    ensures i >= |c| && MatchAt(s[|c|..], a, i - |c|)
  {
    LacksAll(c, a[0]);
    assert s[i] == s[i..i + |a|][0] == a[0];
    assert s[..|c|] == c && forall k :: 0 <= k < |c| ==> s[k] in c;
    assert s[|c|..][i - |c|..i - |c| + |a|] == s[i..i + |a|];
  }

  lemma ContainsAfter(p: string, s: string, b: string)
    requires Contains(s, b)
    ensures Contains(p + s, b)
  {
    var i :| 0 <= i <= |s| && MatchAt(s, b, i);
    assert (p + s)[|p| + i..|p| + i + |b|] == s[i..i + |b|];
    assert MatchAt(p + s, b, |p| + i);
  }

  lemma {:induction false} ScanLength(s: string, a: string, b: string, c: string, d: string)
    requires a != "" && c != ""
    ensures |b| <= |a| && |d| <= |c| ==> |Scan(s, a, b, c, d)| <= |s|
    ensures |b| >= |a| && |d| >= |c| ==> |Scan(s, a, b, c, d)| >= |s|
    decreases |s|
  {
    if s == "" {
    } else if a <= s {
      ScanLength(s[|a|..], a, b, c, d);
    } else if c <= s {
      ScanLength(s[|c|..], a, b, c, d);
    } else {
      ScanLength(s[1..], a, b, c, d);
    }
  }

  /** A character outside the replacements appears only if it was there. */
  lemma {:induction false} ScanLacks(s: string, a: string, b: string, c: string, d: string, x: char)
    requires a != "" && c != "" && x !in s && x !in b && x !in d
    ensures x !in Scan(s, a, b, c, d)
    decreases |s|
  {
    if s == "" {
    } else if a <= s {
      ScanLacks(s[|a|..], a, b, c, d, x);
    } else if c <= s {
      ScanLacks(s[|c|..], a, b, c, d, x);
    } else {
      ScanLacks(s[1..], a, b, c, d, x);
    }
  }

  /** A final character outside the patterns stays where it is. */
  lemma {:induction false} ScanEnd(s: string, x: char, a: string, b: string, c: string, d: string)
    requires a != "" && c != "" && x !in a && x !in c
    ensures Scan(s + [x], a, b, c, d) == Scan(s, a, b, c, d) + [x]
    decreases |s|
  {
    var t := s + [x];
    PrefixBeforeEnd(s, x, a);
    PrefixBeforeEnd(s, x, c);
    if s == "" {
      assert t == [x] && t[1..] == "";
    } else if a <= s {
      assert t[|a|..] == s[|a|..] + [x];
      ScanEnd(s[|a|..], x, a, b, c, d);
    } else if c <= s {
      assert t[|c|..] == s[|c|..] + [x];
      ScanEnd(s[|c|..], x, a, b, c, d);
    } else {
      assert t[1..] == s[1..] + [x] && t[0] == s[0];
      ScanEnd(s[1..], x, a, b, c, d);
    }
  }

  lemma PrefixBeforeEnd(s: string, x: char, a: string)
    requires x !in a
    ensures a <= s + [x] <==> a <= s
  {
    assert a != "" ==> a[|a| - 1] in a;
    assert (s + [x])[|s|] == x;
  }

  /* ---------- what begins a rewritten text ---------- */

  lemma ScanStart(x: string, a: string, b: string, c: string, d: string)
    requires a != "" && b != "" && c != "" && d != "" && x != ""
    ensures a <= x ==> b <= Scan(x, a, b, c, d)
    ensures !(a <= x) && c <= x ==> d <= Scan(x, a, b, c, d)
  {}

  lemma ClashingStart(u: string, b: string, x: string)
    requires |b| > 1 && u != "" && Clear(u, b)
    ensures !(b <= x && u <= x)
  {}

  /** A text that neither replacement can begin in is found after rewriting only if it was there before. */
  lemma {:induction false} ScannedBefore(u: string, x: string, a: string, b: string, c: string, d: string)
    requires a != "" && c != "" && |b| > 1 && |d| > 1 && Clear(u, b) && Clear(u, d)
    requires u <= Scan(x, a, b, c, d)
    ensures u <= x
    decreases |x|
  {
    if u == "" || x == "" {
    } else {
      ScanStart(x, a, b, c, d);
      ClashingStart(u, b, Scan(x, a, b, c, d));
      ClashingStart(u, d, Scan(x, a, b, c, d));
      var rest := Scan(x[1..], a, b, c, d);
      assert ([x[0]] + rest)[1..] == rest;
      PrefixFacts(u, [x[0]] + rest);
      ScannedBefore(u[1..], x[1..], a, b, c, d);
      assert u == [u[0]] + u[1..] && x == [x[0]] + x[1..];
    }
  }

  /** A text in which no pattern can begin is kept. */
  lemma {:induction false} ScanPasses(p: string, x: string, a: string, b: string, c: string, d: string)
    requires |a| > 1 && |c| > 1 && Clear(p, a) && Clear(p, c)
    ensures Scan(p + x, a, b, c, d) == p + Scan(x, a, b, c, d)
  {
    if p == "" {
      assert p + x == x;
    } else {
      AppendFacts(p, x);
      AppendFacts(p, Scan(x, a, b, c, d));
      ScanPasses(p[1..], x, a, b, c, d);
      ClashingStart(p, a, p + x);
      ClashingStart(p, c, p + x);
    }
  }
}
