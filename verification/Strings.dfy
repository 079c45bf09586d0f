/** Byte strings and the library operations on them that the scanner relies on.
    A byte string is a `string` with one `char` per byte, so nothing here decodes text. */
module Strings {
  import opened Sequences

  lemma DropAppend(s: string, t: string, n: nat)
    requires n <= |s|
    ensures (s + t)[n..] == s[n..] + t
  {}

  /* ---------- searching ---------- */

  predicate MatchAt(s: string, sub: string, i: int) {
    0 <= i && i + |sub| <= |s| && s[i..i + |sub|] == sub
  }

  predicate Contains(s: string, sub: string) {
    exists i | 0 <= i <= |s| :: MatchAt(s, sub, i)
  }

  lemma ContainsMiddle(pre: string, sub: string, post: string)
    ensures Contains(pre + sub + post, sub)
  {
    assert MatchAt(pre + sub + post, sub, |pre|);
  }

  predicate HasSuffix(s: string, suffix: string) {
    |suffix| <= |s| && s[|s| - |suffix|..] == suffix
  }

  function Count(s: string, c: char): nat {
    if s == "" then 0 else (if s[0] == c then 1 else 0) + Count(s[1..], c)
  }

  lemma {:induction false} CountConcat(a: string, b: string, c: char)
    ensures Count(a + b, c) == Count(a, c) + Count(b, c)
  {
    if a == "" {
      assert a + b == b;
    } else {
      assert (a + b)[1..] == a[1..] + b;
      CountConcat(a[1..], b, c);
    }
  }

  lemma {:induction false} CountZero(s: string, c: char)
    ensures Count(s, c) == 0 <==> c !in s
  {
    if s == "" {
    } else {
      CountZero(s[1..], c);
      assert s == [s[0]] + s[1..];
    }
  }

  /** Position of the first `c`. */
  function IndexOf(s: string, c: char): (i: nat)
    requires c in s
    ensures i < |s| && s[i] == c && c !in s[..i]
  {
    if s[0] == c then 0
    else
      assert s == [s[0]] + s[1..];
      var j := IndexOf(s[1..], c);
      assert s[..j + 1] == [s[0]] + s[1..][..j];
      j + 1
  }

  /** What stands before, and after, the first `c`. */
  function Head(s: string, c: char): (h: string)
    requires c in s
    ensures c !in h
  {
    s[..IndexOf(s, c)]
  }

  function Tail(s: string, c: char): (t: string)
    requires c in s
    ensures |t| < |s|
  {
    s[IndexOf(s, c) + 1..]
  }

  lemma HeadTail(s: string, c: char)
    requires c in s
    ensures s == Head(s, c) + ([c] + Tail(s, c))
  {}

  /** There is only one way to cut a string at its first `c`. */
  lemma HeadTailUnique(a: string, c: char, b: string)
    requires c !in a
    ensures c in a + ([c] + b)
    ensures Head(a + ([c] + b), c) == a && Tail(a + ([c] + b), c) == b
  {
    var s := a + ([c] + b);
    assert s[|a|] == c;
    assert forall k :: 0 <= k < |a| ==> s[k] == a[k];
    assert forall n :: |a| < n <= |s| ==> s[..n][|a|] == c;
    assert IndexOf(s, c) == |a|;
    assert s[..|a|] == a && s[|a| + 1..] == b;
  }

  /** Cutting at the first separator uses up exactly one of them. */
  lemma CountTail(s: string, c: char)
    requires c in s
    ensures Count(Tail(s, c), c) == Count(s, c) - 1
  {
    HeadTail(s, c);
    CountConcat(Head(s, c), [c] + Tail(s, c), c);
    CountConcat([c], Tail(s, c), c);
    CountZero(Head(s, c), c);
  }

  /* ---------- splitting ---------- */

  function Join(parts: seq<string>, sep: string): string {
    if |parts| == 0 then ""
    else if |parts| == 1 then parts[0]
    else parts[0] + (sep + Join(parts[1..], sep))
  }

  lemma JoinCons(first: string, others: seq<string>, sep: string)
    requires others != []
    ensures Join([first] + others, sep) == first + (sep + Join(others, sep))
  {
    assert ([first] + others)[1..] == others;
  }

  function Split(s: string, c: char): (parts: seq<string>)
    ensures |parts| >= 1
    decreases |s|
  {
    if c !in s then [s] else [Head(s, c)] + Split(Tail(s, c), c)
  }

  /** At most `n` parts; the last one keeps whatever is left. */
  function SplitN(s: string, c: char, n: nat): (parts: seq<string>)
    requires n >= 1
    ensures 1 <= |parts| <= n
    decreases |s|
  {
    if n == 1 || c !in s then [s] else [Head(s, c)] + SplitN(Tail(s, c), c, n - 1)
  }

  /** The pieces are c-free and their join is the input. */
  lemma {:induction false} SplitJoin(s: string, c: char)
    ensures Join(Split(s, c), [c]) == s
    ensures forall k :: 0 <= k < |Split(s, c)| ==> c !in Split(s, c)[k]
    decreases |s|
  {
    if c !in s {
    } else {
      SplitJoin(Tail(s, c), c);
      JoinCons(Head(s, c), Split(Tail(s, c), c), [c]);
      HeadTail(s, c);
    }
  }

  lemma SplitCons(first: string, c: char, rest: string)
    requires c !in first
    ensures Split(first + ([c] + rest), c) == [first] + Split(rest, c)
  {
    HeadTailUnique(first, c, rest);
  }

  lemma SplitNCons(first: string, c: char, rest: string, n: nat)
    requires n >= 2 && c !in first
    ensures SplitN(first + ([c] + rest), c, n) == [first] + SplitN(rest, c, n - 1)
  {
    HeadTailUnique(first, c, rest);
  }

  /** And they are the only such pieces. */
  lemma {:induction false} JoinSplit(parts: seq<string>, c: char)
    requires |parts| >= 1
    requires forall k :: 0 <= k < |parts| ==> c !in parts[k]
    ensures Split(Join(parts, [c]), c) == parts
  {
    if |parts| == 1 {
    } else {
      var first, others := parts[0], parts[1..];
      assert parts == [first] + others && c !in first;
      forall k | 0 <= k < |others| ensures c !in others[k] {
        assert others[k] == parts[k + 1];
      }
      JoinSplit(others, c);
      JoinCons(first, others, [c]);
      SplitCons(first, c, Join(others, [c]));
    }
  }

  /** Parts of which all but the last are c-free are found again by bounded splitting. */
  lemma {:induction false} SplitNOfJoin(parts: seq<string>, c: char)
    requires |parts| >= 1
    requires forall k :: 0 <= k < |parts| - 1 ==> c !in parts[k]
    ensures SplitN(Join(parts, [c]), c, |parts|) == parts
  {
    if |parts| == 1 {
    } else {
      var first, others := parts[0], parts[1..];
      assert parts == [first] + others && c !in first;
      forall k | 0 <= k < |others| - 1 ensures c !in others[k] {
        assert others[k] == parts[k + 1];
      }
      SplitNOfJoin(others, c);
      JoinCons(first, others, [c]);
      SplitNCons(first, c, Join(others, [c]), |parts|);
    }
  }

  /* ---------- closed fields ---------- */

  /** Field `i` of a line whose first `i + 1` fields are each closed by a separator. */
  function Field(s: string, c: char, i: nat): (f: string)
    requires i < Count(s, c)
    decreases i
  {
    CountZero(s, c);
    if i == 0 then Head(s, c)
    else
      CountTail(s, c);
      Field(Tail(s, c), c, i - 1)
  }

  lemma FieldStep(s: string, c: char, i: nat)
    requires i < Count(s, c)
    ensures c in s && Count(Tail(s, c), c) == Count(s, c) - 1
    ensures Field(s, c, i) == if i == 0 then Head(s, c) else Field(Tail(s, c), c, i - 1)
  {
    CountZero(s, c);
    CountTail(s, c);
  }

  /** A closed field does not change when text is appended. */
  lemma {:induction false} FieldAppend(s: string, t: string, c: char, i: nat)
    requires i < Count(s, c)
    ensures i < Count(s + t, c)
    ensures Field(s + t, c, i) == Field(s, c, i)
    decreases i
  {
    CountConcat(s, t, c);
    FieldStep(s, c, i);
    FieldStep(s + t, c, i);
    TailAppend(s, t, c);
    if i == 0 {
    } else {
      FieldAppend(Tail(s, c), t, c, i - 1);
    }
  }

  /** Nor does it when text without separators is cut off at the end. */
  lemma FieldPrefix(u: string, s: string, c: char, i: nat)
    requires u <= s && (forall j :: |u| <= j < |s| ==> s[j] != c)
    ensures Count(u, c) == Count(s, c)
    ensures i < Count(s, c) ==> Field(u, c, i) == Field(s, c, i)
  {
    var gone := s[|u|..];
    assert s == u + gone;
    CountConcat(u, gone, c);
    CountZero(gone, c);
    if i < Count(s, c) {
      FieldAppend(u, gone, c, i);
    }
  }

  lemma TailAppend(s: string, t: string, c: char)
    requires c in s
    ensures c in s + t && Head(s + t, c) == Head(s, c) && Tail(s + t, c) == Tail(s, c) + t
  {
    var h, u := Head(s, c), Tail(s, c);
    HeadTail(s, c);
    Assoc(h, [c] + u, t);
    Assoc([c], u, t);
    HeadTailUnique(h, c, u + t);
  }

  lemma {:induction false} SplitNCount(s: string, c: char, n: nat)
    requires n >= 1
    ensures |SplitN(s, c, n)| == (if Count(s, c) + 1 <= n then Count(s, c) + 1 else n)
    decreases |s|
  {
    if n == 1 {
    } else if c !in s {
      CountZero(s, c);
    } else {
      var t := Tail(s, c);
      CountTail(s, c);
      SplitNCount(t, c, n - 1);
      assert |SplitN(s, c, n)| == 1 + |SplitN(t, c, n - 1)|;
    }
  }

  lemma SplitNStep(s: string, c: char, n: nat)
    requires n >= 1 && |SplitN(s, c, n)| > 1
    ensures n > 1 && c in s && |SplitN(s, c, n)| == 1 + |SplitN(Tail(s, c), c, n - 1)|
    ensures SplitN(s, c, n)[0] == Head(s, c)
    ensures forall i :: 0 < i < |SplitN(s, c, n)| ==> SplitN(s, c, n)[i] == SplitN(Tail(s, c), c, n - 1)[i - 1]
  {}

  lemma {:induction false} SplitNField(s: string, c: char, n: nat, i: nat)
    requires n >= 1 && i < |SplitN(s, c, n)| - 1
    ensures i < Count(s, c) && SplitN(s, c, n)[i] == Field(s, c, i)
    decreases i
  {
    SplitNCount(s, c, n);
    SplitNStep(s, c, n);
    FieldStep(s, c, i);
    if i == 0 {
    } else {
      SplitNField(Tail(s, c), c, n - 1, i - 1);
    }
  }

  /** With enough separators, bounded splitting yields the closed fields. */
  lemma SplitNFields(s: string, c: char, n: nat)
    requires n >= 1
    ensures |SplitN(s, c, n)| == (if Count(s, c) + 1 <= n then Count(s, c) + 1 else n)
    ensures forall i :: 0 <= i < |SplitN(s, c, n)| - 1 ==>
              i < Count(s, c) && SplitN(s, c, n)[i] == Field(s, c, i)
  {
    SplitNCount(s, c, n);
    forall i | 0 <= i < |SplitN(s, c, n)| - 1 ensures i < Count(s, c) && SplitN(s, c, n)[i] == Field(s, c, i) {
      SplitNField(s, c, n, i);
    }
  }

  /** A field with the separators around it; the first field has none in front. */
  function Enclosed(f: string, c: char, first: bool): string {
    if first then f + [c] else [c] + (f + [c])
  }

  /** `f` stands at position `p`, after a separator unless it is first, and before one. */
  ghost predicate Spans(s: string, c: char, f: string, p: nat, first: bool) {
    && p + |f| < |s| && s[p..p + |f|] == f && s[p + |f|] == c
    && if first then p == 0 else p > 0 && s[p - 1] == c
  }

  /** A closed field stands between two separators. */
  lemma {:induction false} FieldSpan(s: string, c: char, i: nat) returns (p: nat)
    requires i < Count(s, c)
    ensures Spans(s, c, Field(s, c, i), p, i == 0)
    decreases i
  {
    FieldStep(s, c, i);
    if i == 0 {
      p := 0;
    } else {
      var q := FieldSpan(Tail(s, c), c, i - 1);
      p := SpanAfterHead(s, c, Field(Tail(s, c), c, i - 1), q, i == 1);
    }
  }

  lemma SpanAfterHead(s: string, c: char, f: string, q: nat, first: bool) returns (p: nat)
    requires c in s && Spans(Tail(s, c), c, f, q, first)
    ensures Spans(s, c, f, p, false)
  {
    var k := IndexOf(s, c);
    p := k + 1 + q;
    SliceOfDrop(s, k + 1, q, |f|);
  }

  lemma SliceOfDrop(s: string, n: nat, from: nat, length: nat)
    requires n + from + length <= |s|
    ensures s[n..][from..from + length] == s[n + from..n + from + length]
  {}

  lemma SpanOccurs(s: string, c: char, f: string, p: nat, first: bool)
    requires Spans(s, c, f, p, first)
    ensures Contains(s, Enclosed(f, c, first))
  {
    var e := p + |f|;
    if first {
      assert s[p..e + 1] == s[p..e] + [s[e]];
      assert MatchAt(s, f + [c], p);
    } else {
      assert s[p - 1..e + 1] == [s[p - 1]] + (s[p..e] + [s[e]]);
      assert MatchAt(s, [c] + (f + [c]), p - 1);
    }
  }

  lemma FieldOccurs(s: string, c: char, i: nat)
    requires i < Count(s, c)
    ensures Contains(s, Enclosed(Field(s, c, i), c, i == 0))
  {
    var p := FieldSpan(s, c, i);
    SpanOccurs(s, c, Field(s, c, i), p, i == 0);
  }
}
