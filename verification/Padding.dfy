/** White space around a line, spelled out byte by byte. */
module Padding {
  import opened Sequences
  import opened Strings
  import opened Whitespace

  /** A white space rune in UTF-8: the six of one byte, the two of two bytes and the nineteen of three bytes. */
  ghost predicate SpaceRune(r: string) {
    || (|r| == 1 && r[0] in "\t\n\U{0B}\U{0C}\r ")
    || (|r| == 2 && r[0] == '\U{C2}' && r[1] in "\U{85}\U{A0}")
    || (|r| == 3 && (
          || (r[0] == '\U{E1}' && r[1] == '\U{9A}' && r[2] == '\U{80}')
          || (r[0] == '\U{E2}' && r[1] == '\U{80}' && r[2] in
              "\U{80}\U{81}\U{82}\U{83}\U{84}\U{85}\U{86}\U{87}\U{88}\U{89}\U{8A}\U{A8}\U{A9}\U{AF}")
          || (r[0] == '\U{E2}' && r[1] == '\U{81}' && r[2] == '\U{9F}')
          || (r[0] == '\U{E3}' && r[1] == '\U{80}' && r[2] == '\U{80}')))
  }

  ghost predicate AllSpace(runes: seq<string>) {
    forall k :: 0 <= k < |runes| ==> SpaceRune(runes[k])
  }

  lemma SpaceRuneExactly(r: string)
    ensures SpaceRune(r) <==>
            || (|r| == 1 && IsSpace1(r[0])) || (|r| == 2 && IsSpace2(r[0], r[1]))
            || (|r| == 3 && IsSpace3(r[0], r[1], r[2]))
  {}

  lemma LeadSpaceOf(r: string, x: string)
    requires SpaceRune(r)
    ensures LeadSpace(r + x) == |r|
  {
    SpaceRuneExactly(r);
    assert forall k :: 0 <= k < |r| ==> (r + x)[k] == r[k];
  }

  lemma TailSpaceOf(x: string, r: string)
    requires SpaceRune(r)
    ensures TailSpace(x + r) == |r|
  {
    SpaceRuneExactly(r);
    assert forall k :: 0 <= k < |r| ==> (x + r)[|x| + k] == r[k];
  }

  lemma LeadSpaceIsRune(s: string)
    ensures LeadSpace(s) > 0 ==> SpaceRune(s[..LeadSpace(s)])
  {
    SpaceRuneExactly(s[..LeadSpace(s)]);
  }

  lemma TailSpaceIsRune(s: string)
    ensures TailSpace(s) > 0 ==> SpaceRune(s[|s| - TailSpace(s)..])
  {
    SpaceRuneExactly(s[|s| - TailSpace(s)..]);
  }

  /** The text neither starts nor ends with white space. */
  ghost predicate Bare(s: string) {
    forall r :: SpaceRune(r) ==> !(r <= s) && !HasSuffix(s, r)
  }

  lemma BareExactly(s: string)
    ensures Bare(s) <==> LeadSpace(s) == 0 && TailSpace(s) == 0
  {
    LeadSpaceIsRune(s);
    TailSpaceIsRune(s);
    assert s[..LeadSpace(s)] <= s;
    assert HasSuffix(s, s[|s| - TailSpace(s)..]);
    forall r | SpaceRune(r) ensures r <= s ==> LeadSpace(s) == |r| > 0 {
      if r <= s {
        LeadSpaceOf(r, s[|r|..]);
        assert s == r + s[|r|..];
      }
    }
    forall r | SpaceRune(r) ensures HasSuffix(s, r) ==> TailSpace(s) == |r| > 0 {
      if HasSuffix(s, r) {
        TailSpaceOf(s[..|s| - |r|], r);
        assert s == s[..|s| - |r|] + r;
      }
    }
  }

  /* ---------- what trimming takes off ---------- */

  lemma TrimLeftRune(r: string, x: string)
    requires SpaceRune(r)
    ensures TrimLeft(r + x) == TrimLeft(x)
  {
    LeadSpaceOf(r, x);
    assert (r + x)[|r|..] == x;
  }

  lemma TrimRightRune(x: string, r: string)
    requires SpaceRune(r)
    ensures TrimRight(x + r) == TrimRight(x)
  {
    TailSpaceOf(x, r);
    assert (x + r)[..|x + r| - |r|] == x;
  }

  lemma {:induction false} TrimLeftPadding(runes: seq<string>, x: string)
    requires AllSpace(runes)
    ensures TrimLeft(Flatten(runes) + x) == TrimLeft(x)
  {
    if runes == [] {
      assert Flatten(runes) + x == x;
    } else {
      Assoc(runes[0], Flatten(runes[1..]), x);
      TrimLeftRune(runes[0], Flatten(runes[1..]) + x);
      TrimLeftPadding(runes[1..], x);
    }
  }

  lemma {:induction false} FlattenLast(runes: seq<string>, last: string)
    ensures Flatten(runes + [last]) == Flatten(runes) + last
  {
    if runes == [] {
      assert [] + [last] == [last] && [last][1..] == [];
    } else {
      assert (runes + [last])[1..] == runes[1..] + [last];
      FlattenLast(runes[1..], last);
    }
  }

  lemma {:induction false} FlattenConcat(a: seq<string>, b: seq<string>)
    ensures Flatten(a + b) == Flatten(a) + Flatten(b)
  {
    if a == [] {
      assert a + b == b;
    } else {
      assert (a + b)[1..] == a[1..] + b;
      FlattenConcat(a[1..], b);
    }
  }

  lemma {:induction false} TrimRightPadding(x: string, runes: seq<string>)
    requires AllSpace(runes)
    ensures TrimRight(x + Flatten(runes)) == TrimRight(x)
  {
    if runes == [] {
      assert x + Flatten(runes) == x;
    } else {
      var front, last := runes[..|runes| - 1], runes[|runes| - 1];
      assert runes == front + [last];
      FlattenLast(front, last);
      Assoc(x, Flatten(front), last);
      TrimRightRune(x + Flatten(front), last);
      TrimRightPadding(x, front);
    }
  }

  /** White space behind a text does not complete a rune at its end. */
  lemma NoRuneAcross(core: string, runes: seq<string>)
    requires core != "" && LeadSpace(core) == 0 && AllSpace(runes)
    ensures LeadSpace(core + Flatten(runes)) == 0
  {
    if runes == [] {
      assert core + Flatten(runes) == core;
    } else {
      SpaceRuneExactly(runes[0]);
      assert Flatten(runes)[0] == runes[0][0];
      assert forall k :: 0 <= k < |core| ==> (core + Flatten(runes))[k] == core[k];
      assert (core + Flatten(runes))[|core|] == runes[0][0];
    }
  }

  lemma TrimLeftOfBare(s: string)
    requires LeadSpace(s) == 0
    ensures TrimLeft(s) == s
  {}

  /** Main result: whatever white space is put around it, a text without white space at its ends is what trimming
      leaves. */
  lemma TrimOfPadded(a: seq<string>, core: string, b: seq<string>)
    requires AllSpace(a) && Bare(core) && AllSpace(b)
    ensures Trim(Flatten(a) + (core + Flatten(b))) == core
  {
    BareExactly(core);
    TrimLeftPadding(a, core + Flatten(b));
    if core == "" {
      TrimLeftPadding(b, "");
      assert core + Flatten(b) == Flatten(b) + "";
    } else {
      NoRuneAcross(core, b);
      TrimLeftOfBare(core + Flatten(b));
      TrimRightPadding(core, b);
    }
  }

  lemma OneMoreLead(r: string, others: seq<string>, rest: string, kept: string)
    requires SpaceRune(r) && AllSpace(others) && rest == Flatten(others) + kept
    ensures AllSpace([r] + others) && r + rest == Flatten([r] + others) + kept
  {
    assert ([r] + others)[1..] == others;
    Assoc(r, Flatten(others), kept);
  }

  lemma OneMoreTail(r: string, others: seq<string>, rest: string, kept: string)
    requires SpaceRune(r) && AllSpace(others) && rest == kept + Flatten(others)
    ensures AllSpace(others + [r]) && rest + r == kept + Flatten(others + [r])
  {
    FlattenLast(others, r);
    Assoc(kept, Flatten(others), r);
  }

  /** These runes are what trimming takes off at the start. */
  ghost predicate Lead(s: string, runes: seq<string>) {
    AllSpace(runes) && s == Flatten(runes) + TrimLeft(s)
  }

  ghost predicate Tail(s: string, runes: seq<string>) {
    AllSpace(runes) && s == TrimRight(s) + Flatten(runes)
  }

  lemma LeadStep(s: string, r: string, rest: string, others: seq<string>)
    requires SpaceRune(r) && s == r + rest && Lead(rest, others)
    ensures Lead(s, [r] + others)
  {
    TrimLeftRune(r, rest);
    OneMoreLead(r, others, rest, TrimLeft(rest));
  }

  lemma TailStep(s: string, kept: string, r: string, others: seq<string>)
    requires SpaceRune(r) && s == kept + r && Tail(kept, others)
    ensures Tail(s, others + [r])
  {
    TrimRightRune(kept, r);
    OneMoreTail(r, others, kept, TrimRight(kept));
  }

  lemma NoLead(s: string)
    requires LeadSpace(s) == 0
    ensures Lead(s, [])
  {}

  lemma NoTail(s: string)
    requires TailSpace(s) == 0
    ensures Tail(s, [])
  {}

  lemma {:induction false} TrimLeftTakesSpace(s: string) returns (runes: seq<string>)
    ensures Lead(s, runes)
    decreases |s|
  {
    var n := LeadSpace(s);
    if n == 0 {
      NoLead(s);
      runes := [];
    } else {
      var others := TrimLeftTakesSpace(s[n..]);
      LeadSpaceIsRune(s);
      assert s == s[..n] + s[n..];
      LeadStep(s, s[..n], s[n..], others);
      runes := [s[..n]] + others;
    }
  }

  lemma {:induction false} TrimRightTakesSpace(s: string) returns (runes: seq<string>)
    ensures Tail(s, runes)
    decreases |s|
  {
    var n := TailSpace(s);
    if n == 0 {
      NoTail(s);
      runes := [];
    } else {
      var k := |s| - n;
      var others := TrimRightTakesSpace(s[..k]);
      TailSpaceIsRune(s);
      assert s == s[..k] + s[k..];
      TailStep(s, s[..k], s[k..], others);
      runes := others + [s[k..]];
    }
  }

  lemma {:induction false} NoLeadLeft(s: string)
    ensures LeadSpace(TrimLeft(s)) == 0
    decreases |s|
  {
    if LeadSpace(s) == 0 {
    } else {
      NoLeadLeft(s[LeadSpace(s)..]);
    }
  }

  lemma {:induction false} NoTailLeft(s: string)
    ensures TailSpace(TrimRight(s)) == 0
    decreases |s|
  {
    if TailSpace(s) == 0 {
    } else {
      NoTailLeft(s[..|s| - TailSpace(s)]);
    }
  }

  lemma LeadKept(t: string, s: string)
    requires t <= s && LeadSpace(s) == 0
    ensures LeadSpace(t) == 0
  {
    assert forall k :: 0 <= k < |t| ==> t[k] == s[k];
  }

  /** And every text is such a one in white space: there is nothing else that trimming takes off. */
  lemma TrimTakesSpace(s: string) returns (a: seq<string>, b: seq<string>)
    ensures AllSpace(a) && AllSpace(b) && Bare(Trim(s)) && s == Flatten(a) + (Trim(s) + Flatten(b))
  {
    a := TrimLeftTakesSpace(s);
    b := TrimRightTakesSpace(TrimLeft(s));
    NoLeadLeft(s);
    NoTailLeft(TrimLeft(s));
    TrimRightDrops(TrimLeft(s));
    LeadKept(Trim(s), TrimLeft(s));
    BareExactly(Trim(s));
  }

  /** White space around a line changes nothing that trimming leaves. */
  lemma TrimIgnoresPadding(a: seq<string>, line: string, b: seq<string>)
    requires AllSpace(a) && AllSpace(b)
    ensures Trim(Flatten(a) + (line + Flatten(b))) == Trim(line)
  {
    var c, d := TrimTakesSpace(line);
    var core := Trim(line);
    FlattenConcat(a, c);
    FlattenConcat(d, b);
    Regroup(Flatten(a), Flatten(c), core, Flatten(d), Flatten(b));
    TrimOfPadded(a + c, core, d + b);
  }

  lemma Regroup(a: string, c: string, core: string, d: string, b: string)
    ensures a + ((c + (core + d)) + b) == (a + c) + (core + (d + b))
  {}
}
