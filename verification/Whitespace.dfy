/** Trimming of surrounding white space, byte by byte as `bytes.TrimSpace` does it:
    a white space rune is one of the UTF-8 encodings below, and an incomplete or invalid one stays. */
module Whitespace {
  import opened Strings

  /** The one-byte white space runes: tab to carriage return, and space. */
  predicate IsSpace1(a: char) {
    '\t' <= a <= '\r' || a == ' '
  }

  /** U+0085 and U+00A0. */
  predicate IsSpace2(a: char, b: char) {
    a == '\U{C2}' && (b == '\U{85}' || b == '\U{A0}')
  }

  /** U+1680, U+2000 to U+200A, U+2028, U+2029, U+202F, U+205F and U+3000. */
  predicate IsSpace3(a: char, b: char, c: char) {
    || (a == '\U{E1}' && b == '\U{9A}' && c == '\U{80}')
    || (a == '\U{E2}' && b == '\U{80}'
        && ('\U{80}' <= c <= '\U{8A}' || c == '\U{A8}' || c == '\U{A9}' || c == '\U{AF}'))
    || (a == '\U{E2}' && b == '\U{81}' && c == '\U{9F}')
    || (a == '\U{E3}' && b == '\U{80}' && c == '\U{80}')
  }

  /** Number of bytes of the white space rune at the start; 0 if there is none. */
  function LeadSpace(s: string): (n: nat)
    ensures n <= |s|
    ensures ':' !in s[..n]
  {
    if |s| >= 1 && IsSpace1(s[0]) then 1
    else if |s| >= 2 && IsSpace2(s[0], s[1]) then 2
    else if |s| >= 3 && IsSpace3(s[0], s[1], s[2]) then 3
    else 0
  }

  function TailSpace(s: string): (n: nat)
    ensures n <= |s|
    ensures forall j :: |s| - n <= j < |s| ==> s[j] != ':'
  {
    var e := |s|;
    if e >= 1 && IsSpace1(s[e - 1]) then 1
    else if e >= 2 && IsSpace2(s[e - 2], s[e - 1]) then 2
    else if e >= 3 && IsSpace3(s[e - 3], s[e - 2], s[e - 1]) then 3
    else 0
  }

  function TrimLeft(s: string): string
    decreases |s|
  {
    var n := LeadSpace(s);
    if n == 0 then s else TrimLeft(s[n..])
  }

  function TrimRight(s: string): string
    decreases |s|
  {
    var n := TailSpace(s);
    if n == 0 then s else TrimRight(s[..|s| - n])
  }

  function Trim(s: string): string {
    TrimRight(TrimLeft(s))
  }

  /** What is trimmed on the right holds no colon. */
  lemma {:induction false} TrimRightDrops(s: string)
    ensures TrimRight(s) <= s
    ensures forall j :: |TrimRight(s)| <= j < |s| ==> s[j] != ':'
    decreases |s|
  {
    var n := TailSpace(s);
    if n == 0 {
    } else {
      var kept := s[..|s| - n];
      TrimRightDrops(kept);
      assert forall j :: 0 <= j < |kept| ==> kept[j] == s[j];
    }
  }

  /** Trimming on the left stops before the first colon, so text after it cannot matter. */
  lemma {:induction false} TrimLeftAppend(s: string, t: string)
    requires Count(s, ':') >= 1
    ensures TrimLeft(s + t) == TrimLeft(s) + t
    ensures Count(TrimLeft(s), ':') == Count(s, ':')
    decreases |s|
  {
    CountZero(s, ':');
    var k := IndexOf(s, ':');
    assert (s + t)[k] == ':';
    var n := LeadSpace(s);
    assert LeadSpace(s + t) == n;
    if n == 0 {
    } else {
      CountZero(s[..n], ':');
      CountConcat(s[..n], s[n..], ':');
      assert s == s[..n] + s[n..];
      DropAppend(s, t, n);
      TrimLeftAppend(s[n..], t);
    }
  }

  /** Trimming keeps the closed fields, apart from the white space in front of the first. */
  lemma TrimField(s: string, i: nat)
    requires Count(s, ':') >= 1
    ensures Count(Trim(s), ':') == Count(TrimLeft(s), ':') == Count(s, ':')
    ensures i < Count(s, ':') ==> Field(Trim(s), ':', i) == Field(TrimLeft(s), ':', i)
  {
    TrimLeftAppend(s, "");
    TrimRightDrops(TrimLeft(s));
    FieldPrefix(Trim(s), TrimLeft(s), ':', i);
  }

  lemma TrimFirstByte(s: string)
    requires Count(s, ':') >= 1
    ensures |Trim(s)| > 0 && |TrimLeft(s)| > 0 && Trim(s)[0] == TrimLeft(s)[0]
  {
    TrimField(s, 0);
    CountZero(Trim(s), ':');
    TrimRightDrops(TrimLeft(s));
  }

  /** Prefix stability: once a line holds a colon, any continuation of it has the same first byte
      and the same closed fields after trimming. */
  lemma TrimStable(p: string, t: string)
    requires Count(p, ':') >= 1
    ensures Count(Trim(p), ':') == Count(p, ':') <= Count(Trim(p + t), ':')
    ensures forall i :: 0 <= i < Count(p, ':') ==> Field(Trim(p + t), ':', i) == Field(Trim(p), ':', i)
    ensures |Trim(p)| > 0 && |Trim(p + t)| > 0 && Trim(p + t)[0] == Trim(p)[0]
  {
    CountConcat(p, t, ':');
    TrimLeftAppend(p, t);
    TrimField(p, 0);
    TrimField(p + t, 0);
    TrimFirstByte(p);
    TrimFirstByte(p + t);
    forall i | 0 <= i < Count(p, ':') ensures Field(Trim(p + t), ':', i) == Field(Trim(p), ':', i) {
      TrimField(p, i);
      TrimField(p + t, i);
      FieldAppend(TrimLeft(p), t, ':', i);
    }
  }

  /** Trimming adds no colon. */
  lemma {:induction false} TrimKeepsFew(s: string, n: nat)
    requires Count(s, ':') < n
    ensures Count(Trim(s), ':') < n
  {
    if Count(s, ':') >= 1 {
      TrimField(s, 0);
    } else {
      TrimLeftDrops(s);
      TrimRightDrops(TrimLeft(s));
      CountZero(s, ':');
      CountZero(Trim(s), ':');
    }
  }

  lemma {:induction false} TrimLeftDrops(s: string)
    ensures |TrimLeft(s)| <= |s| && TrimLeft(s) == s[|s| - |TrimLeft(s)|..]
    decreases |s|
  {
    var n := LeadSpace(s);
    if n == 0 {
    } else {
      TrimLeftDrops(s[n..]);
    }
  }
}
