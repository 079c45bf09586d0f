/** For which files the chunked scan is right whatever the matcher: a condition on the file alone. */
module ColonExact {
  import opened Wrappers
  import opened Strings
  import opened Whitespace
  import opened ColonFile
  import opened ColonScan

  /** The text up to and including the `n`-th colon. */
  function Closed(s: string, n: nat): string
    requires Count(s, ':') >= n
  {
    if n == 0 then "" else [s[0]] + Closed(s[1..], if s[0] == ':' then n - 1 else n)
  }

  lemma {:induction false} ClosedIsPrefix(s: string, n: nat)
    requires Count(s, ':') >= n
    ensures Closed(s, n) <= s && Count(Closed(s, n), ':') == n
  {
    if n == 0 {
    } else {
      var c := Closed(s[1..], if s[0] == ':' then n - 1 else n);
      ClosedIsPrefix(s[1..], if s[0] == ':' then n - 1 else n);
      assert ([s[0]] + c)[1..] == c;
      assert s == [s[0]] + s[1..];
    }
  }

  lemma {:induction false} ClosedAppend(s: string, t: string, n: nat)
    requires Count(s, ':') >= n
    ensures Count(s + t, ':') >= n && Closed(s + t, n) == Closed(s, n)
  {
    CountConcat(s, t, ':');
    if n == 0 {
    } else {
      assert (s + t)[1..] == s[1..] + t;
      ClosedAppend(s[1..], t, if s[0] == ':' then n - 1 else n);
    }
  }

  /** What a stable matcher can see of a line: nothing, or its first `n` fields after trimming. */
  function KeyOf(line: string, n: nat): Option<string> {
    if Ignored(Trim(line)) || Count(Trim(line), ':') < n then None else Some(Closed(Trim(line), n))
  }

  function Keys(lines: seq<string>, n: nat): seq<string> {
    if lines == [] then []
    else (match KeyOf(lines[0], n) case None => [] case Some(k) => [k]) + Keys(lines[1..], n)
  }

  /** The keys in order of first appearance. */
  function Firsts(keys: seq<string>, seen: set<string>): seq<string> {
    if keys == [] then []
    else if keys[0] in seen then Firsts(keys[1..], seen)
    else [keys[0]] + Firsts(keys[1..], seen + {keys[0]})
  }

  /** The first key that is answered. */
  function ScanKeys<R>(keys: seq<string>, end: End, fn: string -> Outcome<R>): Outcome<R> {
    if keys == [] then AtEnd(end)
    else if fn(Trim(keys[0])) != Nothing then fn(Trim(keys[0]))
    else ScanKeys(keys[1..], end, fn)
  }

  /* ---------- a scan sees only the first appearances of keys ---------- */

  lemma {:induction false} TrimLeftTwice(s: string)
    ensures TrimLeft(TrimLeft(s)) == TrimLeft(s)
    decreases |s|
  {
    if LeadSpace(s) == 0 {
    } else {
      TrimLeftTwice(s[LeadSpace(s)..]);
    }
  }

  /** Trimming twice is trimming once, as far as closed fields go. */
  lemma ClosedOfTrimmed(s: string, n: nat)
    requires n >= 1 && Count(s, ':') >= n
    ensures Count(Trim(s), ':') >= n && Count(TrimLeft(s), ':') >= n
    ensures Closed(Trim(s), n) == Closed(TrimLeft(s), n)
  {
    TrimField(s, 0);
    TrimRightDrops(TrimLeft(s));
    var kept := Trim(s);
    assert TrimLeft(s) == kept + TrimLeft(s)[|kept|..];
    ClosedAppend(kept, TrimLeft(s)[|kept|..], n);
  }

  /** A stable matcher judges a line by its key. */
  lemma JudgedByKey<R(!new)>(line: string, fn: string -> Outcome<R>, n: nat)
    requires Stable(fn, n)
    ensures match KeyOf(line, n)
            case None => Judge(fn, line) == Nothing
            case Some(k) => Judge(fn, line) == fn(Trim(k))
  {
    if Count(line, ':') < n {
      TrimKeepsFew(line, n);
    } else if !Ignored(Trim(line)) {
      ClosedOfTrimmed(line, n);
      var left := TrimLeft(line);
      var k := Closed(left, n);
      ClosedIsPrefix(left, n);
      assert left == k + left[|k|..];
      TrimLeftTwice(line);
      assert fn(Trim(k)) == fn(Trim(k + left[|k|..]));
    }
  }

  lemma {:induction false} ScanByKeys<R(!new)>(lines: seq<string>, end: End, fn: string -> Outcome<R>, n: nat)
    requires Stable(fn, n)
    ensures ScanLines(lines, end, fn) == ScanKeys(Keys(lines, n), end, fn)
  {
    if lines == [] {
    } else {
      ScanByKeys(lines[1..], end, fn, n);
      JudgedByKey(lines[0], fn, n);
      var rest := Keys(lines[1..], n);
      match KeyOf(lines[0], n)
      case None => assert [] + rest == rest;
      case Some(k) => assert ([k] + rest)[1..] == rest;
    }
  }

  lemma {:induction false} ScanByFirsts<R(!new)>(
      keys: seq<string>, seen: set<string>, end: End, fn: string -> Outcome<R>)
    requires forall k :: k in seen ==> fn(Trim(k)) == Nothing
    ensures ScanKeys(keys, end, fn) == ScanKeys(Firsts(keys, seen), end, fn)
  {
    if keys == [] {
    } else {
      if keys[0] in seen {
        ScanByFirsts(keys[1..], seen, end, fn);
      } else if fn(Trim(keys[0])) == Nothing {
        ScanByFirsts(keys[1..], seen + {keys[0]}, end, fn);
        assert ([keys[0]] + Firsts(keys[1..], seen + {keys[0]}))[1..] == Firsts(keys[1..], seen + {keys[0]});
      }
    }
  }

  /* ---------- telling two files apart ---------- */

  /** Says nothing to the keys in `mute`, yes to `key` and no to any other. */
  function Teller(mute: set<string>, key: string, n: nat): string -> Outcome<bool> {
    x => if Count(x, ':') < n || Closed(x, n) in mute then Nothing else Found(Closed(x, n) == key)
  }

  lemma TellerStable(mute: set<string>, key: string, n: nat)
    requires n >= 1
    ensures Stable(Teller(mute, key, n), n)
  {
    var fn := Teller(mute, key, n);
    forall p: string, t: string | Count(p, ':') >= n ensures fn(Trim(p)) == fn(Trim(p + t)) {
      CountConcat(p, t, ':');
      ClosedOfTrimmed(p, n);
      ClosedOfTrimmed(p + t, n);
      TrimLeftAppend(p, t);
      ClosedAppend(TrimLeft(p), t, n);
    }
    forall p: string | Count(p, ':') < n ensures fn(Trim(p)) == Nothing {
      TrimKeepsFew(p, n);
    }
  }

  /** A key is what is left of a trimmed line, so trimming it again changes nothing that a matcher sees. */
  ghost predicate IsKey(k: string, n: nat) {
    Count(k, ':') >= n && Count(Trim(k), ':') >= n && Closed(Trim(k), n) == k
  }

  lemma KeyIsKey(line: string, n: nat)
    requires n >= 1 && KeyOf(line, n).Some?
    ensures IsKey(KeyOf(line, n).value, n)
  {
    if Count(line, ':') < n {
      TrimKeepsFew(line, n);
    }
    ClosedOfTrimmed(line, n);
    TrimLeftTwice(line);
    var left := TrimLeft(line);
    var k := Closed(left, n);
    ClosedIsPrefix(left, n);
    assert left == k + left[|k|..];
    CountConcat(k, left[|k|..], ':');
    TrimLeftAppend(k, left[|k|..]);
    assert TrimLeft(left) == TrimLeft(k) + left[|k|..];
    SameTail(TrimLeft(k), k, left[|k|..]);
    ClosedOfTrimmed(k, n);
    ClosedAppend(k, left[|k|..], n);
  }

  lemma SameTail(a: string, b: string, t: string)
    requires a + t == b + t
    ensures a == b
  {
    assert |a| == |b|;
    assert a == (a + t)[..|a|] && b == (b + t)[..|b|];
  }

  lemma {:induction false} KeysAreKeys(lines: seq<string>, n: nat)
    requires n >= 1
    ensures forall k :: k in Keys(lines, n) ==> IsKey(k, n)
  {
    if lines == [] {
    } else {
      KeysAreKeys(lines[1..], n);
      if KeyOf(lines[0], n).Some? {
        KeyIsKey(lines[0], n);
      }
    }
  }

  lemma {:induction false} FirstsOnly(keys: seq<string>, seen: set<string>)
    ensures forall k :: k in Firsts(keys, seen) ==> k in keys && k !in seen
    ensures forall i, j :: 0 <= i < j < |Firsts(keys, seen)| ==> Firsts(keys, seen)[i] != Firsts(keys, seen)[j]
  {
    if keys == [] {
    } else {
      FirstsOnly(keys[1..], seen);
      FirstsOnly(keys[1..], seen + {keys[0]});
      assert keys == [keys[0]] + keys[1..];
    }
  }

  ghost predicate Distinct(keys: seq<string>, mute: set<string>, n: nat) {
    && (forall k :: k in keys ==> IsKey(k, n) && k !in mute)
    && forall i, j :: 0 <= i < j < |keys| ==> keys[i] != keys[j]
  }

  /** Two different lists of first appearances are told apart by some matcher. */
  lemma {:induction false} ToldApart(a: seq<string>, b: seq<string>, mute: set<string>, n: nat)
      returns (all: set<string>, key: string)
    requires n >= 1 && a != b && Distinct(a, mute, n) && Distinct(b, mute, n)
    ensures mute <= all
    ensures ScanKeys(a, EOF, Teller(all, key, n)) != ScanKeys(b, EOF, Teller(all, key, n))
    decreases |a|
  {
    if a != [] && b != [] && a[0] == b[0] {
      var more := mute + {a[0]};
      forall k | k in a[1..] ensures k in a && k != a[0] {}
      forall k | k in b[1..] ensures k in b && k != b[0] {}
      assert a == [a[0]] + a[1..] && b == [b[0]] + b[1..];
      all, key := ToldApart(a[1..], b[1..], more, n);
      TellsKey(a[0], all, key, n);
    } else {
      all, key := mute, if a != [] then a[0] else b[0];
      if a != [] {
        TellsKey(a[0], all, key, n);
      }
      if b != [] {
        TellsKey(b[0], all, key, n);
      }
    }
  }

  lemma TellsKey(k: string, mute: set<string>, key: string, n: nat)
    requires IsKey(k, n)
    ensures Teller(mute, key, n)(Trim(k)) == if k in mute then Nothing else Found(k == key)
  {}

  /* ---------- the condition ---------- */

  /** The keys met by the chunked scan, and those of the whole lines, first appear in the same order. */
  predicate SameFirsts(cs: seq<Chunk>, readCols: nat) {
    Firsts(Keys(Texts(Fragments(cs, readCols, true)), readCols), {}) == Firsts(Keys(Lines(cs), readCols), {})
  }

  /** On this file the chunked scan is right for every stable matcher that answers yes or no. */
  ghost predicate RightForAll(cs: seq<Chunk>, readCols: nat) {
    forall fn: string -> Outcome<bool> | Stable(fn, readCols) ::
      ScanChunks(cs, EOF, fn, readCols) == ScanLines(Lines(cs), EOF, fn)
  }

  lemma SameFirstsIsEnough<R(!new)>(cs: seq<Chunk>, end: End, fn: string -> Outcome<R>, readCols: nat)
    requires Stable(fn, readCols) && SameFirsts(cs, readCols)
    ensures ScanChunks(cs, end, fn, readCols) == ScanLines(Lines(cs), end, fn)
  {
    var texts := Texts(Fragments(cs, readCols, true));
    ScanReadsFragments(cs, end, fn, readCols, true);
    ScanByKeys(texts, end, fn, readCols);
    ScanByKeys(Lines(cs), end, fn, readCols);
    ScanByFirsts(Keys(texts, readCols), {}, end, fn);
    ScanByFirsts(Keys(Lines(cs), readCols), {}, end, fn);
  }

  lemma DifferentFirstsShow(cs: seq<Chunk>, readCols: nat)
    requires readCols >= 1 && !SameFirsts(cs, readCols)
    ensures !RightForAll(cs, readCols)
  {
    var texts, lines := Texts(Fragments(cs, readCols, true)), Lines(cs);
    var a, b := Keys(texts, readCols), Keys(lines, readCols);
    KeysAreKeys(texts, readCols);
    KeysAreKeys(lines, readCols);
    FirstsOnly(a, {});
    FirstsOnly(b, {});
    var all, key := ToldApart(Firsts(a, {}), Firsts(b, {}), {}, readCols);
    var fn := Teller(all, key, readCols);
    TellerStable(all, key, readCols);
    ScanReadsFragments(cs, EOF, fn, readCols, true);
    ScanByKeys(texts, EOF, fn, readCols);
    ScanByKeys(lines, EOF, fn, readCols);
    ScanByFirsts(a, {}, EOF, fn);
    ScanByFirsts(b, {}, EOF, fn);
  }

  /** Main result: the files on which the chunked scan is right whatever is looked for are exactly those where the
      tails of cut comments bring in no key ahead of, or besides, the keys of the whole lines. */
  lemma RightForAllExactly(cs: seq<Chunk>, readCols: nat)
    requires readCols >= 1
    ensures RightForAll(cs, readCols) <==> SameFirsts(cs, readCols)
  {
    if SameFirsts(cs, readCols) {
      forall fn: string -> Outcome<bool> | Stable(fn, readCols)
        ensures ScanChunks(cs, EOF, fn, readCols) == ScanLines(Lines(cs), EOF, fn)
      {
        SameFirstsIsEnough(cs, EOF, fn, readCols);
      }
    } else {
      DifferentFirstsShow(cs, readCols);
    }
  }
}
