/** Text files read line by line, with universal newlines, as Python's text mode does. */
module TextLines {
  import opened Sequences
  import opened Strings

  /** Line endings as they are read: a carriage return, alone or before a newline, becomes a newline. */
  function Translate(raw: string): string {
    if raw == "" then ""
    else if raw[0] != '\r' then [raw[0]] + Translate(raw[1..])
    else "\n" + Translate(if |raw| > 1 && raw[1] == '\n' then raw[2..] else raw[1..])
  }

  lemma {:induction false} TranslateDropsReturns(raw: string)
    ensures '\r' !in Translate(raw)
    ensures '\r' !in raw ==> Translate(raw) == raw
    decreases |raw|
  {
    if raw == "" {
    } else {
      TranslateDropsReturns(raw[1..]);
      if |raw| > 1 {
        TranslateDropsReturns(raw[2..]);
      }
      assert raw == [raw[0]] + raw[1..];
    }
  }

  /** Each kind of line ending becomes one newline. */
  lemma {:induction false} TranslateEnding(text: string, rest: string)
    requires '\r' !in text
    ensures Translate(text + ("\r\n" + rest)) == text + ("\n" + Translate(rest))
    ensures Translate(text + ("\n" + rest)) == text + ("\n" + Translate(rest))
    ensures !("\n" <= rest) ==> Translate(text + ("\r" + rest)) == text + ("\n" + Translate(rest))
  {
    if text == "" {
      assert ("\r\n" + rest)[2..] == rest && ("\n" + rest)[1..] == rest && ("\r" + rest)[1..] == rest;
      assert "" + ("\r\n" + rest) == "\r\n" + rest && "" + ("\n" + rest) == "\n" + rest;
      assert "" + ("\r" + rest) == "\r" + rest && "" + ("\n" + Translate(rest)) == "\n" + Translate(rest);
    } else {
      TranslateEnding(text[1..], rest);
      TranslateKept(text, "\r\n" + rest);
      TranslateKept(text, "\n" + rest);
      TranslateKept(text, "\r" + rest);
      assert text == [text[0]] + text[1..];
      Assoc([text[0]], text[1..], "\n" + Translate(rest));
    }
  }

  lemma TranslateKept(text: string, rest: string)
    requires text != "" && '\r' !in text
    ensures Translate(text + rest) == [text[0]] + Translate(text[1..] + rest)
  {
    assert text[0] in text && (text + rest)[0] == text[0] && (text + rest)[1..] == text[1..] + rest;
  }

  /** The lines, each with its newline; the last may lack one. */
  function ReadLines(t: string): seq<string>
    decreases |t|
  {
    if t == "" then []
    else if '\n' in t then [Head(t, '\n') + "\n"] + ReadLines(Tail(t, '\n'))
    else [t]
  }

  function Concat(lines: seq<string>): string {
    if lines == [] then "" else lines[0] + Concat(lines[1..])
  }

  lemma ConcatCons(l: string, rest: seq<string>)
    ensures Concat([l] + rest) == l + Concat(rest)
  {
    assert ([l] + rest)[1..] == rest;
  }

  predicate Ended(l: string) {
    l != "" && l[|l| - 1] == '\n' && '\n' !in l[..|l| - 1]
  }

  predicate Open(l: string) {
    l != "" && '\n' !in l
  }

  /** What reading can give: every line ended, but for the last. */
  predicate WellFormed(lines: seq<string>) {
    || lines == []
    || (Ended(lines[0]) && WellFormed(lines[1..]))
    || (Open(lines[0]) && lines[1..] == [])
  }

  predicate AllEnded(lines: seq<string>) {
    lines == [] || (Ended(lines[0]) && AllEnded(lines[1..]))
  }

  /** Reading loses nothing. */
  lemma {:induction false} ReadThenConcat(t: string)
    ensures Concat(ReadLines(t)) == t && WellFormed(ReadLines(t))
    decreases |t|
  {
    if t == "" {
    } else if '\n' in t {
      var h, rest := Head(t, '\n'), Tail(t, '\n');
      ReadThenConcat(rest);
      HeadTail(t, '\n');
      Assoc(h, "\n", rest);
      EndedLine(h);
      assert ([h + "\n"] + ReadLines(rest))[1..] == ReadLines(rest);
    } else {
      assert [t][1..] == [];
      assert Concat([t]) == t + "";
    }
  }

  lemma EndedLine(h: string)
    requires '\n' !in h
    ensures Ended(h + "\n") && (h + "\n")[..|h|] == h
  {}

  /** Writing well-formed lines and reading them back gives the same lines. */
  lemma {:induction false} ConcatThenRead(lines: seq<string>)
    requires WellFormed(lines)
    ensures ReadLines(Concat(lines)) == lines
  {
    if lines == [] {
    } else {
      var l, rest := lines[0], lines[1..];
      assert lines == [l] + rest;
      if Ended(l) && WellFormed(rest) {
        ConcatThenRead(rest);
        ReadEnded(l, Concat(rest));
      } else {
        assert Concat(lines) == l + "" == l;
      }
    }
  }

  lemma ReadEnded(l: string, t: string)
    requires Ended(l)
    ensures ReadLines(l + t) == [l] + ReadLines(t)
  {
    var h := l[..|l| - 1];
    assert l == h + ['\n'];
    Assoc(h, ['\n'], t);
    HeadTailUnique(h, '\n', t);
    assert (l + t)[|h|] == '\n';
  }

  lemma EndedOrOpen(l: string)
    ensures !(Ended(l) && Open(l))
  {}

  predicate EndsNewline(t: string) {
    t == "" || t[|t| - 1] == '\n'
  }

  /** A text ends in a newline exactly when all its lines are ended. */
  lemma {:induction false} TextEnd(lines: seq<string>)
    requires WellFormed(lines)
    ensures EndsNewline(Concat(lines)) <==> AllEnded(lines)
  {
    if lines == [] {
    } else {
      var l, rest := lines[0], Concat(lines[1..]);
      EndedOrOpen(l);
      if Ended(l) && WellFormed(lines[1..]) {
        TextEnd(lines[1..]);
        assert rest != "" ==> (l + rest)[|l + rest| - 1] == rest[|rest| - 1];
        assert rest == "" ==> l + rest == l;
      } else {
        assert l + "" == l && l[|l| - 1] in l;
      }
    }
  }

  lemma {:induction false} LastEnded(lines: seq<string>)
    requires AllEnded(lines) && lines != []
    ensures Ended(lines[|lines| - 1])
  {
    if lines[1..] == [] {
    } else {
      LastEnded(lines[1..]);
      assert lines[1..][|lines| - 2] == lines[|lines| - 1];
    }
  }

  predicate Free(lines: seq<string>, c: char) {
    lines == [] || (c !in lines[0] && Free(lines[1..], c))
  }

  lemma {:induction false} ConcatFree(lines: seq<string>, c: char)
    ensures c !in Concat(lines) <==> Free(lines, c)
  {
    if lines == [] {
    } else {
      ConcatFree(lines[1..], c);
    }
  }
}
