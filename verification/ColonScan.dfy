/** When the chunked scan of a colon file gives what the plain whole-line scan gives. */
module ColonScan {
  import opened Wrappers
  import opened Strings
  import opened Whitespace
  import opened ColonFile

  /** What a matcher must guarantee for the scan to stop reading a line early: it answers no line with
      fewer than `readCols` colons, and once a line has that many, the rest of it makes no difference. */
  ghost predicate Stable<R(!new)>(fn: string -> Outcome<R>, readCols: nat) {
    && readCols >= 1
    && (forall p: string, t: string {:trigger fn(Trim(p + t))} ::
          Count(p, ':') >= readCols ==> fn(Trim(p)) == fn(Trim(p + t)))
    && (forall p: string {:trigger fn(Trim(p))} :: Count(p, ':') < readCols ==> fn(Trim(p)) == Nothing)
  }

  /** The inner loop stops inside the line that starts here, having seen that it is a comment. */
  predicate CommentCutHere(cs: seq<Chunk>, readCols: nat) {
    var g := Gather("", cs, readCols);
    g.Got? && g.cut && g.rest != [] && Comment(Trim(g.text))
  }

  /** No comment line of the file shows `readCols` colons before its last chunk. */
  predicate NoCommentCut(cs: seq<Chunk>, readCols: nat)
    decreases |cs|
  {
    cs == [] || (!CommentCutHere(cs, readCols) && NoCommentCut(Skip(cs), readCols))
  }

  /** A stretch of a line that the scan takes for a line; `start` says whether a line really starts there. */
  datatype Fragment = Fragment(line: string, start: bool)

  /** Every stretch that the scan takes for a line when nothing is found. A cut comment is not skipped
      to its end, so what is left of it is read as if a line started there. */
  function Fragments(cs: seq<Chunk>, readCols: nat, start: bool): seq<Fragment>
    decreases |cs|
  {
    if cs == [] then []
    else
      [Fragment(LineText(cs), start)]
      + if CommentCutHere(cs, readCols) then Fragments(Gather("", cs, readCols).rest, readCols, false)
        else Fragments(Skip(cs), readCols, true)
  }

  function Texts(fs: seq<Fragment>): seq<string> {
    if fs == [] then [] else [fs[0].line] + Texts(fs[1..])
  }

  function StartTexts(fs: seq<Fragment>): seq<string> {
    if fs == [] then []
    else (if fs[0].start then [fs[0].line] else []) + StartTexts(fs[1..])
  }

  /** The gathered text is a beginning of the line, and the unread part holds the rest of it. */
  lemma {:induction false} GatherSplitsLine(acc: string, cs: seq<Chunk>, readCols: nat)
    ensures match Gather(acc, cs, readCols)
            case Dry =>
              && (cs == [] || Skip(cs) == [])
              && (cs != [] ==> Count(acc + LineText(cs), ':') < readCols)
            case Got(text, cut, rest) =>
              && acc + LineText(cs) == text + (if cut then LineText(rest) else "")
              && Skip(cs) == (if cut then Skip(rest) else rest)
              && (cut ==> Count(text, ':') >= readCols)
    decreases |cs|
  {
    if cs == [] {
    } else {
      var text := acc + cs[0].text;
      if cs[0].isPrefix && Count(text, ':') < readCols {
        GatherSplitsLine(text, cs[1..], readCols);
        assert acc + LineText(cs) == text + LineText(cs[1..]);
        if cs[1..] == [] {
          assert acc + LineText(cs) == text;
        }
      }
    }
  }

  /** One step of the chunked scan judges the whole line, although it may have seen only part of it. */
  lemma StepJudgesLine<R(!new)>(cs: seq<Chunk>, fn: string -> Outcome<R>, readCols: nat)
    requires cs != [] && Stable(fn, readCols)
    ensures match Gather("", cs, readCols)
            case Dry => Judge(fn, LineText(cs)) == Nothing
            case Got(text, cut, rest) =>
              && Judge(fn, LineText(cs)) == Judge(fn, text)
              && (Ignored(Trim(text)) && cut ==> Comment(Trim(text)))
  {
    GatherSplitsLine("", cs, readCols);
    assert "" + LineText(cs) == LineText(cs);
    match Gather("", cs, readCols)
    case Dry =>
    case Got(text, cut, rest) =>
      if cut {
        TrimStable(text, LineText(rest));
      } else {
        assert LineText(cs) == text;
      }
  }

  /** The chunked scan is the plain scan of the fragments. */
  lemma {:induction false} ScanReadsFragments<R(!new)>(
      cs: seq<Chunk>, end: End, fn: string -> Outcome<R>, readCols: nat, start: bool)
    requires Stable(fn, readCols)
    ensures ScanChunks(cs, end, fn, readCols) == ScanLines(Texts(Fragments(cs, readCols, start)), end, fn)
    decreases |cs|
  {
    if cs == [] {
    } else {
      StepJudgesLine(cs, fn, readCols);
      GatherSplitsLine("", cs, readCols);
      var fs := Fragments(cs, readCols, start);
      match Gather("", cs, readCols)
      case Dry =>
        assert Fragments(Skip(cs), readCols, true) == [];
        assert fs == [Fragment(LineText(cs), start)];
      case Got(text, cut, rest) =>
        if CommentCutHere(cs, readCols) {
          assert fs[1..] == Fragments(rest, readCols, false);
          ScanReadsFragments(rest, end, fn, readCols, false);
        } else {
          assert fs[1..] == Fragments(Skip(cs), readCols, true);
          ScanReadsFragments(Skip(cs), end, fn, readCols, true);
        }
    }
  }

  /** The whole lines are exactly the fragments at line starts. */
  lemma {:induction false} LinesAreStartFragments(cs: seq<Chunk>, readCols: nat, start: bool)
    ensures StartTexts(Fragments(cs, readCols, start)) == if start then Lines(cs) else Lines(Skip(cs))
    decreases |cs|
  {
    if cs == [] {
    } else {
      var fs := Fragments(cs, readCols, start);
      GatherSplitsLine("", cs, readCols);
      if CommentCutHere(cs, readCols) {
        var rest := Gather("", cs, readCols).rest;
        assert fs[1..] == Fragments(rest, readCols, false);
        LinesAreStartFragments(rest, readCols, false);
      } else {
        assert fs[1..] == Fragments(Skip(cs), readCols, true);
        LinesAreStartFragments(Skip(cs), readCols, true);
      }
    }
  }

  ghost predicate AllStarts(fs: seq<Fragment>) {
    forall i :: 0 <= i < |fs| ==> fs[i].start
  }

  /** The scan keeps to real line starts exactly when no comment is cut. */
  lemma {:induction false} AllStartsIffNoCommentCut(cs: seq<Chunk>, readCols: nat)
    ensures AllStarts(Fragments(cs, readCols, true)) <==> NoCommentCut(cs, readCols)
    decreases |cs|
  {
    if cs == [] {
    } else {
      var fs := Fragments(cs, readCols, true);
      if CommentCutHere(cs, readCols) {
        assert fs[1..] == Fragments(Gather("", cs, readCols).rest, readCols, false);
        assert !fs[1].start;
      } else {
        AllStartsIffNoCommentCut(Skip(cs), readCols);
        var rest := Fragments(Skip(cs), readCols, true);
        assert fs == [Fragment(LineText(cs), true)] + rest;
        assert forall i :: 0 <= i < |rest| ==> fs[i + 1] == rest[i];
      }
    }
  }

  /** The first fragment that `fn` answers, if any. */
  function FirstAnswered<R>(fs: seq<Fragment>, fn: string -> Outcome<R>): Option<Fragment> {
    if fs == [] then None
    else if Judge(fn, fs[0].line) != Nothing then Some(fs[0])
    else FirstAnswered(fs[1..], fn)
  }

  lemma {:induction false} FirstAnsweredDecides<R(!new)>(fs: seq<Fragment>, end: End, fn: string -> Outcome<R>)
    ensures match FirstAnswered(fs, fn)
            case None => ScanLines(Texts(fs), end, fn) == AtEnd(end)
            case Some(f) => ScanLines(Texts(fs), end, fn) == Judge(fn, f.line)
  {
    if fs == [] {
    } else {
      FirstAnsweredDecides(fs[1..], end, fn);
      assert Texts(fs)[1..] == Texts(fs[1..]);
    }
  }

  lemma {:induction false} FirstAnsweredAtStart<R(!new)>(fs: seq<Fragment>, end: End, fn: string -> Outcome<R>)
    ensures match FirstAnswered(fs, fn)
            case None => ScanLines(StartTexts(fs), end, fn) == AtEnd(end)
            case Some(f) => f in fs && (f.start ==> ScanLines(StartTexts(fs), end, fn) == Judge(fn, f.line))
  {
    if fs == [] {
    } else {
      FirstAnsweredAtStart(fs[1..], end, fn);
      if fs[0].start {
        assert StartTexts(fs)[1..] == StartTexts(fs[1..]);
      } else {
        assert StartTexts(fs) == StartTexts(fs[1..]);
      }
    }
  }

  /** The chunked scan is right whenever the first fragment that the matcher answers, if any, is a whole line. */
  lemma ScanAgreesFromLineStart<R(!new)>(cs: seq<Chunk>, end: End, fn: string -> Outcome<R>, readCols: nat)
    requires Stable(fn, readCols)
    requires var first := FirstAnswered(Fragments(cs, readCols, true), fn); first == None || first.value.start
    ensures ScanChunks(cs, end, fn, readCols) == ScanLines(Lines(cs), end, fn)
  {
    ScanReadsFragments(cs, end, fn, readCols, true);
    LinesAreStartFragments(cs, readCols, true);
    FirstAnsweredDecides(Fragments(cs, readCols, true), end, fn);
    FirstAnsweredAtStart(Fragments(cs, readCols, true), end, fn);
  }

  /** In particular it is right for every stable matcher on every file without a cut comment. */
  lemma ScanRefinesWholeLines<R(!new)>(cs: seq<Chunk>, end: End, fn: string -> Outcome<R>, readCols: nat)
    requires Stable(fn, readCols) && NoCommentCut(cs, readCols)
    ensures ScanChunks(cs, end, fn, readCols) == ScanLines(Lines(cs), end, fn)
  {
    AllStartsIffNoCommentCut(cs, readCols);
    FirstAnsweredAtStart(Fragments(cs, readCols, true), end, fn);
    ScanAgreesFromLineStart(cs, end, fn, readCols);
  }

  /** How a line is cut never matters on such files: two cuttings of the same lines scan alike. */
  lemma CuttingIsIrrelevant<R(!new)>(
      cs: seq<Chunk>, ds: seq<Chunk>, end: End, fn: string -> Outcome<R>, readCols: nat)
    requires Stable(fn, readCols) && Lines(cs) == Lines(ds)
    requires NoCommentCut(cs, readCols) && NoCommentCut(ds, readCols)
    ensures ScanChunks(cs, end, fn, readCols) == ScanChunks(ds, end, fn, readCols)
  {
    ScanRefinesWholeLines(cs, end, fn, readCols);
    ScanRefinesWholeLines(ds, end, fn, readCols);
  }

  /** The hypothesis is needed: whatever comment head with `readCols` colons fills the buffer, and whatever
      acceptable record the rest of that comment spells, the chunked scan answers with that record,
      while the file has no line to answer with. */
  lemma CutCommentIsReadAsRecord<R(!new)>(
      head: string, tail: string, end: End, fn: string -> Outcome<R>, readCols: nat)
    requires Stable(fn, readCols)
    requires head != "" && head[0] == '#' && Count(head, ':') >= readCols
    requires Judge(fn, tail) != Nothing
    ensures var cs := [Chunk(head, true), Chunk(tail, false)];
            && !NoCommentCut(cs, readCols)
            && ScanChunks(cs, end, fn, readCols) == Judge(fn, tail)
            && ScanLines(Lines(cs), end, fn) == AtEnd(end)
  {
    CutCommentShape(head, tail, readCols);
    var cs := [Chunk(head, true), Chunk(tail, false)];
    assert ScanChunks(cs, end, fn, readCols) == ScanChunks(cs[1..], end, fn, readCols);
  }

  /** The two chunks hold one comment line, yet the second is gathered as a line of its own. */
  lemma CutCommentShape(head: string, tail: string, readCols: nat)
    requires readCols >= 1
    requires head != "" && head[0] == '#' && Count(head, ':') >= readCols
    ensures var cs := [Chunk(head, true), Chunk(tail, false)];
            && Gather("", cs, readCols) == Got(head, true, cs[1..])
            && Gather("", cs[1..], readCols) == Got(tail, false, [])
            && Comment(Trim(head)) && Comment(Trim(head + tail))
            && Lines(cs) == [head + tail]
  {
    var cs := [Chunk(head, true), Chunk(tail, false)];
    CommentHead(head);
    CountConcat(head, tail, ':');
    CommentHead(head + tail);
    assert cs[1..] == [Chunk(tail, false)] && cs[1..][1..] == [];
    assert "" + head == head && "" + tail == tail;
    assert Skip(cs) == Skip(cs[1..]) == [];
    assert LineText(cs) == head + LineText(cs[1..]) == head + tail;
  }

  lemma CommentHead(line: string)
    requires line != "" && line[0] == '#' && Count(line, ':') >= 1
    ensures Comment(Trim(line))
  {
    TrimFirstByte(line);
    assert LeadSpace(line) == 0;
  }
}
