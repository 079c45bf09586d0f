/** When reverting a deployed manifest gives back the original. */
module ManifestFacts {
  import opened Sequences
  import opened Strings
  import opened Replacing
  import opened TextLines
  import opened Manifest

  /* ---------- one line ---------- */

  lemma HostClearOfTest()
    ensures Clear(HOST_IMAGE, TEST)
  {
    ClearByIndex(HOST_IMAGE, TEST);
  }

  lemma LocalClearOfLatest()
    ensures Clear(LOCAL_IMAGE, LATEST)
  {
    ClearByIndex(LOCAL_IMAGE, LATEST);
  }

  lemma ImagesApart()
    ensures Apart(HOST_IMAGE, LOCAL_IMAGE, LATEST) && Apart(LOCAL_IMAGE, HOST_IMAGE, TEST)
  {
    HostClearOfTest();
    LocalClearOfLatest();
    ImageLengths();
  }

  lemma ImageLengths()
    ensures |LOCAL_IMAGE| == 24 && |HOST_IMAGE| == 30
    ensures HOST_IMAGE[0] == 'q' && LOCAL_IMAGE[0] == 'l' && LATEST[0] == 'l' && TEST[0] == 't'
    ensures Lacks(LATEST, 'q') && Lacks(TEST, 'l') && Lacks(LATEST[1..], 'l') && Lacks(TEST[1..], 'q')
  {}

  /** A kept `tes` in front of a rewritten `latest` spells `test`. */
  const SPELLS_TEST := "tes" + LATEST

  /** At no place that rewriting keeps does the line begin with the local image, or with `test`, or with a text that
      spells `test` when rewritten. */
  predicate LineReturns(l: string)
    decreases |l|
  {
    if l == "" then true
    else if HOST_IMAGE <= l then LineReturns(l[|HOST_IMAGE|..])
    else if LATEST <= l then LineReturns(l[|LATEST|..])
    else !(LOCAL_IMAGE <= l) && !(TEST <= l) && !(SPELLS_TEST <= l) && LineReturns(l[1..])
  }

  /** The two chained replacements, in each direction, are a single pass each. */
  lemma SinglePasses(l: string)
    ensures ToLocal(l) == Scan(l, HOST_IMAGE, LOCAL_IMAGE, LATEST, TEST)
    ensures ToHost(l) == Scan(l, LOCAL_IMAGE, HOST_IMAGE, TEST, LATEST)
  {
    ImagesApart();
    TwoPasses(l, HOST_IMAGE, LOCAL_IMAGE, LATEST, TEST);
    TwoPasses(l, LOCAL_IMAGE, HOST_IMAGE, TEST, LATEST);
  }

  function Written(l: string): string {
    Scan(l, HOST_IMAGE, LOCAL_IMAGE, LATEST, TEST)
  }

  const AFTER_L := "ocal-host-scanner-image"

  lemma AfterLIsRest()
    ensures LOCAL_IMAGE[1..] == AFTER_L
  {
    assert LOCAL_IMAGE == "l" + AFTER_L;
  }

  lemma AfterLClearOfLocal()
    ensures Clear(AFTER_L, LOCAL_IMAGE)
  {
    ClearByIndex(AFTER_L, LOCAL_IMAGE);
  }

  lemma AfterLClearOfTest()
    ensures Clear(AFTER_L, TEST)
  {
    ClearByIndex(AFTER_L, TEST);
  }

  lemma LocalClearOfHost()
    ensures Clear(LOCAL_IMAGE, HOST_IMAGE)
  {
    ClearByIndex(LOCAL_IMAGE, HOST_IMAGE);
  }

  lemma LocalPasses(l: string)
    requires LOCAL_IMAGE <= l
    ensures LOCAL_IMAGE <= Written(l)
  {
    LocalClearOfHost();
    LocalClearOfLatest();
    var rest := l[|LOCAL_IMAGE|..];
    assert l == LOCAL_IMAGE + rest;
    ScanPasses(LOCAL_IMAGE, rest, HOST_IMAGE, LOCAL_IMAGE, LATEST, TEST);
  }

  /** At a kept place the local image is written exactly where it was. */
  lemma LocalWritten(l: string)
    requires l != "" && !(HOST_IMAGE <= l) && !(LATEST <= l)
    ensures LOCAL_IMAGE <= Written(l) <==> LOCAL_IMAGE <= l
  {
    if LOCAL_IMAGE <= l {
      LocalPasses(l);
    }
    if LOCAL_IMAGE <= Written(l) {
      var rest := Written(l[1..]);
      assert Written(l) == [l[0]] + rest && ([l[0]] + rest)[1..] == rest;
      PrefixFacts(LOCAL_IMAGE, Written(l));
      AfterLIsRest();
      AfterLClearOfLocal();
      AfterLClearOfTest();
      ScannedBefore(AFTER_L, l[1..], HOST_IMAGE, LOCAL_IMAGE, LATEST, TEST);
      Prepended(LOCAL_IMAGE, AFTER_L, l);
    }
  }

  lemma Prepended(p: string, rest: string, l: string)
    requires p != "" && l != "" && p[1..] == rest && p[0] == l[0] && rest <= l[1..]
    ensures p <= l
  {
    assert p == [p[0]] + rest && l == [l[0]] + l[1..];
  }

  /** A character that starts neither pattern nor replacement is written exactly where it was. */
  lemma CharacterWritten(e: char, l: string)
    requires e != 'q' && e != 'l' && e != 't'
    ensures [e] <= Written(l) <==> [e] <= l
    ensures [e] <= l ==> Written(l) == [e] + Written(l[1..])
  {
    PatternHeads();
    if l != "" {
      ScanStart(l, HOST_IMAGE, LOCAL_IMAGE, LATEST, TEST);
    }
  }

  /** A `t` is written where there was one, or where there was `latest`. */
  lemma LetterTWritten(l: string)
    ensures "t" <= Written(l) <==> "t" <= l || LATEST <= l
  {
    PatternHeads();
    if l != "" {
      ScanStart(l, HOST_IMAGE, LOCAL_IMAGE, LATEST, TEST);
    }
  }

  lemma Spelled(s: string)
    ensures TEST <= s <==> |s| > 3 && "t" <= s && "e" <= s[1..] && "s" <= s[2..] && "t" <= s[3..]
    ensures SPELLS_TEST <= s <==> |s| > 3 && "t" <= s && "e" <= s[1..] && "s" <= s[2..] && LATEST <= s[3..]
  {
    assert SPELLS_TEST[3..] == LATEST;
    if |s| > 3 && "t" <= s && "e" <= s[1..] && "s" <= s[2..] {
      assert s == "tes" + s[3..];
    }
  }

  lemma WrittenCons(e: char, l: string)
    requires !(HOST_IMAGE <= [e] + l) && !(LATEST <= [e] + l)
    ensures Written([e] + l) == [e] + Written(l) && Written([e] + l)[1..] == Written(l)
  {
    assert ([e] + l)[1..] == l;
  }

  /** At a kept place `test` is written exactly where it was, or where it is spelled. */
  lemma TestWritten(l: string)
    requires l != "" && !(HOST_IMAGE <= l) && !(LATEST <= l)
    ensures TEST <= Written(l) <==> TEST <= l || SPELLS_TEST <= l
  {
    var one := l[1..];
    assert l == [l[0]] + one;
    WrittenCons(l[0], one);
    Spelled(l);
    Spelled(Written(l));
    CharacterWritten('e', one);
    if "e" <= one {
      EstWritten(l, one);
    }
  }

  lemma EstWritten(l: string, one: string)
    requires l != "" && one == l[1..] && "e" <= one
    requires Written(l) != "" && Written(l)[1..] == Written(one)
    ensures |Written(l)| > 1 && Written(l)[2..] == Written(l[2..])
    ensures "s" <= Written(l)[2..] <==> "s" <= l[2..]
    ensures "s" <= l[2..] ==> |Written(l)| > 2 && ("t" <= Written(l)[3..] <==> "t" <= l[3..] || LATEST <= l[3..])
  {
    var two := l[2..];
    assert one[1..] == two;
    CharacterWritten('e', one);
    assert Written(l)[2..] == Written(l)[1..][1..] == Written(two);
    CharacterWritten('s', two);
    if "s" <= two {
      assert two[1..] == l[3..];
      assert Written(l)[3..] == Written(l)[2..][1..] == Written(l[3..]);
      LetterTWritten(l[3..]);
    }
  }

  /** The condition on the line as it was is the one on what is written. */
  lemma {:induction false} FaithfulExactly(l: string)
    ensures LineReturns(l) <==> Faithful(l, HOST_IMAGE, LOCAL_IMAGE, LATEST, TEST)
    decreases |l|
  {
    if l == "" {
    } else if HOST_IMAGE <= l {
      FaithfulExactly(l[|HOST_IMAGE|..]);
    } else if LATEST <= l {
      FaithfulExactly(l[|LATEST|..]);
    } else {
      FaithfulExactly(l[1..]);
      LocalWritten(l);
      TestWritten(l);
    }
  }

  /** Rewriting a line and rewriting it back gives the same line exactly under that condition. */
  lemma LineReturnsExactly(l: string)
    ensures ToHost(ToLocal(l)) == l <==> LineReturns(l)
  {
    SinglePasses(l);
    SinglePasses(ToLocal(l));
    ImageLengths();
    UndoneExactly(l, HOST_IMAGE, LOCAL_IMAGE, LATEST, TEST);
    FaithfulExactly(l);
  }

  /** Deploying turns an image line into a shorter line with the local image. */
  lemma ImageLine(l: string)
    requires Image(l)
    ensures Local(ToLocal(l)) && |ToLocal(l)| < |l|
  {
    SinglePasses(l);
    ImageLengths();
    var i :| 0 <= i <= |l| && MatchAt(l, HOST_IMAGE, i);
    ScanHits(l, i, HOST_IMAGE, LOCAL_IMAGE, LATEST, TEST);
  }

  /** Reverting makes a line with the local image longer. */
  lemma LocalLine(l: string)
    requires Local(l)
    ensures |ToHost(l)| > |l|
  {
    SinglePasses(l);
    ImageLengths();
    var i :| 0 <= i <= |l| && MatchAt(l, LOCAL_IMAGE, i);
    ScanHits(l, i, LOCAL_IMAGE, HOST_IMAGE, TEST, LATEST);
  }

  lemma RewrittenEnd(h: string)
    requires '\n' !in h
    ensures Ended(ToLocal(h + ['\n'])) && Ended(ToHost(h + ['\n']))
  {
    NoBreaks();
    SinglePasses(h + ['\n']);
    RewrittenLacks(h, '\n');
    ScanEnd(h, '\n', HOST_IMAGE, LOCAL_IMAGE, LATEST, TEST);
    ScanEnd(h, '\n', LOCAL_IMAGE, HOST_IMAGE, TEST, LATEST);
    EndedLine(Scan(h, HOST_IMAGE, LOCAL_IMAGE, LATEST, TEST));
    EndedLine(Scan(h, LOCAL_IMAGE, HOST_IMAGE, TEST, LATEST));
  }

  lemma RewrittenOpen(l: string)
    requires Open(l)
    ensures '\n' !in ToLocal(l) && Open(ToHost(l))
  {
    SinglePasses(l);
    NoBreaks();
    ScanLength(l, LOCAL_IMAGE, HOST_IMAGE, TEST, LATEST);
    RewrittenLacks(l, '\n');
  }

  lemma RewrittenReturns(l: string)
    requires '\r' !in l
    ensures '\r' !in ToLocal(l) && '\r' !in ToHost(l)
  {
    SinglePasses(l);
    RewrittenLacks(l, '\r');
  }

  /** Neither direction touches how a line ends, nor brings in a carriage return. */
  lemma RewrittenLine(l: string)
    ensures Ended(l) ==> Ended(ToLocal(l)) && Ended(ToHost(l))
    ensures Open(l) ==> '\n' !in ToLocal(l) && Open(ToHost(l))
    ensures '\r' !in l ==> '\r' !in ToLocal(l) && '\r' !in ToHost(l)
  {
    if Open(l) {
      RewrittenOpen(l);
    }
    if '\r' !in l {
      RewrittenReturns(l);
    }
    if Ended(l) {
      assert l == l[..|l| - 1] + ['\n'];
      RewrittenEnd(l[..|l| - 1]);
    }
  }

  lemma NoBreaks()
    ensures forall c :: c == '\n' || c == '\r' ==>
              c !in HOST_IMAGE && c !in LOCAL_IMAGE && c !in LATEST && c !in TEST
    ensures |LOCAL_IMAGE| <= |HOST_IMAGE| && |TEST| <= |LATEST|
  {}

  lemma RewrittenLacks(l: string, c: char)
    requires c == '\n' || c == '\r'
    ensures c !in l ==> c !in Scan(l, HOST_IMAGE, LOCAL_IMAGE, LATEST, TEST)
    ensures c !in l ==> c !in Scan(l, LOCAL_IMAGE, HOST_IMAGE, TEST, LATEST)
  {
    NoBreaks();
    if c !in l {
      ScanLacks(l, HOST_IMAGE, LOCAL_IMAGE, LATEST, TEST, c);
      ScanLacks(l, LOCAL_IMAGE, HOST_IMAGE, TEST, LATEST, c);
    }
  }

  /* ---------- the list of lines ---------- */

  /** Line `i` comes right after an image line. */
  predicate AfterImage(lines: seq<string>, i: nat, after: bool)
    requires i < |lines|
  {
    if i == 0 then after else Image(lines[i - 1])
  }

  /** Line `i` survives: an image line must not follow another, must have no pull policy and must return; any other
      line must have neither a pull policy nor the local image, unless it follows an image line. */
  predicate Survives(lines: seq<string>, i: nat, after: bool)
    requires i < |lines|
  {
    if Image(lines[i]) then !AfterImage(lines, i, after) && LineReturns(lines[i]) && !Policy(lines[i])
    else AfterImage(lines, i, after) || (!Policy(lines[i]) && !Local(lines[i]))
  }

  ghost predicate AllSurvive(lines: seq<string>, after: bool) {
    forall i :: 0 <= i < |lines| ==> Survives(lines, i, after)
  }

  lemma AllSurviveStep(lines: seq<string>, after: bool)
    requires lines != []
    ensures AllSurvive(lines, after) <==> Survives(lines, 0, after) && AllSurvive(lines[1..], Image(lines[0]))
  {
    var rest := lines[1..];
    forall i | 0 <= i < |rest| ensures Survives(rest, i, Image(lines[0])) <==> Survives(lines, i + 1, after) {
      assert rest[i] == lines[i + 1];
      assert i > 0 ==> rest[i - 1] == lines[i];
    }
    if AllSurvive(lines, after) {
      forall i | 0 <= i < |rest| ensures Survives(rest, i, Image(lines[0])) {
        assert Survives(lines, i + 1, after);
      }
    }
    if AllSurvive(rest, Image(lines[0])) {
      forall i | 1 <= i < |lines| ensures Survives(lines, i, after) {
        assert Survives(rest, i - 1, Image(lines[0]));
      }
    }
  }

  /** What reverting makes of the deployed lines, when it has just deleted a line or not. */
  function Returned(lines: seq<string>, after: bool): seq<string> {
    if after then Passed(Deployed(lines)) else Reverted(Deployed(lines))
  }

  lemma ReturnedImage(l: string, rest: seq<string>)
    requires Image(l)
    ensures Returned([l] + rest, true) == [ToLocal(l)] + Returned(rest, true)
    ensures Returned([l] + rest, false) == if Policy(ToHost(ToLocal(l))) then [NEVER_PULL] + Returned(rest, false)
                                           else [ToHost(ToLocal(l))] + Returned(rest, true)
  {
    ImageLine(l);
    InsertedLine();
    DeployedCons(l, rest);
    RevertedCons(ToLocal(l), [NEVER_PULL] + Deployed(rest));
    RevertedCons(NEVER_PULL, Deployed(rest));
  }

  lemma ReturnedOther(l: string, rest: seq<string>)
    requires !Image(l)
    ensures Returned([l] + rest, true) == [l] + Returned(rest, false)
    ensures Returned([l] + rest, false) == if Policy(Restored(l)) then Returned(rest, true)
                                           else [Restored(l)] + Returned(rest, false)
  {
    DeployedCons(l, rest);
    RevertedCons(l, Deployed(rest));
  }

  lemma SameFirst(x: string, y: string, s: seq<string>, t: seq<string>)
    ensures [x] + s == [y] + t <==> x == y && s == t
  {
    assert ([x] + s)[1..] == s && ([y] + t)[1..] == t;
    assert ([x] + s)[0] == x && ([y] + t)[0] == y;
  }

  /** Main result on lists of lines: reverting gives back exactly the lists whose lines all survive. */
  lemma {:induction false} ListExactly(lines: seq<string>, after: bool)
    ensures |Returned(lines, after)| <= |lines|
    ensures Returned(lines, after) == lines <==> AllSurvive(lines, after)
    decreases |lines|
  {
    if lines == [] {
    } else {
      var l, rest := lines[0], lines[1..];
      assert lines == [l] + rest;
      AllSurviveStep(lines, after);
      ListExactly(rest, true);
      ListExactly(rest, false);
      if Image(l) {
        ReturnedImage(l, rest);
        ImageLine(l);
        LineReturnsExactly(l);
        InsertedLine();
        SameFirst(ToLocal(l), l, Returned(rest, true), rest);
        SameFirst(NEVER_PULL, l, Returned(rest, false), rest);
        SameFirst(ToHost(ToLocal(l)), l, Returned(rest, true), rest);
      } else {
        ReturnedOther(l, rest);
        if Local(l) {
          LocalLine(l);
        }
        SameFirst(l, l, Returned(rest, false), rest);
        SameFirst(Restored(l), l, Returned(rest, false), rest);
      }
    }
  }

  /** Then reverting also finds what it looks for. */
  lemma {:induction false} SurvivorsAreFound(lines: seq<string>)
    requires AllSurvive(lines, false) && HasImage(lines)
    ensures FindsLocal(Deployed(lines)) && Deletes(Deployed(lines))
  {
    var l, rest := lines[0], lines[1..];
    AllSurviveStep(lines, false);
    HasImageStep(lines);
    if Image(l) {
      ImageLine(l);
      LineReturnsExactly(l);
      InsertedLine();
      var tail := [NEVER_PULL] + Deployed(rest);
      assert Deployed(lines) == [ToLocal(l)] + tail;
      assert ([ToLocal(l)] + tail)[1..] == tail;
      assert Deletes(tail);
    } else {
      SurvivorsAreFound(rest);
      assert ([l] + Deployed(rest))[1..] == Deployed(rest);
    }
  }

  lemma {:induction false} DeployedIsLonger(lines: seq<string>)
    ensures |Deployed(lines)| >= |lines|
    ensures HasImage(lines) ==> |Deployed(lines)| > |lines|
  {
    if lines == [] {
    } else {
      DeployedIsLonger(lines[1..]);
      HasImageStep(lines);
    }
  }

  /* ---------- the file ---------- */

  lemma {:induction false} DeployedText(lines: seq<string>)
    requires WellFormed(lines)
    requires lines != [] ==> !Image(lines[|lines| - 1]) || Ended(lines[|lines| - 1])
    ensures WellFormed(Deployed(lines))
  {
    if lines == [] {
    } else {
      var l, rest := lines[0], lines[1..];
      assert rest != [] ==> rest[|rest| - 1] == lines[|lines| - 1];
      if Ended(l) && WellFormed(rest) {
        DeployedText(rest);
        RewrittenLine(l);
        InsertedEnded();
        WellFormedAfter(NEVER_PULL, Deployed(rest));
        WellFormedAfter(ToLocal(l), [NEVER_PULL] + Deployed(rest));
        WellFormedAfter(l, Deployed(rest));
      } else {
        EndedOrOpen(l);
        assert Deployed(lines) == [l] + [];
      }
    }
  }

  lemma InsertedEnded()
    ensures Ended(NEVER_PULL) && '\r' !in NEVER_PULL
  {
    var h := "        " + PULL_POLICY + ": Never";
    assert NEVER_PULL == h + "\n";
    assert '\n' !in h;
    EndedLine(h);
  }

  lemma WellFormedAfter(l: string, rest: seq<string>)
    requires Ended(l)
    ensures WellFormed(rest) ==> WellFormed([l] + rest)
    ensures AllEnded(rest) ==> AllEnded([l] + rest)
  {
    assert ([l] + rest)[1..] == rest;
  }

  /** Reverting keeps lines well formed. */
  lemma {:induction false} RevertedText(lines: seq<string>)
    requires WellFormed(lines)
    ensures WellFormed(Reverted(lines)) && WellFormed(Passed(lines))
    ensures AllEnded(lines) ==> AllEnded(Reverted(lines)) && AllEnded(Passed(lines))
    decreases |lines|
  {
    if lines == [] {
    } else {
      var l, rest := lines[0], lines[1..];
      RewrittenLine(l);
      if Ended(l) && WellFormed(rest) {
        RevertedText(rest);
        WellFormedAfter(l, Reverted(rest));
        WellFormedAfter(Restored(l), Reverted(rest));
      } else {
        EndedOrOpen(l);
        assert Passed(lines) == [l] + [];
        assert Reverted(lines) == [] || Reverted(lines) == [Restored(l)] + [];
      }
    }
  }

  lemma {:induction false} NoReturns(lines: seq<string>)
    requires Free(lines, '\r')
    ensures Free(Deployed(lines), '\r') && Free(Reverted(lines), '\r') && Free(Passed(lines), '\r')
    decreases |lines|
  {
    if lines == [] {
    } else {
      NoReturns(lines[1..]);
      RewrittenLine(lines[0]);
      InsertedEnded();
      assert ([NEVER_PULL] + Deployed(lines[1..]))[1..] == Deployed(lines[1..]);
    }
  }

  /** What the two runs leave in the file. */
  function DeployedThenReverted(text: string): string {
    Update("revert", Update("deploy", text).text).text
  }

  ghost predicate LastImageEnded(lines: seq<string>) {
    lines != [] ==> !Image(lines[|lines| - 1]) || Ended(lines[|lines| - 1])
  }

  /** Nothing that the two runs write has a carriage return. */
  lemma NoReturnsLeft(text: string)
    requires HasImage(ReadLines(Translate(text)))
    ensures '\r' !in Update("deploy", text).text && '\r' !in DeployedThenReverted(text)
  {
    TranslateDropsReturns(text);
    UpdatedLacksReturns("deploy", text);
    UpdatedLacksReturns("revert", Update("deploy", text).text);
  }

  lemma UpdatedLacksReturns(flagType: string, text: string)
    ensures Update(flagType, text).code == 0 || '\r' !in text ==> '\r' !in Update(flagType, text).text
  {
    var lines := ReadLines(Translate(text));
    TranslateDropsReturns(text);
    ReadThenConcat(Translate(text));
    ConcatFree(lines, '\r');
    NoReturns(lines);
    ConcatFree(Deployed(lines), '\r');
    ConcatFree(Reverted(lines), '\r');
  }

  lemma DeployUpdate(text: string)
    requires '\r' !in text && HasImage(ReadLines(text))
    ensures Update("deploy", text).text == Concat(Deployed(ReadLines(text)))
  {
    TranslateDropsReturns(text);
  }

  /** What the second run leaves, by the lines it reads. */
  function RevertedFrom(lines: seq<string>): string {
    if FindsLocal(lines) && Deletes(lines) then Concat(Reverted(lines)) else Concat(lines)
  }

  lemma RevertUpdate(text: string)
    requires '\r' !in text
    ensures Update("revert", text).text == RevertedFrom(ReadLines(text))
  {
    TranslateDropsReturns(text);
    ReadThenConcat(text);
  }

  lemma BothUpdates(text: string)
    requires '\r' !in text && HasImage(ReadLines(text))
    ensures DeployedThenReverted(text) == RevertedFrom(ReadLines(Concat(Deployed(ReadLines(text)))))
  {
    TranslateDropsReturns(text);
    NoReturnsLeft(text);
    DeployUpdate(text);
    RevertUpdate(Concat(Deployed(ReadLines(text))));
  }

  lemma SameText(a: seq<string>, b: seq<string>)
    requires WellFormed(a) && WellFormed(b)
    ensures Concat(a) == Concat(b) <==> a == b
  {
    ConcatThenRead(a);
    ConcatThenRead(b);
  }

  lemma RestoredLines(lines: seq<string>)
    requires WellFormed(lines) && HasImage(lines) && LastImageEnded(lines)
    ensures RevertedFrom(Deployed(lines)) == Concat(lines) <==> AllSurvive(lines, false)
  {
    var deployed := Deployed(lines);
    DeployedText(lines);
    RevertedText(deployed);
    SameText(deployed, lines);
    SameText(Reverted(deployed), lines);
    DeployedIsLonger(lines);
    ListExactly(lines, false);
    if AllSurvive(lines, false) {
      SurvivorsAreFound(lines);
    }
  }

  lemma DeployedReadBack(lines: seq<string>)
    requires WellFormed(lines) && LastImageEnded(lines)
    ensures ReadLines(Concat(Deployed(lines))) == Deployed(lines)
  {
    DeployedText(lines);
    ConcatThenRead(Deployed(lines));
  }

  /** With well-formed deployed lines the second run sees exactly those lines. */
  lemma RestoredWhenEnded(text: string)
    requires HasImage(ReadLines(text)) && LastImageEnded(ReadLines(text)) && '\r' !in text
    ensures DeployedThenReverted(text) == text <==> AllSurvive(ReadLines(text), false)
  {
    BothUpdates(text);
    ReadThenConcat(text);
    DeployedReadBack(ReadLines(text));
    RestoredLines(ReadLines(text));
  }

  lemma DeployedTextCons(l: string, tail: seq<string>)
    ensures Concat([l] + tail) == l + Concat(tail)
    ensures Concat([l] + ([NEVER_PULL] + tail)) == l + (NEVER_PULL + Concat(tail))
  {
    ConcatCons(l, tail);
    ConcatCons(NEVER_PULL, tail);
    ConcatCons(l, [NEVER_PULL] + tail);
  }

  lemma {:induction false} DeployedEnd(lines: seq<string>)
    requires lines != [] && Image(lines[|lines| - 1])
    ensures Concat(Deployed(lines)) != "" && EndsNewline(Concat(Deployed(lines)))
  {
    var l, rest := lines[0], lines[1..];
    var tail := Deployed(rest);
    var text := Concat(tail);
    assert lines == [l] + rest;
    DeployedCons(l, rest);
    DeployedTextCons(l, tail);
    DeployedTextCons(ToLocal(l), tail);
    InsertedEnded();
    if rest == [] {
      assert text == "" && NEVER_PULL + "" == NEVER_PULL;
    } else {
      assert rest[|rest| - 1] == lines[|lines| - 1];
      DeployedEnd(rest);
      StillEnds(NEVER_PULL, text);
      StillEnds(l, text);
    }
    StillEnds(ToLocal(l), NEVER_PULL + text);
  }

  lemma StillEnds(a: string, b: string)
    requires b != "" && EndsNewline(b)
    ensures a + b != "" && EndsNewline(a + b)
  {}

  lemma RevertedEnd(lines: seq<string>)
    requires AllEnded(lines) && WellFormed(lines)
    ensures EndsNewline(RevertedFrom(lines))
  {
    TextEnd(lines);
    RevertedText(lines);
    TextEnd(Reverted(lines));
  }

  lemma OpenEnd(lines: seq<string>)
    requires WellFormed(lines) && !LastImageEnded(lines)
    ensures !EndsNewline(Concat(lines)) && EndsNewline(Concat(Deployed(lines)))
  {
    TextEnd(lines);
    if AllEnded(lines) {
      LastEnded(lines);
    }
    DeployedEnd(lines);
  }

  /** With an image line cut off by the end of the file, what is written ends in a newline, or is empty. */
  lemma NotRestoredWhenOpen(text: string)
    requires HasImage(ReadLines(text)) && !LastImageEnded(ReadLines(text)) && '\r' !in text
    ensures DeployedThenReverted(text) != text
  {
    var lines := ReadLines(text);
    var written := Concat(Deployed(lines));
    BothUpdates(text);
    ReadThenConcat(text);
    OpenEnd(lines);
    ReadThenConcat(written);
    TextEnd(ReadLines(written));
    RevertedEnd(ReadLines(written));
  }

  /** Main result: for every file with an image line, deploying and then reverting restores it exactly when it has no
      carriage return, its last line is ended if it is an image line, and every line survives. */
  lemma RevertUndoesDeployExactly(text: string)
    requires HasImage(ReadLines(Translate(text)))
    ensures DeployedThenReverted(text) == text <==>
            '\r' !in text && LastImageEnded(ReadLines(text)) && AllSurvive(ReadLines(text), false)
  {
    NoReturnsLeft(text);
    TranslateDropsReturns(text);
    if '\r' !in text {
      if LastImageEnded(ReadLines(text)) {
        RestoredWhenEnded(text);
      } else {
        NotRestoredWhenOpen(text);
      }
    }
  }

  /* ---------- image lines with a tag ---------- */

  /** Nothing in the text can start one of the patterns. */
  predicate Plain(s: string) {
    Lacks(s, 'q') && Lacks(s, 'l') && Lacks(s, 't')
  }

  lemma {:induction false} ScanKeeps(p: string, x: string, a: string, b: string, c: string, d: string)
    requires a != "" && c != "" && Lacks(p, a[0]) && Lacks(p, c[0])
    ensures Scan(p + x, a, b, c, d) == p + Scan(x, a, b, c, d)
  {
    if p == "" {
      assert p + x == x;
    } else {
      AppendFacts(p, x);
      AppendFacts(p, Scan(x, a, b, c, d));
      ScanKeeps(p[1..], x, a, b, c, d);
    }
  }

  lemma {:induction false} ScanPlain(p: string, x: string, a: string, b: string, c: string, d: string)
    requires a != "" && b != "" && c != "" && d != "" && {a[0], b[0], c[0], d[0]} <= {'q', 'l', 't'} && Plain(p)
    ensures Faithful(p + x, a, b, c, d) <==> Faithful(x, a, b, c, d)
  {
    if p == "" {
      assert p + x == x;
    } else {
      AppendFacts(p, x);
      AppendFacts(p, Scan(x, a, b, c, d));
      ScanKeeps(p, x, a, b, c, d);
      ScanPlain(p[1..], x, a, b, c, d);
    }
  }

  lemma ScanPlainAll(p: string, a: string, b: string, c: string, d: string)
    requires a != "" && b != "" && c != "" && d != "" && {a[0], b[0], c[0], d[0]} <= {'q', 'l', 't'} && Plain(p)
    ensures Faithful(p, a, b, c, d)
  {
    ScanPlain(p, "", a, b, c, d);
    assert p + "" == p;
  }

  function ImageWithTag(pre: string, tag: string, post: string): string {
    pre + (HOST_IMAGE + (":" + (tag + post)))
  }

  lemma PatternHeads()
    ensures HOST_IMAGE[0] == 'q' && LOCAL_IMAGE[0] == 'l' && LATEST[0] == 'l' && TEST[0] == 't'
    ensures Plain(":") && Lacks(TEST, 'q') && Lacks(TEST, 'l')
  {}

  lemma FaithfulAt(p: string, x: string, a: string, b: string, c: string, d: string)
    requires a != "" && c != "" && (p == a || (p == c && a[0] != c[0]))
    ensures Faithful(p + x, a, b, c, d) <==> Faithful(x, a, b, c, d)
  {
    assert (p + x)[|p|..] == x && (p + x)[0] == p[0];
  }

  /** The image tagged `latest` comes back. */
  lemma LatestTagReturns(pre: string, post: string)
    requires Plain(pre) && Plain(post)
    ensures LineReturns(ImageWithTag(pre, LATEST, post))
  {
    FaithfulExactly(ImageWithTag(pre, LATEST, post));
    PatternHeads();
    ScanPlainAll(post, HOST_IMAGE, LOCAL_IMAGE, LATEST, TEST);
    FaithfulAt(LATEST, post, HOST_IMAGE, LOCAL_IMAGE, LATEST, TEST);
    ScanPlain(":", LATEST + post, HOST_IMAGE, LOCAL_IMAGE, LATEST, TEST);
    FaithfulAt(HOST_IMAGE, ":" + (LATEST + post), HOST_IMAGE, LOCAL_IMAGE, LATEST, TEST);
    ScanPlain(pre, HOST_IMAGE + (":" + (LATEST + post)), HOST_IMAGE, LOCAL_IMAGE, LATEST, TEST);
  }

  /** The image tagged `test`, as in the repository's own manifest, does not: its tag would stay as it is when
      deploying, and so be read as a rewritten one when reverting. */
  lemma TestTagLost(pre: string, post: string)
    requires Plain(pre)
    ensures !LineReturns(ImageWithTag(pre, TEST, post))
  {
    FaithfulExactly(ImageWithTag(pre, TEST, post));
    PatternHeads();
    var x := TEST + post;
    FaithfulTest(post);
    ScanPlain(":", x, HOST_IMAGE, LOCAL_IMAGE, LATEST, TEST);
    FaithfulAt(HOST_IMAGE, ":" + x, HOST_IMAGE, LOCAL_IMAGE, LATEST, TEST);
    ScanPlain(pre, HOST_IMAGE + (":" + x), HOST_IMAGE, LOCAL_IMAGE, LATEST, TEST);
  }

  lemma FaithfulTest(post: string)
    ensures !Faithful(TEST + post, HOST_IMAGE, LOCAL_IMAGE, LATEST, TEST)
  {
    PatternHeads();
    ScanKeeps(TEST, post, HOST_IMAGE, LOCAL_IMAGE, LATEST, TEST);
    assert (TEST + post)[0] == 't';
  }

  /** A manifest with such a line is never restored. */
  lemma TestTagNotRestored(text: string, i: nat, pre: string, post: string)
    requires Plain(pre)
    requires var lines := ReadLines(Translate(text)); i < |lines| && lines[i] == ImageWithTag(pre, TEST, post)
    ensures DeployedThenReverted(text) != text
  {
    var lines := ReadLines(Translate(text));
    ContainsMiddle(pre, HOST_IMAGE, ":" + (TEST + post));
    Assoc(pre, HOST_IMAGE, ":" + (TEST + post));
    assert Image(lines[i]);
    TranslateDropsReturns(text);
    TestTagLost(pre, post);
    RevertUndoesDeployExactly(text);
    assert !Survives(lines, i, false);
  }

  /* ---------- what the two runs do to a list ---------- */

  lemma InsertedText()
    ensures NEVER_PULL == "        imagePullPolicy: Never\n"
  {}

  lemma {:induction false} DeployedConcat(a: seq<string>, b: seq<string>)
    ensures Deployed(a + b) == Deployed(a) + Deployed(b)
  {
    if a == [] {
      assert a + b == b;
    } else {
      var first, rest := a[0], a[1..];
      assert a == [first] + rest && a + b == [first] + (rest + b);
      DeployedConcat(rest, b);
      DeployedCons(first, rest);
      DeployedCons(first, rest + b);
      Assoc([NEVER_PULL], Deployed(rest), Deployed(b));
      Assoc([ToLocal(first)], [NEVER_PULL] + Deployed(rest), Deployed(b));
      Assoc([first], Deployed(rest), Deployed(b));
    }
  }

  lemma DeployedOne(l: string, b: seq<string>)
    ensures Deployed([l] + b) == (if Image(l) then [ToLocal(l), NEVER_PULL] else [l]) + Deployed(b)
  {
    DeployedCons(l, b);
    var x, y, rest := ToLocal(l), NEVER_PULL, Deployed(b);
    assert [x] + ([y] + rest) == [x, y] + rest;
  }

  /** Deploying rewrites each image line and puts the pull policy behind it; other lines stay. */
  lemma DeployedAt(a: seq<string>, l: string, b: seq<string>)
    ensures Deployed(a + ([l] + b)) ==
            Deployed(a) + ((if Contains(l, "quay.io/kubescape/host-scanner")
                            then [ToLocal(l), "        imagePullPolicy: Never\n"] else [l]) + Deployed(b))
  {
    InsertedText();
    DeployedConcat(a, [l] + b);
    DeployedOne(l, b);
  }

  /** No line has a pull policy once its image is restored. */
  ghost predicate NoPolicy(lines: seq<string>) {
    forall k :: 0 <= k < |lines| ==> !Contains(Restored(lines[k]), "imagePullPolicy")
  }

  function RestoredAll(lines: seq<string>): seq<string> {
    seq(|lines|, i requires 0 <= i < |lines| => Restored(lines[i]))
  }

  /** Reverting restores the lines up to the first pull policy, deletes that, and leaves the line behind it as it
      is. */
  lemma {:induction false} RevertedAt(a: seq<string>, policy: string, next: string, b: seq<string>)
    requires NoPolicy(a) && Contains(Restored(policy), "imagePullPolicy")
    ensures Reverted(a + ([policy] + ([next] + b))) == RestoredAll(a) + ([next] + Reverted(b))
    ensures Reverted(a + [policy]) == RestoredAll(a)
    ensures Reverted(a) == RestoredAll(a)
  {
    RevertedBehind(a, [policy] + ([next] + b));
    RevertedBehind(a, [policy]);
    RevertedBehind(a, []);
    RevertedCons(policy, [next] + b);
    RevertedCons(policy, []);
    RevertedCons(next, b);
    assert [policy] + [] == [policy] && a + [] == a;
    assert RestoredAll(a) + [] == RestoredAll(a);
  }

  lemma RestoredAllCons(first: string, rest: seq<string>)
    ensures RestoredAll([first] + rest) == [Restored(first)] + RestoredAll(rest)
  {}

  lemma {:induction false} RevertedBehind(a: seq<string>, b: seq<string>)
    requires NoPolicy(a)
    ensures Reverted(a + b) == RestoredAll(a) + Reverted(b)
  {
    var end := Reverted(b);
    if a == [] {
      assert a + b == b && RestoredAll(a) == [] && [] + end == end;
    } else {
      var first, rest := a[0], a[1..];
      var x, xs := Restored(first), RestoredAll(rest);
      NoPolicyTail(a);
      RevertedBehind(rest, b);
      RevertedCons(first, rest + b);
      Assoc([first], rest, b);
      assert a == [first] + rest;
      RestoredAllCons(first, rest);
      Assoc([x], xs, end);
    }
  }

  /** Some line has a pull policy exactly when one is deleted. */
  lemma {:induction false} DeletesExactly(lines: seq<string>)
    ensures Deletes(lines) <==> !NoPolicy(lines)
  {
    if lines == [] {
    } else {
      DeletesExactly(lines[1..]);
      assert forall k :: 0 < k < |lines| ==> lines[k] == lines[1..][k - 1];
      if NoPolicy(lines[1..]) && !Policy(Restored(lines[0])) {
        forall k | 0 <= k < |lines| ensures !Contains(Restored(lines[k]), "imagePullPolicy") {
          assert k > 0 ==> lines[k] == lines[1..][k - 1];
        }
      }
      if NoPolicy(lines) {
        forall k | 0 <= k < |lines[1..]| ensures !Contains(Restored(lines[1..][k]), "imagePullPolicy") {
          assert lines[1..][k] == lines[k + 1];
        }
      }
    }
  }

  ghost predicate NoneLocal(lines: seq<string>) {
    forall k :: 0 <= k < |lines| ==> !Contains(lines[k], "local-host-scanner-image")
  }

  lemma NoneLocalCons(first: string, rest: seq<string>)
    ensures NoneLocal([first] + rest) <==> !Local(first) && NoneLocal(rest)
  {
    var all := [first] + rest;
    assert all[0] == first && forall k :: 0 <= k < |rest| ==> all[k + 1] == rest[k];
    if NoneLocal(all) {
      forall k | 0 <= k < |rest| ensures !Contains(rest[k], "local-host-scanner-image") {
        assert !Contains(all[k + 1], "local-host-scanner-image");
      }
    }
  }

  lemma NoPolicyTail(a: seq<string>)
    requires a != [] && NoPolicy(a)
    ensures !Policy(Restored(a[0])) && NoPolicy(a[1..])
  {
    forall k | 0 <= k < |a[1..]| ensures !Contains(Restored(a[1..][k]), "imagePullPolicy") {
      assert a[1..][k] == a[k + 1];
    }
  }

  lemma {:induction false} FindsLocalBehind(a: seq<string>, b: seq<string>)
    requires NoPolicy(a)
    ensures FindsLocal(a + b) <==> !NoneLocal(a) || FindsLocal(b)
  {
    if a == [] {
      assert a + b == b;
    } else {
      var first, rest := a[0], a[1..];
      assert a == [first] + rest && a + b == [first] + (rest + b);
      NoPolicyTail(a);
      NoneLocalCons(first, rest);
      FindsLocalBehind(rest, b);
      RevertedCons(first, rest + b);
    }
  }

  /** The local image is looked for on every line but those behind a deleted one. */
  lemma FindsLocalAt(a: seq<string>, policy: string, next: string, b: seq<string>)
    requires NoPolicy(a) && Contains(Restored(policy), "imagePullPolicy")
    ensures FindsLocal(a) <==> !NoneLocal(a)
    ensures FindsLocal(a + ([policy] + ([next] + b))) <==>
            !NoneLocal(a) || Contains(policy, "local-host-scanner-image") || FindsLocal(b)
  {
    FindsLocalBehind(a, []);
    assert a + [] == a;
    FindsLocalBehind(a, [policy] + ([next] + b));
    RevertedCons(policy, [next] + b);
    RevertedCons(next, b);
  }

  /** What the two rewritings make of a tagged image. */
  lemma TaggedImage(pre: string, post: string)
    requires Plain(pre) && Plain(post)
    ensures ToLocal(pre + ("quay.io/kubescape/host-scanner" + (":" + ("latest" + post))))
         == pre + ("local-host-scanner-image" + (":" + ("test" + post)))
    ensures ToHost(pre + ("local-host-scanner-image" + (":" + ("test" + post))))
         == pre + ("quay.io/kubescape/host-scanner" + (":" + ("latest" + post)))
  {
    PatternHeads();
    var host, local := HOST_IMAGE + (":" + (LATEST + post)), LOCAL_IMAGE + (":" + (TEST + post));
    SinglePasses(pre + host);
    SinglePasses(pre + local);
    ScanKeeps(pre, host, HOST_IMAGE, LOCAL_IMAGE, LATEST, TEST);
    ScanKeeps(pre, local, LOCAL_IMAGE, HOST_IMAGE, TEST, LATEST);
    ScanFirst(HOST_IMAGE, ":" + (LATEST + post), LOCAL_IMAGE, LATEST, TEST);
    ScanFirst(LOCAL_IMAGE, ":" + (TEST + post), HOST_IMAGE, TEST, LATEST);
    ScanKeeps(":", LATEST + post, HOST_IMAGE, LOCAL_IMAGE, LATEST, TEST);
    ScanKeeps(":", TEST + post, LOCAL_IMAGE, HOST_IMAGE, TEST, LATEST);
    ScanSecond(HOST_IMAGE, post, LOCAL_IMAGE, LATEST, TEST);
    ScanSecond(LOCAL_IMAGE, post, HOST_IMAGE, TEST, LATEST);
    ScanKeeps(post, "", HOST_IMAGE, LOCAL_IMAGE, LATEST, TEST);
    ScanKeeps(post, "", LOCAL_IMAGE, HOST_IMAGE, TEST, LATEST);
    assert post + "" == post;
  }

  /* ---------- what a run reports ---------- */

  /** A run succeeds if it finds what it looks for and the new text can be written; if it does not get as far as
      writing, the file stays as it was. */
  lemma RunReports(text: string, disk: Disk)
    ensures var lines := ReadLines(Translate(text));
            && (UpdateOn("deploy", text, disk).code == 0 <==>
                  HasImage(lines) && WriteSucceeds(disk, Concat(Deployed(lines))))
            && (UpdateOn("revert", text, disk).code == 0 <==>
                  FindsLocal(lines) && !NoPolicy(lines) && WriteSucceeds(disk, Concat(Reverted(lines))))
            && (!HasImage(lines) || disk.NotWritable? ==> UpdateOn("deploy", text, disk) == Outcome(-1, text))
            && (!FindsLocal(lines) || NoPolicy(lines) || disk.NotWritable? ==>
                  UpdateOn("revert", text, disk) == Outcome(-1, text))
  {
    DeletesExactly(ReadLines(Translate(text)));
  }

  /** The file can be opened for writing and takes all of the text. */
  predicate WriteSucceeds(disk: Disk, text: string) {
    disk.Writable? || (disk.Full? && |text| <= disk.room)
  }

  /** A write that breaks off reports failure and leaves a beginning of the new text. */
  lemma BrokenWrite(text: string, room: nat)
    ensures var lines := ReadLines(Translate(text));
            HasImage(lines) && room < |Concat(Deployed(lines))| ==>
              UpdateOn("deploy", text, Full(room)) == Outcome(-1, Concat(Deployed(lines))[..room])
    ensures var lines := ReadLines(Translate(text));
            FindsLocal(lines) && !NoPolicy(lines) && room < |Concat(Reverted(lines))| ==>
              UpdateOn("revert", text, Full(room)) == Outcome(-1, Concat(Reverted(lines))[..room])
  {
    DeletesExactly(ReadLines(Translate(text)));
  }

  /** Any other kind of run fails and changes nothing. */
  lemma OtherRuns(flagType: string, text: string, disk: Disk)
    requires flagType != "deploy" && flagType != "revert"
    ensures UpdateOn(flagType, text, disk) == Outcome(-1, text)
  {}
}
