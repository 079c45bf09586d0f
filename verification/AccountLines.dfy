/** What the scan makes of the lines of a file, from the bytes they are written with. */
module AccountLines {
  import opened Wrappers
  import opened Sequences
  import opened Strings
  import opened Decimal
  import opened Whitespace
  import opened Padding
  import opened ColonFile
  import opened ColonScan
  import opened Accounts

  /* ---------- white space, blank lines and comments ---------- */

  /** White space around a line changes nothing. */
  lemma JudgeIgnoresPadding<R>(fn: string -> Outcome<R>, a: seq<string>, line: string, b: seq<string>)
    requires AllSpace(a) && AllSpace(b)
    ensures Judge(fn, Flatten(a) + (line + Flatten(b))) == Judge(fn, line)
  {
    TrimIgnoresPadding(a, line, b);
  }

  /** A line of white space only is ignored. */
  lemma BlankLineIgnored<R>(fn: string -> Outcome<R>, a: seq<string>)
    requires AllSpace(a)
    ensures Judge(fn, Flatten(a)) == Nothing
  {
    assert Bare("");
    TrimOfPadded(a, "", []);
    assert Flatten(a) + ("" + Flatten([])) == Flatten(a);
  }

  lemma {:induction false} TrimRightKeepsFirst(s: string)
    requires s != "" && '!' <= s[0] <= '~'
    ensures TrimRight(s) != "" && TrimRight(s)[0] == s[0]
    decreases |s|
  {
    var n := TailSpace(s);
    if n == 0 {
    } else {
      assert n < |s|;
      TrimRightKeepsFirst(s[..|s| - n]);
    }
  }

  /** A line whose first byte after white space is `#` is ignored. */
  lemma CommentIgnored<R>(fn: string -> Outcome<R>, a: seq<string>, text: string)
    requires AllSpace(a)
    ensures Judge(fn, Flatten(a) + ("#" + text)) == Nothing
  {
    var line := "#" + text;
    assert line[0] == '#' && LeadSpace(line) == 0;
    TrimRightKeepsFirst(line);
    JudgeIgnoresPadding(fn, a, line, []);
    assert line + Flatten([]) == line;
  }

  /* ---------- records ---------- */

  /** The full name ends at the first comma. */
  lemma NameBeforeComma(name: string, rest: string)
    requires ',' !in name
    ensures BeforeComma(name) == name && BeforeComma(name + ("," + rest)) == name
  {
    HeadTailUnique(name, ',', rest);
  }

  /** A user record is found by its id whatever white space is around it. */
  lemma UserBehindPadding(a: seq<string>, row: seq<string>, b: seq<string>, name: string, more: string)
    requires AllSpace(a) && AllSpace(b) && GoodUserRow(row)
    requires ',' !in name && (row[4] == name || row[4] == name + ("," + more))
    ensures Judge(MatchUserIndexValue(row[2], 2), Flatten(a) + (Join(row, ":") + Flatten(b)))
         == Found(User(row[0], row[2], row[3], name, row[5]))
  {
    JudgeIgnoresPadding(MatchUserIndexValue(row[2], 2), a, Join(row, ":"), b);
    UserRowJudged(row, Join(row, ":"));
    NameBeforeComma(name, more);
  }

  lemma GroupBehindPadding(a: seq<string>, row: seq<string>, b: seq<string>)
    requires AllSpace(a) && AllSpace(b) && GoodGroupRow(row)
    ensures Judge(MatchGroupIndexValue(row[2], 2), Flatten(a) + (Join(row, ":") + Flatten(b)))
         == Found(Group(row[0], row[2]))
  {
    JudgeIgnoresPadding(MatchGroupIndexValue(row[2], 2), a, Join(row, ":"), b);
    GroupRowJudged(row, Join(row, ":"));
  }

  /** Records without a name, or with one that starts with `+` or `-`, are found by nobody. */
  lemma BadNamesRefused(id: string, user: seq<string>, group: seq<string>)
    requires |user| == 7 && (forall k :: 0 <= k < 6 ==> ':' !in user[k])
    requires |group| == 4 && (forall k :: 0 <= k < 3 ==> ':' !in group[k])
    ensures user[0] == "" || "+" <= user[0] || "-" <= user[0] ==>
              MatchUserIndexValue(id, 2)(Join(user, ":")) == Nothing
    ensures group[0] == "" || "+" <= group[0] || "-" <= group[0] ==>
              MatchGroupIndexValue(id, 2)(Join(group, ":")) == Nothing
  {
    SplitUserRow(id, 2, user);
    UserPrefilterRedundant(id, 2, Join(user, ":"));
    GroupRowReadsBack(id, group[0], group[1], group[2], group[3]);
    assert group == [group[0], group[1], group[2], group[3]];
  }

  /* ---------- lines ---------- */

  /** One line delivered in these pieces; the line goes on after all but the last. */
  function Deliver(pieces: seq<string>): seq<Chunk> {
    if pieces == [] then []
    else [Chunk(pieces[0], |pieces| > 1)] + Deliver(pieces[1..])
  }

  function DeliverAll(lines: seq<seq<string>>): seq<Chunk> {
    if lines == [] then [] else Deliver(lines[0]) + DeliverAll(lines[1..])
  }

  function PieceTexts(lines: seq<seq<string>>): seq<string> {
    if lines == [] then [] else [Flatten(lines[0])] + PieceTexts(lines[1..])
  }

  lemma {:induction false} DeliveredLine(pieces: seq<string>, rest: seq<Chunk>)
    requires pieces != []
    ensures LineText(Deliver(pieces) + rest) == Flatten(pieces) && Skip(Deliver(pieces) + rest) == rest
    ensures Deliver(pieces) + rest != []
  {
    var others := Deliver(pieces[1..]);
    assert ([Chunk(pieces[0], |pieces| > 1)] + others) + rest == [Chunk(pieces[0], |pieces| > 1)] + (others + rest);
    assert ([Chunk(pieces[0], |pieces| > 1)] + (others + rest))[1..] == others + rest;
    if |pieces| == 1 {
      assert others == [] && others + rest == rest && Flatten(pieces) == pieces[0] + "";
    } else {
      DeliveredLine(pieces[1..], rest);
    }
  }

  /** Whatever pieces lines are delivered in, the whole lines are what the pieces make. */
  lemma {:induction false} LinesOfDelivery(lines: seq<seq<string>>)
    requires forall k :: 0 <= k < |lines| ==> lines[k] != []
    ensures Lines(DeliverAll(lines)) == PieceTexts(lines)
  {
    if lines == [] {
    } else {
      DeliveredLine(lines[0], DeliverAll(lines[1..]));
      LinesOfDelivery(lines[1..]);
    }
  }

  /** The first line that is answered decides. */
  lemma {:induction false} FirstAnswerDecides<R(!new)>(
      before: seq<string>, line: string, after: seq<string>, end: End, fn: string -> Outcome<R>)
    requires forall k :: 0 <= k < |before| ==> Judge(fn, before[k]) == Nothing
    requires Judge(fn, line) != Nothing
    ensures ScanLines(before + ([line] + after), end, fn) == Judge(fn, line)
  {
    if before == [] {
      assert before + ([line] + after) == [line] + after;
    } else {
      assert (before + ([line] + after))[1..] == before[1..] + ([line] + after);
      FirstAnswerDecides(before[1..], line, after, end, fn);
    }
  }

  /** If none is answered the ending decides. */
  lemma {:induction false} EndingDecides<R(!new)>(lines: seq<string>, end: End, fn: string -> Outcome<R>)
    requires forall k :: 0 <= k < |lines| ==> Judge(fn, lines[k]) == Nothing
    ensures ScanLines(lines, end, fn) == match end case EOF => Nothing case Broken(m) => Error(m)
  {
    if lines == [] {
    } else {
      EndingDecides(lines[1..], end, fn);
    }
  }

  /* ---------- lookups ---------- */

  /** A user lookup gives the first record with that id, whatever comes after it. */
  lemma UserFound(
      cs: seq<Chunk>, end: End, before: seq<string>, a: seq<string>, row: seq<string>, b: seq<string>,
      after: seq<string>, name: string, more: string)
    requires NoCommentCut(cs, USER_COLS) && AllSpace(a) && AllSpace(b) && GoodUserRow(row)
    requires ',' !in name && (row[4] == name || row[4] == name + ("," + more))
    requires Lines(cs) == before + ([Flatten(a) + (Join(row, ":") + Flatten(b))] + after)
    requires forall k :: 0 <= k < |before| ==> Judge(MatchUserIndexValue(row[2], 2), before[k]) == Nothing
    ensures UserById(row[2], cs, end) == Ok(User(row[0], row[2], row[3], name, row[5]))
  {
    var fn := MatchUserIndexValue(row[2], 2);
    UserBehindPadding(a, row, b, name, more);
    FirstAnswerDecides(before, Flatten(a) + (Join(row, ":") + Flatten(b)), after, end, fn);
    LookupsRefineWholeLines(row[2], cs, end);
  }

  lemma GroupFound(
      cs: seq<Chunk>, end: End, before: seq<string>, a: seq<string>, row: seq<string>, b: seq<string>,
      after: seq<string>)
    requires NoCommentCut(cs, GROUP_COLS) && AllSpace(a) && AllSpace(b) && GoodGroupRow(row)
    requires Lines(cs) == before + ([Flatten(a) + (Join(row, ":") + Flatten(b))] + after)
    requires forall k :: 0 <= k < |before| ==> Judge(MatchGroupIndexValue(row[2], 2), before[k]) == Nothing
    ensures GroupById(row[2], cs, end) == Ok(Group(row[0], row[2]))
  {
    var fn := MatchGroupIndexValue(row[2], 2);
    GroupBehindPadding(a, row, b);
    FirstAnswerDecides(before, Flatten(a) + (Join(row, ":") + Flatten(b)), after, end, fn);
    LookupsRefineWholeLines(row[2], cs, end);
  }

  /** Without such a record the id is unknown, or the read error is reported; a malformed user id comes first. */
  lemma UserNotFound(uid: string, cs: seq<Chunk>, end: End)
    requires NoCommentCut(cs, USER_COLS)
    requires forall k :: 0 <= k < |Lines(cs)| ==> Judge(MatchUserIndexValue(uid, 2), Lines(cs)[k]) == Nothing
    ensures UserById(uid, cs, end) ==
            if Atoi(uid) == None then Failed(InvalidId(uid))
            else match end case EOF => Failed(UnknownId(uid)) case Broken(m) => Failed(ReadFailed(m))
  {
    EndingDecides(Lines(cs), end, MatchUserIndexValue(uid, 2));
    LookupsRefineWholeLines(uid, cs, end);
  }

  lemma GroupNotFound(gid: string, cs: seq<Chunk>, end: End)
    requires NoCommentCut(cs, GROUP_COLS)
    requires forall k :: 0 <= k < |Lines(cs)| ==> Judge(MatchGroupIndexValue(gid, 2), Lines(cs)[k]) == Nothing
    ensures GroupById(gid, cs, end) ==
            match end case EOF => Failed(UnknownId(gid)) case Broken(m) => Failed(ReadFailed(m))
  {
    EndingDecides(Lines(cs), end, MatchGroupIndexValue(gid, 2));
    LookupsRefineWholeLines(gid, cs, end);
  }
}
