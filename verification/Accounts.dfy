/** Finding a user or group record by numeric id in a passwd or group file. */
module Accounts {
  import opened Wrappers
  import opened Strings
  import opened Decimal
  import opened Whitespace
  import opened ColonFile
  import opened ColonScan

  datatype User = User(username: string, uid: string, gid: string, name: string, homeDir: string)
  datatype Group = Group(name: string, gid: string)

  const USER_COLS := 6
  const GROUP_COLS := 3

  datatype LookupError = InvalidId(id: string) | UnknownId(id: string) | ReadFailed(message: string) | CannotOpen
  datatype Result<+T> = Ok(value: T) | Failed(error: LookupError)

  /** `strings.Cut(s, ",")`, first half. */
  function BeforeComma(s: string): string {
    if ',' in s then s[..IndexOf(s, ',')] else s
  }

  /** The text a line must hold somewhere before it is worth splitting. */
  function Probe(value: string, idx: nat): string {
    Enclosed(value, ':', idx == 0)
  }

  predicate BadName(name: string) {
    name == "" || name[0] == '+' || name[0] == '-'
  }

  /** The tests made on the parts of a line, and the record made of them. */
  function UserOf(value: string, idx: nat, parts: seq<string>): Outcome<User>
    requires idx < |parts| == 7
  {
    if parts[idx] != value || BadName(parts[0]) then Nothing
    else if Atoi(parts[2]) == None || Atoi(parts[3]) == None then Nothing
    else Found(User(parts[0], parts[2], parts[3], BeforeComma(parts[4]), parts[5]))
  }

  /** The user matcher without the substring test in front. */
  function SplitUser(value: string, idx: nat, line: string): Outcome<User>
    requires idx <= USER_COLS
  {
    if Count(line, ':') < USER_COLS then Nothing
    else
      SplitNFields(line, ':', 7);
      UserOf(value, idx, SplitN(line, ':', 7))
  }

  function MatchUserIndexValue(value: string, idx: nat): string -> Outcome<User>
    requires idx <= USER_COLS
  {
    line => if !Contains(line, Probe(value, idx)) then Nothing else SplitUser(value, idx, line)
  }

  function GroupOf(value: string, idx: nat, parts: seq<string>): Outcome<Group>
    requires idx < |parts| == 4
  {
    if parts[idx] != value || BadName(parts[0]) then Nothing
    else if Atoi(parts[2]) == None then Nothing
    else Found(Group(parts[0], parts[2]))
  }

  function SplitGroup(value: string, idx: nat, line: string): Outcome<Group>
    requires idx <= GROUP_COLS
  {
    if Count(line, ':') < GROUP_COLS then Nothing
    else
      SplitNFields(line, ':', 4);
      GroupOf(value, idx, SplitN(line, ':', 4))
  }

  function MatchGroupIndexValue(value: string, idx: nat): string -> Outcome<Group>
    requires idx <= GROUP_COLS
  {
    line => if !Contains(line, Probe(value, idx)) then Nothing else SplitGroup(value, idx, line)
  }

  /* ---------- what the matchers accept ---------- */

  /** The last part plays no role. */
  lemma UserOfClosed(value: string, idx: nat, parts: seq<string>, parts': seq<string>)
    requires idx < USER_COLS && |parts| == |parts'| == 7
    requires forall i :: 0 <= i < 6 ==> parts[i] == parts'[i]
    ensures UserOf(value, idx, parts) == UserOf(value, idx, parts')
  {}

  lemma GroupOfClosed(value: string, idx: nat, parts: seq<string>, parts': seq<string>)
    requires idx < GROUP_COLS && |parts| == |parts'| == 4
    requires forall i :: 0 <= i < 3 ==> parts[i] == parts'[i]
    ensures GroupOf(value, idx, parts) == GroupOf(value, idx, parts')
  {}

  /** The matchers read closed fields only. */
  lemma UserReadsFields(value: string, idx: nat, line: string) returns (parts: seq<string>)
    requires idx < USER_COLS && Count(line, ':') >= USER_COLS
    ensures |parts| == 7 && forall i :: 0 <= i < 6 ==> parts[i] == Field(line, ':', i)
    ensures SplitUser(value, idx, line) == UserOf(value, idx, parts)
  {
    SplitNFields(line, ':', 7);
    parts := SplitN(line, ':', 7);
  }

  lemma GroupReadsFields(value: string, idx: nat, line: string) returns (parts: seq<string>)
    requires idx < GROUP_COLS && Count(line, ':') >= GROUP_COLS
    ensures |parts| == 4 && forall i :: 0 <= i < 3 ==> parts[i] == Field(line, ':', i)
    ensures SplitGroup(value, idx, line) == GroupOf(value, idx, parts)
  {
    SplitNFields(line, ':', 4);
    parts := SplitN(line, ':', 4);
  }

  /** Splitting a record written out field by field gives those fields. */
  lemma SplitUserRow(value: string, idx: nat, parts: seq<string>)
    requires idx <= USER_COLS && |parts| == 7
    requires forall k :: 0 <= k < 6 ==> ':' !in parts[k]
    ensures SplitUser(value, idx, Join(parts, ":")) ==
            if parts[idx] == value && !BadName(parts[0]) && Atoi(parts[2]) != None && Atoi(parts[3]) != None
            then Found(User(parts[0], parts[2], parts[3], BeforeComma(parts[4]), parts[5])) else Nothing
  {
    SplitNOfJoin(parts, ':');
    SplitNFields(Join(parts, ":"), ':', 7);
  }

  /** A record written out field by field is read back as that record, for any id text asked for:
      found exactly when the id field is the text asked for and the record is well formed. */
  lemma UserRowReadsBack(value: string, name: string, pw: string, uid: string, gid: string,
                         gecos: string, home: string, rest: string)
    requires forall f :: f in [name, pw, uid, gid, gecos, home] ==> ':' !in f
    ensures MatchUserIndexValue(value, 2)(Join([name, pw, uid, gid, gecos, home, rest], ":")) ==
            if uid == value && !BadName(name) && Atoi(uid) != None && Atoi(gid) != None
            then Found(User(name, uid, gid, BeforeComma(gecos), home)) else Nothing
  {
    var fields := [name, pw, uid, gid, gecos, home];
    var parts := [name, pw, uid, gid, gecos, home, rest];
    assert forall k :: 0 <= k < 6 ==> parts[k] == fields[k];
    SplitUserRow(value, 2, parts);
    UserPrefilterRedundant(value, 2, Join(parts, ":"));
  }

  lemma GroupRowReadsBack(value: string, name: string, pw: string, gid: string, rest: string)
    requires ':' !in name && ':' !in pw && ':' !in gid
    ensures MatchGroupIndexValue(value, 2)(Join([name, pw, gid, rest], ":")) ==
            if gid == value && !BadName(name) && Atoi(gid) != None then Found(Group(name, gid)) else Nothing
  {
    var parts := [name, pw, gid, rest];
    var line := Join(parts, ":");
    SplitNOfJoin(parts, ':');
    SplitNFields(line, ':', 4);
    GroupPrefilterRedundant(value, 2, line);
  }

  /* ---------- the substring test ---------- */

  lemma UserPrefilterRedundant(value: string, idx: nat, line: string)
    requires idx < USER_COLS
    ensures MatchUserIndexValue(value, idx)(line) == SplitUser(value, idx, line)
  {
    if Count(line, ':') >= USER_COLS {
      var parts := UserReadsFields(value, idx, line);
      FieldOccurs(line, ':', idx);
    }
  }

  lemma GroupPrefilterRedundant(value: string, idx: nat, line: string)
    requires idx < GROUP_COLS
    ensures MatchGroupIndexValue(value, idx)(line) == SplitGroup(value, idx, line)
  {
    if Count(line, ':') >= GROUP_COLS {
      var parts := GroupReadsFields(value, idx, line);
      FieldOccurs(line, ':', idx);
    }
  }

  /** The test is redundant exactly for the fields that a colon closes. */
  lemma UserPrefilterExact(idx: nat)
    requires idx <= USER_COLS
    ensures (forall value, line :: MatchUserIndexValue(value, idx)(line) == SplitUser(value, idx, line))
            <==> idx < USER_COLS
  {
    if idx < USER_COLS {
      forall value, line ensures MatchUserIndexValue(value, idx)(line) == SplitUser(value, idx, line) {
        UserPrefilterRedundant(value, idx, line);
      }
    } else {
      var line := UnclosedFieldLine();
      assert MatchUserIndexValue("z", idx)(line) != SplitUser("z", idx, line);
    }
  }

  /** A record whose seventh field is asked for: no colon follows it, so the test rejects the line. */
  lemma UnclosedFieldLine() returns (line: string)
    ensures SplitUser("z", 6, line).Found? && !Contains(line, Probe("z", 6))
  {
    var parts := ["a", "x", "1", "2", "g", "h", "z"];
    line := Join(parts, ":");
    UnclosedFieldText();
    NothingAfterLast("a:x:1:2:g:h:", 'z', ":", ":");
    SplitUserRow("z", 6, parts);
    OneDigit(parts[2]);
    OneDigit(parts[3]);
  }

  lemma UnclosedFieldText()
    ensures Join(["a", "x", "1", "2", "g", "h", "z"], ":") == "a:x:1:2:g:h:" + ['z']
  {
    assert Join(["a", "x", "1", "2", "g", "h", "z"], ":") == "a:x:1:2:g:h:z";
  }

  lemma NothingAfterLast(init: string, z: char, before: string, after: string)
    requires z !in init && after != ""
    ensures !Contains(init + [z], before + ([z] + after))
  {
    var line, sub := init + [z], before + ([z] + after);
    forall i ensures !MatchAt(line, sub, i) {
      if 0 <= i <= |line| - |sub| {
        assert line[i..i + |sub|][|before|] == line[i + |before|] == init[i + |before|];
        assert sub[|before|] == z;
      }
    }
  }

  /* ---------- prefix stability ---------- */

  lemma UserStableAt(value: string, idx: nat, p: string, t: string)
    requires idx < USER_COLS && Count(p, ':') >= USER_COLS
    ensures MatchUserIndexValue(value, idx)(Trim(p)) == MatchUserIndexValue(value, idx)(Trim(p + t))
  {
    var line, line' := Trim(p), Trim(p + t);
    TrimStable(p, t);
    UserPrefilterRedundant(value, idx, line);
    UserPrefilterRedundant(value, idx, line');
    var parts := UserReadsFields(value, idx, line);
    var parts' := UserReadsFields(value, idx, line');
    UserOfClosed(value, idx, parts, parts');
  }

  lemma GroupStableAt(value: string, idx: nat, p: string, t: string)
    requires idx < GROUP_COLS && Count(p, ':') >= GROUP_COLS
    ensures MatchGroupIndexValue(value, idx)(Trim(p)) == MatchGroupIndexValue(value, idx)(Trim(p + t))
  {
    var line, line' := Trim(p), Trim(p + t);
    TrimStable(p, t);
    GroupPrefilterRedundant(value, idx, line);
    GroupPrefilterRedundant(value, idx, line');
    var parts := GroupReadsFields(value, idx, line);
    var parts' := GroupReadsFields(value, idx, line');
    GroupOfClosed(value, idx, parts, parts');
  }

  lemma UserMatcherStable(value: string, idx: nat)
    requires idx < USER_COLS
    ensures Stable(MatchUserIndexValue(value, idx), USER_COLS)
  {
    forall p: string, t: string | Count(p, ':') >= USER_COLS
      ensures MatchUserIndexValue(value, idx)(Trim(p)) == MatchUserIndexValue(value, idx)(Trim(p + t))
    {
      UserStableAt(value, idx, p, t);
    }
    forall p: string | Count(p, ':') < USER_COLS ensures MatchUserIndexValue(value, idx)(Trim(p)) == Nothing {
      TrimKeepsFew(p, USER_COLS);
    }
  }

  lemma GroupMatcherStable(value: string, idx: nat)
    requires idx < GROUP_COLS
    ensures Stable(MatchGroupIndexValue(value, idx), GROUP_COLS)
  {
    forall p: string, t: string | Count(p, ':') >= GROUP_COLS
      ensures MatchGroupIndexValue(value, idx)(Trim(p)) == MatchGroupIndexValue(value, idx)(Trim(p + t))
    {
      GroupStableAt(value, idx, p, t);
    }
    forall p: string | Count(p, ':') < GROUP_COLS ensures MatchGroupIndexValue(value, idx)(Trim(p)) == Nothing {
      TrimKeepsFew(p, GROUP_COLS);
    }
  }

  /* ---------- lookups ---------- */

  function Answer<T>(scan: Outcome<T>, id: string): Result<T> {
    match scan
    case Found(v) => Ok(v)
    case Error(m) => Failed(ReadFailed(m))
    case Nothing => Failed(UnknownId(id))
  }

  function UserById(uid: string, cs: seq<Chunk>, end: End): Result<User> {
    if Atoi(uid) == None then Failed(InvalidId(uid))
    else Answer(ScanChunks(cs, end, MatchUserIndexValue(uid, 2), USER_COLS), uid)
  }

  function GroupById(gid: string, cs: seq<Chunk>, end: End): Result<Group> {
    Answer(ScanChunks(cs, end, MatchGroupIndexValue(gid, 2), GROUP_COLS), gid)
  }

  method FindUserId(uid: string, r: LineReader) returns (res: Result<User>)
    modifies r
    ensures res == UserById(uid, old(r.chunks), r.end)
  {
    if Atoi(uid) == None {
      return Failed(InvalidId(uid));
    }
    var v := ReadColonFile(r, MatchUserIndexValue(uid, 2), 6);
    match v
    case Error(m) => return Failed(ReadFailed(m));
    case Found(u) => return Ok(u);
    case Nothing => return Failed(UnknownId(uid));
  }

  method FindGroupId(id: string, r: LineReader) returns (res: Result<Group>)
    modifies r
    ensures res == GroupById(id, old(r.chunks), r.end)
  {
    var v := ReadColonFile(r, MatchGroupIndexValue(id, 2), 3);
    match v
    case Error(m) => return Failed(ReadFailed(m));
    case Found(g) => return Ok(g);
    case Nothing => return Failed(UnknownId(id));
  }

  /** The whole-line meaning of the two lookups: scan complete trimmed lines for the first that matches. */
  function UserInLines(uid: string, lines: seq<string>, end: End): Result<User> {
    if Atoi(uid) == None then Failed(InvalidId(uid))
    else Answer(ScanLines(lines, end, MatchUserIndexValue(uid, 2)), uid)
  }

  function GroupInLines(gid: string, lines: seq<string>, end: End): Result<Group> {
    Answer(ScanLines(lines, end, MatchGroupIndexValue(gid, 2)), gid)
  }

  /** Main result for both lookups: reading in chunks, stopping early and skipping ahead change no answer,
      however the lines are cut and however the file ends, as long as no comment is cut. */
  lemma LookupsRefineWholeLines(id: string, cs: seq<Chunk>, end: End)
    ensures NoCommentCut(cs, USER_COLS) ==> UserById(id, cs, end) == UserInLines(id, Lines(cs), end)
    ensures NoCommentCut(cs, GROUP_COLS) ==> GroupById(id, cs, end) == GroupInLines(id, Lines(cs), end)
  {
    UserMatcherStable(id, 2);
    GroupMatcherStable(id, 2);
    if NoCommentCut(cs, USER_COLS) {
      ScanRefinesWholeLines(cs, end, MatchUserIndexValue(id, 2), USER_COLS);
    }
    if NoCommentCut(cs, GROUP_COLS) {
      ScanRefinesWholeLines(cs, end, MatchGroupIndexValue(id, 2), GROUP_COLS);
    }
  }

  /* ---------- a comment that is found as a record ---------- */

  /** A row of `n` fields and what follows them, written so that it survives trimming. */
  ghost predicate PlainRow(row: seq<string>, n: nat) {
    && |row| == n + 1 && (forall k :: 0 <= k < n ==> ':' !in row[k])
    && n > 0 && row[0] != "" && '!' <= row[0][0] <= '~' && row[0][0] !in "#+-"
  }

  ghost predicate GoodUserRow(row: seq<string>) {
    PlainRow(row, USER_COLS) && Atoi(row[2]) != None && Atoi(row[3]) != None
  }

  ghost predicate GoodGroupRow(row: seq<string>) {
    PlainRow(row, GROUP_COLS) && Atoi(row[2]) != None
  }

  /** The fields of a record are those it is written with. */
  lemma WrittenFields(row: seq<string>, n: nat, line: string)
    requires PlainRow(row, n) && line == Join(row, ":")
    ensures line != "" && line[0] == row[0][0] && Count(line, ':') >= n
    ensures forall i :: 0 <= i < n ==> Field(line, ':', i) == row[i]
  {
    SplitNOfJoin(row, ':');
    SplitNFields(line, ':', n + 1);
    forall i | 0 <= i < n ensures Field(line, ':', i) == row[i] {
      assert SplitN(line, ':', n + 1)[i] == Field(line, ':', i);
    }
  }

  /** A line that starts with a printable byte keeps its closed fields when trimmed. */
  lemma TrimPrintable(line: string, n: nat)
    requires n > 0 && line != "" && '!' <= line[0] <= '~' && Count(line, ':') >= n
    ensures Trim(line) != "" && Trim(line)[0] == line[0] && Count(Trim(line), ':') >= n
    ensures forall i :: 0 <= i < n ==> Field(Trim(line), ':', i) == Field(line, ':', i)
  {
    assert LeadSpace(line) == 0;
    TrimField(line, 0);
    TrimFirstByte(line);
    forall i | 0 <= i < n ensures Field(Trim(line), ':', i) == Field(line, ':', i) {
      TrimField(line, i);
    }
  }

  lemma MatchedUserRow(id: string, line: string, row: seq<string>)
    requires |row| == 7 && Count(line, ':') >= USER_COLS
    requires forall i :: 0 <= i < 6 ==> Field(line, ':', i) == row[i]
    ensures MatchUserIndexValue(id, 2)(line) == UserOf(id, 2, row)
  {
    var parts := UserReadsFields(id, 2, line);
    UserOfClosed(id, 2, parts, row);
    UserPrefilterRedundant(id, 2, line);
  }

  lemma MatchedGroupRow(id: string, line: string, row: seq<string>)
    requires |row| == 4 && Count(line, ':') >= GROUP_COLS
    requires forall i :: 0 <= i < 3 ==> Field(line, ':', i) == row[i]
    ensures MatchGroupIndexValue(id, 2)(line) == GroupOf(id, 2, row)
  {
    var parts := GroupReadsFields(id, 2, line);
    GroupOfClosed(id, 2, parts, row);
    GroupPrefilterRedundant(id, 2, line);
  }

  /** Such a line survives trimming as it is, as far as the fields go, and is not ignored. */
  lemma PlainLine(row: seq<string>, n: nat, line: string)
    requires PlainRow(row, n) && line == Join(row, ":")
    ensures Count(Trim(line), ':') >= n && !Ignored(Trim(line))
    ensures forall i :: 0 <= i < n ==> Field(Trim(line), ':', i) == row[i]
  {
    WrittenFields(row, n, line);
    TrimPrintable(line, n);
    assert row[0][0] != '#';
  }

  lemma GoodUserRowMatches(row: seq<string>)
    requires GoodUserRow(row)
    ensures UserOf(row[2], 2, row) == Found(User(row[0], row[2], row[3], BeforeComma(row[4]), row[5]))
  {}

  /** The line that such a record is written on is judged to be that record. */
  lemma UserRowJudged(row: seq<string>, line: string)
    requires GoodUserRow(row) && line == Join(row, ":")
    ensures Judge(MatchUserIndexValue(row[2], 2), line)
         == Found(User(row[0], row[2], row[3], BeforeComma(row[4]), row[5]))
  {
    PlainLine(row, USER_COLS, line);
    MatchedUserRow(row[2], Trim(line), row);
    GoodUserRowMatches(row);
  }

  lemma GoodGroupRowMatches(row: seq<string>)
    requires GoodGroupRow(row)
    ensures GroupOf(row[2], 2, row) == Found(Group(row[0], row[2]))
  {}

  lemma GroupRowJudged(row: seq<string>, line: string)
    requires GoodGroupRow(row) && line == Join(row, ":")
    ensures Judge(MatchGroupIndexValue(row[2], 2), line) == Found(Group(row[0], row[2]))
  {
    PlainLine(row, GROUP_COLS, line);
    MatchedGroupRow(row[2], Trim(line), row);
    GoodGroupRowMatches(row);
  }

  /** A user that no line of the file names can be found: the file is one long comment, cut after six colons,
      and the rest of it reads like a record. */
  lemma CommentTailFoundAsUser(head: string, row: seq<string>, end: End)
    requires head != "" && head[0] == '#' && Count(head, ':') >= USER_COLS
    requires GoodUserRow(row)
    ensures var cs := [Chunk(head, true), Chunk(Join(row, ":"), false)];
            && UserById(row[2], cs, end) == Ok(User(row[0], row[2], row[3], BeforeComma(row[4]), row[5]))
            && UserInLines(row[2], Lines(cs), EOF) == Failed(UnknownId(row[2]))
            && |Lines(cs)| == 1 && Comment(Trim(Lines(cs)[0]))
  {
    var tail := Join(row, ":");
    var fn := MatchUserIndexValue(row[2], 2);
    UserMatcherStable(row[2], 2);
    UserRowJudged(row, tail);
    CutCommentIsReadAsRecord(head, tail, end, fn, USER_COLS);
    CutCommentIsReadAsRecord(head, tail, EOF, fn, USER_COLS);
    CutCommentShape(head, tail, USER_COLS);
  }

  /** And so can a group, after three colons. */
  lemma CommentTailFoundAsGroup(head: string, row: seq<string>, end: End)
    requires head != "" && head[0] == '#' && Count(head, ':') >= GROUP_COLS
    requires GoodGroupRow(row)
    ensures var cs := [Chunk(head, true), Chunk(Join(row, ":"), false)];
            && GroupById(row[2], cs, end) == Ok(Group(row[0], row[2]))
            && GroupInLines(row[2], Lines(cs), EOF) == Failed(UnknownId(row[2]))
            && |Lines(cs)| == 1 && Comment(Trim(Lines(cs)[0]))
  {
    var tail := Join(row, ":");
    var fn := MatchGroupIndexValue(row[2], 2);
    GroupMatcherStable(row[2], 2);
    GroupRowJudged(row, tail);
    CutCommentIsReadAsRecord(head, tail, end, fn, GROUP_COLS);
    CutCommentIsReadAsRecord(head, tail, EOF, fn, GROUP_COLS);
    CutCommentShape(head, tail, GROUP_COLS);
  }
}
