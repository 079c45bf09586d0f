/** On which files the user and group lookups are right: what each scan knows, as a directory from id to record. */
module AccountsExact {
  import opened Wrappers
  import opened Strings
  import opened Decimal
  import opened Whitespace
  import opened ColonFile
  import opened ColonScan
  import opened Accounts

  /* ---------- users ---------- */

  /** The user that a line holds, whichever id is asked for. */
  function UserOn(line: string): Option<User> {
    var trimmed := Trim(line);
    if Ignored(trimmed) || Count(trimmed, ':') < USER_COLS then None
    else
      SplitNFields(trimmed, ':', 7);
      var parts := SplitN(trimmed, ':', 7);
      if BadName(parts[0]) || Atoi(parts[2]) == None || Atoi(parts[3]) == None then None
      else Some(User(parts[0], parts[2], parts[3], BeforeComma(parts[4]), parts[5]))
  }

  /** The first user for each id. */
  function Users(lines: seq<string>): map<string, User> {
    if lines == [] then map[]
    else match UserOn(lines[0])
      case None => Users(lines[1..])
      case Some(u) => Users(lines[1..])[u.uid := u]
  }

  lemma JudgedByUser(uid: string, line: string)
    ensures Judge(MatchUserIndexValue(uid, 2), line) ==
            match UserOn(line)
            case None => Nothing
            case Some(u) => if u.uid == uid then Found(u) else Nothing
  {
    if !Ignored(Trim(line)) {
      UserPrefilterRedundant(uid, 2, Trim(line));
    }
  }

  lemma {:induction false} ScanByUsers(uid: string, lines: seq<string>, end: End)
    ensures ScanLines(lines, end, MatchUserIndexValue(uid, 2)) ==
            if uid in Users(lines) then Found(Users(lines)[uid]) else AtEnd(end)
  {
    if lines == [] {
    } else {
      JudgedByUser(uid, lines[0]);
      ScanByUsers(uid, lines[1..], end);
    }
  }

  lemma {:induction false} UserIdsAreNumbers(lines: seq<string>)
    ensures forall uid :: uid in Users(lines) ==> Atoi(uid) != None
  {
    if lines == [] {
    } else {
      UserIdsAreNumbers(lines[1..]);
    }
  }

  /** Two directories say the same about an id. */
  ghost predicate SameFor<T(!new)>(a: map<string, T>, b: map<string, T>, id: string) {
    (id in a <==> id in b) && (id in a ==> a[id] == b[id])
  }

  lemma SameForAll<T(!new)>(a: map<string, T>, b: map<string, T>)
    ensures (forall id :: SameFor(a, b, id)) <==> a == b
  {
    if forall id :: SameFor(a, b, id) {
      forall id ensures id in a <==> id in b {
        assert SameFor(a, b, id);
      }
      forall id | id in a ensures a[id] == b[id] {
        assert SameFor(a, b, id);
      }
      assert a.Keys == b.Keys;
    }
  }

  /** The users that the scan in chunks comes across, the tails of cut comments included. */
  function UsersMet(cs: seq<Chunk>): map<string, User> {
    Users(Texts(Fragments(cs, USER_COLS, true)))
  }

  /** One lookup is right exactly when the users met and those on whole lines agree on that id. */
  lemma UserLookupRightExactly(uid: string, cs: seq<Chunk>, end: End)
    ensures UserById(uid, cs, end) == UserInLines(uid, Lines(cs), end) <==>
            SameFor(UsersMet(cs), Users(Lines(cs)), uid)
  {
    var texts := Texts(Fragments(cs, USER_COLS, true));
    UserMatcherStable(uid, 2);
    ScanReadsFragments(cs, end, MatchUserIndexValue(uid, 2), USER_COLS, true);
    ScanByUsers(uid, texts, end);
    ScanByUsers(uid, Lines(cs), end);
    UserIdsAreNumbers(texts);
    UserIdsAreNumbers(Lines(cs));
  }

  ghost predicate UserLookupsRight(cs: seq<Chunk>) {
    forall uid, end :: UserById(uid, cs, end) == UserInLines(uid, Lines(cs), end)
  }

  /** Main result: all user lookups in a file are right exactly when the scan in chunks comes across the same
      first user for each id as the whole lines do. */
  lemma UserLookupsRightExactly(cs: seq<Chunk>)
    ensures UserLookupsRight(cs) <==> UsersMet(cs) == Users(Lines(cs))
  {
    forall uid, end
      ensures UserById(uid, cs, end) == UserInLines(uid, Lines(cs), end) <==>
              SameFor(UsersMet(cs), Users(Lines(cs)), uid)
    {
      UserLookupRightExactly(uid, cs, end);
    }
    SameForAll(UsersMet(cs), Users(Lines(cs)));
    if UserLookupsRight(cs) {
      forall uid ensures SameFor(UsersMet(cs), Users(Lines(cs)), uid) {
        assert UserById(uid, cs, EOF) == UserInLines(uid, Lines(cs), EOF);
      }
    }
  }

  /* ---------- groups ---------- */

  function GroupOn(line: string): Option<Group> {
    var trimmed := Trim(line);
    if Ignored(trimmed) || Count(trimmed, ':') < GROUP_COLS then None
    else
      SplitNFields(trimmed, ':', 4);
      var parts := SplitN(trimmed, ':', 4);
      if BadName(parts[0]) || Atoi(parts[2]) == None then None else Some(Group(parts[0], parts[2]))
  }

  function Groups(lines: seq<string>): map<string, Group> {
    if lines == [] then map[]
    else match GroupOn(lines[0])
      case None => Groups(lines[1..])
      case Some(g) => Groups(lines[1..])[g.gid := g]
  }

  lemma JudgedByGroup(gid: string, line: string)
    ensures Judge(MatchGroupIndexValue(gid, 2), line) ==
            match GroupOn(line)
            case None => Nothing
            case Some(g) => if g.gid == gid then Found(g) else Nothing
  {
    if !Ignored(Trim(line)) {
      GroupPrefilterRedundant(gid, 2, Trim(line));
    }
  }

  lemma {:induction false} ScanByGroups(gid: string, lines: seq<string>, end: End)
    ensures ScanLines(lines, end, MatchGroupIndexValue(gid, 2)) ==
            if gid in Groups(lines) then Found(Groups(lines)[gid]) else AtEnd(end)
  {
    if lines == [] {
    } else {
      JudgedByGroup(gid, lines[0]);
      ScanByGroups(gid, lines[1..], end);
    }
  }

  function GroupsMet(cs: seq<Chunk>): map<string, Group> {
    Groups(Texts(Fragments(cs, GROUP_COLS, true)))
  }

  lemma GroupLookupRightExactly(gid: string, cs: seq<Chunk>, end: End)
    ensures GroupById(gid, cs, end) == GroupInLines(gid, Lines(cs), end) <==>
            SameFor(GroupsMet(cs), Groups(Lines(cs)), gid)
  {
    var texts := Texts(Fragments(cs, GROUP_COLS, true));
    GroupMatcherStable(gid, 2);
    ScanReadsFragments(cs, end, MatchGroupIndexValue(gid, 2), GROUP_COLS, true);
    ScanByGroups(gid, texts, end);
    ScanByGroups(gid, Lines(cs), end);
  }

  ghost predicate GroupLookupsRight(cs: seq<Chunk>) {
    forall gid, end :: GroupById(gid, cs, end) == GroupInLines(gid, Lines(cs), end)
  }

  lemma GroupLookupsRightExactly(cs: seq<Chunk>)
    ensures GroupLookupsRight(cs) <==> GroupsMet(cs) == Groups(Lines(cs))
  {
    forall gid, end
      ensures GroupById(gid, cs, end) == GroupInLines(gid, Lines(cs), end) <==>
              SameFor(GroupsMet(cs), Groups(Lines(cs)), gid)
    {
      GroupLookupRightExactly(gid, cs, end);
    }
    SameForAll(GroupsMet(cs), Groups(Lines(cs)));
    if GroupLookupsRight(cs) {
      forall gid ensures SameFor(GroupsMet(cs), Groups(Lines(cs)), gid) {
        assert GroupById(gid, cs, EOF) == GroupInLines(gid, Lines(cs), EOF);
      }
    }
  }
}
