/** The process-wide cache of user and group names, keyed by root directory and then by decimal id. */
module NameCache {
  import opened Wrappers
  import opened Decimal
  import opened ColonFile
  import opened Accounts

  /** The files that can be opened at the moment of a call, by full path, with what their reader delivers. */
  type Files = map<string, File>
  datatype File = File(chunks: seq<Chunk>, end: End)

  const USER_FILE := "/etc/passwd"
  const GROUP_FILE := "/etc/group"

  datatype Kind = UserName | GroupName
  datatype Key = Key(kind: Kind, root: string, id: int64)
  datatype Item = Item(users: map<string, string>, groups: map<string, string>)
  type Items = map<string, Item>

  /* ---------- the lookups that the cache saves ---------- */

  function LookupUser(id: int64, root: string, files: Files): Result<string> {
    var path := root + USER_FILE;
    if path !in files then Failed(CannotOpen)
    else match UserById(Itoa(id), files[path].chunks, files[path].end)
         case Ok(u) => Ok(u.username)
         case Failed(e) => Failed(e)
  }

  function LookupGroup(id: int64, root: string, files: Files): Result<string> {
    var path := root + GROUP_FILE;
    if path !in files then Failed(CannotOpen)
    else match GroupById(Itoa(id), files[path].chunks, files[path].end)
         case Ok(g) => Ok(g.name)
         case Failed(e) => Failed(e)
  }

  function Lookup(k: Key, files: Files): Result<string> {
    match k.kind
    case UserName => LookupUser(k.id, k.root, files)
    case GroupName => LookupGroup(k.id, k.root, files)
  }

  method LookupUsernameByUID(uid: int64, root: string, files: Files) returns (r: Result<string>)
    ensures r == LookupUser(uid, root, files)
  {
    var path := root + USER_FILE;
    if path !in files {
      return Failed(CannotOpen);
    }
    var f := new LineReader(files[path].chunks, files[path].end);
    var u := FindUserId(Itoa(uid), f);
    match u
    case Failed(e) => return Failed(e);
    case Ok(user) => return Ok(user.username);
  }

  method LookupGroupnameByGID(gid: int64, root: string, files: Files) returns (r: Result<string>)
    ensures r == LookupGroup(gid, root, files)
  {
    var path := root + GROUP_FILE;
    if path !in files {
      return Failed(CannotOpen);
    }
    var f := new LineReader(files[path].chunks, files[path].end);
    var g := FindGroupId(Itoa(gid), f);
    match g
    case Failed(e) => return Failed(e);
    case Ok(group) => return Ok(group.name);
  }

  /* ---------- the cache ---------- */

  function Names(item: Item, kind: Kind): map<string, string> {
    if kind == UserName then item.users else item.groups
  }

  /** The name stored for a key, seen through both levels. */
  function Stored(items: Items, k: Key): Option<string> {
    if k.root in items && Itoa(k.id) in Names(items[k.root], k.kind)
    then Some(Names(items[k.root], k.kind)[Itoa(k.id)]) else None
  }

  /** `after` holds `name` for `k` and nothing else has changed, whatever kind, root or id is asked for. */
  ghost predicate OnlyAdds(before: Items, after: Items, k: Key, name: string) {
    forall q: Key :: Stored(after, q) == if q == k then Some(name) else Stored(before, q)
  }

  /** What one query may do: a stored name is the answer; a failed lookup is reported; a successful one
      is reported and stored. Only the last changes what is stored. */
  ghost predicate Step(before: Items, k: Key, files: Files, after: Items, answer: Result<string>) {
    match Stored(before, k)
    case Some(name) => answer == Ok(name) && after == before
    case None =>
      match Lookup(k, files)
      case Failed(e) => answer == Failed(e) && after == before
      case Ok(name) => answer == Ok(name) && OnlyAdds(before, after, k, name)
  }

  class UserGroupCache {
    var items: Items

    constructor ()
      ensures items == map[]
    {
      items := map[];
    }

    method GetUserName(uid: int64, root: string, files: Files) returns (r: Result<string>)
      modifies this
      ensures Step(old(items), Key(UserName, root, uid), files, items, r)
    {
      ghost var k := Key(UserName, root, uid);
      var id := Itoa(uid);
      if root in items {
        if id in items[root].users {
          return Ok(items[root].users[id]);
        }
      }
      assert Stored(items, k) == None;
      r := LookupUsernameByUID(uid, root, files);
      if r.Failed? {
        return;
      }
      if root !in items {
        items := items[root := Item(map[], map[])];
      }
      items := items[root := items[root].(users := items[root].users[id := r.value])];
      StoringAdds(old(items), items, k, r.value);
    }

    method GetGroupName(gid: int64, root: string, files: Files) returns (r: Result<string>)
      modifies this
      ensures Step(old(items), Key(GroupName, root, gid), files, items, r)
    {
      ghost var k := Key(GroupName, root, gid);
      var id := Itoa(gid);
      if root in items {
        if id in items[root].groups {
          return Ok(items[root].groups[id]);
        }
      }
      assert Stored(items, k) == None;
      r := LookupGroupnameByGID(gid, root, files);
      if r.Failed? {
        return;
      }
      if root !in items {
        items := items[root := Item(map[], map[])];
      }
      items := items[root := items[root].(groups := items[root].groups[id := r.value])];
      StoringAdds(old(items), items, k, r.value);
    }
  }

  /** Writing under one root, kind and decimal text touches that key alone, because no two ids print alike. */
  lemma StoringAdds(before: Items, after: Items, k: Key, name: string)
    requires var item := if k.root in before then before[k.root] else Item(map[], map[]);
             after == before[k.root :=
               if k.kind == UserName then item.(users := item.users[Itoa(k.id) := name])
               else item.(groups := item.groups[Itoa(k.id) := name])]
    ensures OnlyAdds(before, after, k, name)
  {
    forall q: Key ensures Stored(after, q) == if q == k then Some(name) else Stored(before, q) {
      if q.root == k.root && q.kind == k.kind && Itoa(q.id) == Itoa(k.id) {
        ItoaInjective(q.id, k.id);
      }
    }
  }

  /* ---------- whole runs ---------- */

  datatype Query = Query(key: Key, files: Files)

  /** A run: the queries made so far, the answers given, and the caches passed through. */
  ghost predicate IsRun(queries: seq<Query>, answers: seq<Result<string>>, caches: seq<Items>) {
    && |answers| == |queries| && |caches| == |queries| + 1
    && caches[0] == map[]
    && forall i :: 0 <= i < |queries| ==>
         Step(caches[i], queries[i].key, queries[i].files, caches[i + 1], answers[i])
  }

  /** The name found by the first successful lookup of `k` among the queries. */
  function FirstFound(queries: seq<Query>, k: Key): Option<string> {
    if queries == [] then None
    else
      var last := queries[|queries| - 1];
      match FirstFound(queries[..|queries| - 1], k)
      case Some(name) => Some(name)
      case None =>
        if last.key == k && Lookup(k, last.files).Ok? then Some(Lookup(k, last.files).value) else None
  }

  /** At every point of every run the cache holds, for each key, what its first successful lookup found. */
  lemma {:induction false} CacheHoldsFirstFound(
      queries: seq<Query>, answers: seq<Result<string>>, caches: seq<Items>, n: nat, k: Key)
    requires IsRun(queries, answers, caches) && n <= |queries|
    ensures Stored(caches[n], k) == FirstFound(queries[..n], k)
    decreases n
  {
    if n == 0 {
    } else {
      CacheHoldsFirstFound(queries, answers, caches, n - 1, k);
      var q := queries[n - 1];
      assert queries[..n][..n - 1] == queries[..n - 1];
      assert Step(caches[n - 1], q.key, q.files, caches[n], answers[n - 1]);
    }
  }

  /** Main result: over any run, with files changing between calls, the answer to a query is the name its
      key's first successful lookup found, and the current lookup when there was none before. */
  lemma AnswersAreFirstFound(queries: seq<Query>, answers: seq<Result<string>>, caches: seq<Items>, i: nat)
    requires IsRun(queries, answers, caches) && i < |queries|
    ensures answers[i] == match FirstFound(queries[..i], queries[i].key)
                          case Some(name) => Ok(name)
                          case None => Lookup(queries[i].key, queries[i].files)
  {
    CacheHoldsFirstFound(queries, answers, caches, i, queries[i].key);
    assert Step(caches[i], queries[i].key, queries[i].files, caches[i + 1], answers[i]);
  }

  /** With unchanged files the cache is invisible: every answer is the direct lookup. */
  lemma UnchangedFilesHideCache(queries: seq<Query>, answers: seq<Result<string>>, caches: seq<Items>, i: nat)
    requires IsRun(queries, answers, caches) && i < |queries|
    requires forall j :: 0 <= j < |queries| ==> queries[j].files == queries[i].files
    ensures answers[i] == Lookup(queries[i].key, queries[i].files)
  {
    AnswersAreFirstFound(queries, answers, caches, i);
    FirstFoundInSameFiles(queries[..i], queries[i].key, queries[i].files);
  }

  lemma {:induction false} FirstFoundInSameFiles(queries: seq<Query>, k: Key, files: Files)
    requires forall j :: 0 <= j < |queries| ==> queries[j].files == files
    ensures FirstFound(queries, k).Some? ==> Lookup(k, files) == Ok(FirstFound(queries, k).value)
  {
    if queries == [] {
    } else {
      FirstFoundInSameFiles(queries[..|queries| - 1], k, files);
    }
  }

  /** A name once answered is answered again by every later query for the same key, whatever the files. */
  lemma AnswersPersist(queries: seq<Query>, answers: seq<Result<string>>, caches: seq<Items>, i: nat, j: nat)
    requires IsRun(queries, answers, caches) && i < j < |queries|
    requires queries[j].key == queries[i].key && answers[i].Ok?
    ensures answers[j] == answers[i]
  {
    AnswersAreFirstFound(queries, answers, caches, i);
    AnswersAreFirstFound(queries, answers, caches, j);
    assert queries[..i + 1][..i] == queries[..i];
    assert queries[..i + 1][i] == queries[i];
    FirstFoundGrows(queries, i + 1, j, queries[i].key);
  }

  lemma {:induction false} FirstFoundGrows(queries: seq<Query>, m: nat, n: nat, k: Key)
    requires m <= n <= |queries| && FirstFound(queries[..m], k).Some?
    ensures FirstFound(queries[..n], k) == FirstFound(queries[..m], k)
    decreases n
  {
    if m == n {
    } else {
      FirstFoundGrows(queries, m, n - 1, k);
      assert queries[..n][..n - 1] == queries[..n - 1];
    }
  }

  /** An id made from a number is never reported as malformed. */
  lemma NoInvalidId(k: Key, files: Files, id: string)
    ensures Lookup(k, files) != Failed(InvalidId(id))
  {
    AtoiItoa(k.id);
  }
}
