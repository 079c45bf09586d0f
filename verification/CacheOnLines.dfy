/** What the cached answers are, in terms of the whole lines of the files. */
module CacheOnLines {
  import opened Wrappers
  import opened Decimal
  import opened ColonFile
  import opened Accounts
  import opened AccountsExact
  import opened NameCache

  /** The name on the first whole line that holds a record with this id. */
  function LookupOnLines(k: Key, files: Files): Result<string> {
    match k.kind
    case UserName =>
      var path := k.root + "/etc/passwd";
      if path !in files then Failed(CannotOpen)
      else (match UserInLines(Itoa(k.id), Lines(files[path].chunks), files[path].end)
            case Ok(u) => Ok(u.username)
            case Failed(e) => Failed(e))
    case GroupName =>
      var path := k.root + "/etc/group";
      if path !in files then Failed(CannotOpen)
      else (match GroupInLines(Itoa(k.id), Lines(files[path].chunks), files[path].end)
            case Ok(g) => Ok(g.name)
            case Failed(e) => Failed(e))
  }

  /** No cut comment of the file in question brings in another record for this id. */
  ghost predicate Undisturbed(k: Key, files: Files) {
    match k.kind
    case UserName =>
      var path := k.root + "/etc/passwd";
      path in files ==> SameFor(UsersMet(files[path].chunks), Users(Lines(files[path].chunks)), Itoa(k.id))
    case GroupName =>
      var path := k.root + "/etc/group";
      path in files ==> SameFor(GroupsMet(files[path].chunks), Groups(Lines(files[path].chunks)), Itoa(k.id))
  }

  lemma LookupIsOnLines(k: Key, files: Files)
    requires Undisturbed(k, files)
    ensures Lookup(k, files) == LookupOnLines(k, files)
  {
    var path := k.root + if k.kind == UserName then "/etc/passwd" else "/etc/group";
    if path in files {
      UserLookupRightExactly(Itoa(k.id), files[path].chunks, files[path].end);
      GroupLookupRightExactly(Itoa(k.id), files[path].chunks, files[path].end);
    }
  }

  /** The name found by the first query for `k` whose files have it on a whole line. */
  function FirstOnLines(queries: seq<Query>, k: Key): Option<string> {
    if queries == [] then None
    else
      var last := queries[|queries| - 1];
      match FirstOnLines(queries[..|queries| - 1], k)
      case Some(name) => Some(name)
      case None =>
        if last.key == k && LookupOnLines(k, last.files).Ok? then Some(LookupOnLines(k, last.files).value) else None
  }

  lemma {:induction false} FirstFoundIsOnLines(queries: seq<Query>, k: Key)
    requires forall i :: 0 <= i < |queries| ==> Undisturbed(queries[i].key, queries[i].files)
    ensures FirstFound(queries, k) == FirstOnLines(queries, k)
  {
    if queries == [] {
    } else {
      var last := queries[|queries| - 1];
      FirstFoundIsOnLines(queries[..|queries| - 1], k);
      LookupIsOnLines(last.key, last.files);
    }
  }

  /** Main result: over any run on files whose cut comments disturb no id asked for, every answer is the name that
      the whole lines first gave for its key, or what the whole lines say now if they never gave one. */
  lemma AnswersAreOnLines(queries: seq<Query>, answers: seq<Result<string>>, caches: seq<Items>, i: nat)
    requires IsRun(queries, answers, caches) && i < |queries|
    requires forall j :: 0 <= j < |queries| ==> Undisturbed(queries[j].key, queries[j].files)
    ensures answers[i] == match FirstOnLines(queries[..i], queries[i].key)
                          case Some(name) => Ok(name)
                          case None => LookupOnLines(queries[i].key, queries[i].files)
  {
    AnswersAreFirstFound(queries, answers, caches, i);
    FirstFoundIsOnLines(queries[..i], queries[i].key);
    LookupIsOnLines(queries[i].key, queries[i].files);
  }
}
