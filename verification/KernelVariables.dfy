/** Reading every kernel variable below a directory: all of them or none. */
module KernelVariables {
  import opened Sequences

  type Path = seq<string>

  datatype Variable = Variable(key: string, value: string, source: Path)

  /** How opening a directory entry turns out. A regular file comes with the bytes that copying it yields and
      whether the copy reaches its end; a directory hands out its entries in batches and ends properly or with an
      error. */
  datatype Entry =
    | Denied                                     // "permission denied"
    | OpenFails                                  // any other error
    | StatFails                                  // opened, but without file information
    | Regular(content: string, copied: bool)
    | Special                                    // neither a directory nor a regular file
    | Dir(batches: seq<Batch>, ends: bool)

  datatype Batch = Batch(entries: seq<Named>)
  datatype Named = Named(name: string, entry: Entry)

  /** `Panicked` is the nil dereference that follows when file information is missing. */
  datatype Result = Vars(list: seq<Variable>) | Failed | Panicked

  datatype Verdict = Fine | GivesUp | Panics

  /* ---------- what a walk returns ---------- */

  /** The variables at and below an entry in depth-first order, as far as they can be opened at all. */
  function Dfs(e: Entry, name: string, path: Path): seq<Variable>
    decreases e, 2, 0
  {
    match e
    case Regular(content, _) => [Variable(name, content, path)]
    case Dir(_, _) => DfsFrom(e, 0, path)
    case _ => []
  }

  /** Those of a directory from batch `b` on. */
  function DfsFrom(d: Entry, b: nat, path: Path): seq<Variable>
    requires d.Dir? && b <= |d.batches|
    decreases d, 1, |d.batches| - b
  {
    if b == |d.batches| then [] else DfsBatch(d, b, 0, path) + DfsFrom(d, b + 1, path)
  }

  /** Those of one batch from entry `i` on. */
  function DfsBatch(d: Entry, b: nat, i: nat, path: Path): seq<Variable>
    requires d.Dir? && b < |d.batches| && i <= |d.batches[b].entries|
    decreases d, 0, |d.batches[b].entries| - i
  {
    if i == |d.batches[b].entries| then []
    else
      var Named(name, entry) := d.batches[b].entries[i];
      Dfs(entry, name, path + [name]) + DfsBatch(d, b, i + 1, path)
  }

  /** The first thing that goes wrong at or below an entry, in the order of the walk. A directory that breaks off
      does so after its entries. */
  function Check(e: Entry): Verdict
    decreases e, 2, 0
  {
    match e
    case OpenFails => GivesUp
    case StatFails => Panics
    case Dir(_, _) => CheckFrom(e, 0)
    case _ => Fine
  }

  function CheckFrom(d: Entry, b: nat): Verdict
    requires d.Dir? && b <= |d.batches|
    decreases d, 1, |d.batches| - b
  {
    if b == |d.batches| then (if d.ends then Fine else GivesUp)
    else if CheckBatch(d, b, 0) != Fine then CheckBatch(d, b, 0)
    else CheckFrom(d, b + 1)
  }

  function CheckBatch(d: Entry, b: nat, i: nat): Verdict
    requires d.Dir? && b < |d.batches| && i <= |d.batches[b].entries|
    decreases d, 0, |d.batches[b].entries| - i
  {
    if i == |d.batches[b].entries| then Fine
    else if Check(d.batches[b].entries[i].entry) != Fine then Check(d.batches[b].entries[i].entry)
    else CheckBatch(d, b, i + 1)
  }

  lemma OneEntry(d: Entry, b: nat, i: nat, path: Path)
    requires d.Dir? && b < |d.batches| && i < |d.batches[b].entries|
    ensures var Named(name, entry) := d.batches[b].entries[i];
            && DfsBatch(d, b, i, path) == Dfs(entry, name, path + [name]) + DfsBatch(d, b, i + 1, path)
            && CheckBatch(d, b, i) == (if Check(entry) != Fine then Check(entry) else CheckBatch(d, b, i + 1))
  {}

  lemma OneBatch(d: Entry, b: nat, path: Path)
    requires d.Dir? && b < |d.batches|
    ensures DfsFrom(d, b, path) == DfsBatch(d, b, 0, path) + DfsFrom(d, b + 1, path)
    ensures CheckFrom(d, b) == if CheckBatch(d, b, 0) != Fine then CheckBatch(d, b, 0) else CheckFrom(d, b + 1)
  {}

  /** On success exactly the depth-first list, and success exactly when nothing at any depth goes wrong;
      otherwise no list at all. */
  method WalkVarsDir(dirPath: Path, procDir: Entry) returns (r: Result)
    requires procDir.Dir?
    ensures r == match Check(procDir)
                 case Fine => Vars(DfsFrom(procDir, 0, dirPath))
                 case GivesUp => Failed
                 case Panics => Panicked
    decreases procDir
  {
    var varsList: seq<Variable> := [];
    var batches := procDir.batches;
    var b := 0;
    while b < |batches|
      invariant b <= |batches|
      invariant varsList + DfsFrom(procDir, b, dirPath) == DfsFrom(procDir, 0, dirPath)
      invariant Check(procDir) == CheckFrom(procDir, b)
    {
      var varsNames := batches[b].entries;
      ghost var goal := varsList + DfsBatch(procDir, b, 0, dirPath);
      OneBatch(procDir, b, dirPath);
      Assoc(varsList, DfsBatch(procDir, b, 0, dirPath), DfsFrom(procDir, b + 1, dirPath));
      var i := 0;
      while i < |varsNames|
        invariant i <= |varsNames|
        invariant varsList + DfsBatch(procDir, b, i, dirPath) == goal
        invariant CheckBatch(procDir, b, 0) == CheckBatch(procDir, b, i)
      {
        var name, varFile := varsNames[i].name, varsNames[i].entry;
        var varFileName := dirPath + [name];
        Assoc(varsList, Dfs(varFile, name, varFileName), DfsBatch(procDir, b, i + 1, dirPath));
        OneEntry(procDir, b, i, dirPath);
        i := i + 1;
        if varFile.Denied? {
          continue;
        }
        if varFile.OpenFails? {
          return Failed;
        }
        if varFile.StatFails? {
          return Panicked;
        }
        if varFile.Dir? {
          var inner := WalkVarsDir(varFileName, varFile);
          if !inner.Vars? {
            return inner;
          }
          if |inner.list| > 0 {
            varsList := varsList + inner.list;
          }
        } else if varFile.Regular? {
          varsList := varsList + [Variable(name, varFile.content, varFileName)];
        }
      }
      b := b + 1;
    }
    if !procDir.ends {
      return Failed;
    }
    return Vars(varsList);
  }

  /* ---------- what is in the list, and when there is one ---------- */

  /** Following the names, through directories that open, leads to this entry. */
  ghost predicate Reaches(from: Entry, names: Path, e: Entry)
    decreases |names|
  {
    if names == [] then from == e
    else from.Dir? && exists b, i | 0 <= b < |from.batches| && 0 <= i < |from.batches[b].entries| ::
           var n := from.batches[b].entries[i];
           n.name == names[0] && Reaches(n.entry, names[1..], e)
  }

  /** What an entry itself does to the walk. */
  function Blame(e: Entry): Verdict {
    match e
    case OpenFails => GivesUp
    case StatFails => Panics
    case Dir(_, ends) => if ends then Fine else GivesUp
    case _ => Fine
  }

  lemma {:induction false} FineBelow(d: Entry, b: nat, i: nat, from: nat, at: nat)
    requires d.Dir? && b < |d.batches| && i < |d.batches[b].entries|
    requires from <= b && CheckFrom(d, from) == Fine
    requires at <= i && (from == b ==> CheckBatch(d, b, at) == Fine)
    ensures Check(d.batches[b].entries[i].entry) == Fine
    decreases b - from, i - at
  {
    if from < b {
      FineBelow(d, b, i, from + 1, 0);
    } else if at < i {
      FineBelow(d, b, i, from, at + 1);
    }
  }

  lemma {:induction false} FineThenNoFailure(d: Entry, names: Path, e: Entry)
    requires Check(d) == Fine && Reaches(d, names, e)
    ensures Blame(e) == Fine
    decreases |names|
  {
    if d.Dir? {
      FineThenEnds(d, 0);
    }
    if names == [] {
    } else {
      var b, i :| 0 <= b < |d.batches| && 0 <= i < |d.batches[b].entries|
                  && d.batches[b].entries[i].name == names[0]
                  && Reaches(d.batches[b].entries[i].entry, names[1..], e);
      FineBelow(d, b, i, 0, 0);
      FineThenNoFailure(d.batches[b].entries[i].entry, names[1..], e);
    }
  }

  lemma {:induction false} FineThenEnds(d: Entry, b: nat)
    requires d.Dir? && b <= |d.batches| && CheckFrom(d, b) == Fine
    ensures d.ends
    decreases |d.batches| - b
  {
    if b == |d.batches| {
    } else {
      FineThenEnds(d, b + 1);
    }
  }

  /** What goes wrong is the doing of an entry that the walk reaches. */
  lemma {:induction false} FailureIsReached(d: Entry) returns (names: Path, e: Entry)
    requires Check(d) != Fine
    ensures Reaches(d, names, e) && Blame(e) == Check(d)
    decreases d, 2, 0
  {
    if d.Dir? {
      names, e := FailureReachedFrom(d, 0);
    } else {
      names, e := [], d;
    }
  }

  lemma {:induction false} FailureReachedFrom(d: Entry, b: nat) returns (names: Path, e: Entry)
    requires d.Dir? && b <= |d.batches| && CheckFrom(d, b) != Fine
    ensures Reaches(d, names, e) && Blame(e) == CheckFrom(d, b)
    decreases d, 1, |d.batches| - b
  {
    if b == |d.batches| {
      names, e := [], d;
    } else if CheckBatch(d, b, 0) != Fine {
      names, e := FailureReachedIn(d, b, 0);
    } else {
      names, e := FailureReachedFrom(d, b + 1);
    }
  }

  lemma {:induction false} FailureReachedIn(d: Entry, b: nat, i: nat) returns (names: Path, e: Entry)
    requires d.Dir? && b < |d.batches| && i <= |d.batches[b].entries| && CheckBatch(d, b, i) != Fine
    ensures Reaches(d, names, e) && Blame(e) == CheckBatch(d, b, i)
    decreases d, 0, |d.batches[b].entries| - i
  {
    var n := d.batches[b].entries[i];
    if Check(n.entry) != Fine {
      var below: Path;
      below, e := FailureIsReached(n.entry);
      names := [n.name] + below;
      assert names[1..] == below;
    } else {
      names, e := FailureReachedIn(d, b, i + 1);
    }
  }

  /** An entry that cannot be opened, for another reason than permission, or a directory that breaks off. */
  predicate Unreadable(e: Entry) {
    e.OpenFails? || (e.Dir? && !e.ends)
  }

  ghost predicate ReachesUnreadable(d: Entry) {
    exists names, e :: Reaches(d, names, e) && Unreadable(e)
  }

  ghost predicate ReachesUnknown(d: Entry) {
    exists names, e :: Reaches(d, names, e) && e.StatFails?
  }

  /** The walk succeeds exactly when it reaches no open that fails otherwise than by denied permission, no missing
      file information and no directory that breaks off; and what it reports is the doing of such an entry. What
      lies behind a denied open, and a copy that breaks off, never count. */
  lemma CheckExactly(d: Entry)
    ensures Check(d) == Fine <==> !ReachesUnreadable(d) && !ReachesUnknown(d)
    ensures Check(d) == GivesUp ==> ReachesUnreadable(d)
    ensures Check(d) == Panics ==> ReachesUnknown(d)
  {
    if Check(d) == Fine {
      forall names, e | Reaches(d, names, e) ensures !Unreadable(e) && !e.StatFails? {
        FineThenNoFailure(d, names, e);
      }
    } else {
      var names, e := FailureIsReached(d);
    }
  }

  /** This variable is that of a regular file reached from the directory at `path`, copied to its end or not. */
  ghost predicate IsVariable(from: Entry, path: Path, v: Variable, names: Path) {
    && names != [] && v.source == path + names && v.key == names[|names| - 1]
    && exists copied :: Reaches(from, names, Regular(v.value, copied))
  }

  /** The list holds exactly the variables of the regular files reached, each with the start path extended by its
      relative path as source and the last part of it as key. */
  lemma ListExactly(d: Entry, path: Path, v: Variable)
    requires d.Dir?
    ensures v in DfsFrom(d, 0, path) <==> exists names :: IsVariable(d, path, v, names)
  {
    if v in DfsFrom(d, 0, path) {
      var names := ListedIsReached(d, 0, path, v);
    }
    if names :| IsVariable(d, path, v, names) {
      ReachedIsListed(d, path, v, names);
    }
  }

  /** A copy that fails midway still yields a variable, with the bytes copied so far. */
  lemma BrokenCopyIsListed(d: Entry, path: Path, names: Path, content: string)
    requires d.Dir? && names != [] && Reaches(d, names, Regular(content, false))
    ensures Variable(names[|names| - 1], content, path + names) in DfsFrom(d, 0, path)
  {
    ReachedIsListed(d, path, Variable(names[|names| - 1], content, path + names), names);
  }

  /** A variable of an entry of a directory is a variable of the directory. */
  lemma OneLevelUp(d: Entry, b: nat, i: nat, path: Path, v: Variable, names: Path)
    requires d.Dir? && b < |d.batches| && i < |d.batches[b].entries|
    requires var n := d.batches[b].entries[i];
             IsVariable(n.entry, path + [n.name], v, names)
             || (names == [] && n.entry.Regular? && n.entry.content == v.value
                 && v.source == path + [n.name] && v.key == n.name)
    ensures IsVariable(d, path, v, [d.batches[b].entries[i].name] + names)
  {
    var n := d.batches[b].entries[i];
    var up := [n.name] + names;
    assert up[1..] == names;
    assert path + up == (path + [n.name]) + names;
    var copied :| Reaches(n.entry, up[1..], Regular(v.value, copied));
    assert Reaches(d, up, Regular(v.value, copied));
  }

  lemma {:induction false} ListedIsReached(d: Entry, b: nat, path: Path, v: Variable) returns (names: Path)
    requires d.Dir? && b <= |d.batches| && v in DfsFrom(d, b, path)
    ensures IsVariable(d, path, v, names)
    decreases d, 1, |d.batches| - b
  {
    if v in DfsBatch(d, b, 0, path) {
      names := ListedInBatch(d, b, 0, path, v);
    } else {
      names := ListedIsReached(d, b + 1, path, v);
    }
  }

  lemma {:induction false} ListedInBatch(d: Entry, b: nat, i: nat, path: Path, v: Variable) returns (names: Path)
    requires d.Dir? && b < |d.batches| && i <= |d.batches[b].entries| && v in DfsBatch(d, b, i, path)
    ensures IsVariable(d, path, v, names)
    decreases d, 0, |d.batches[b].entries| - i
  {
    var n := d.batches[b].entries[i];
    if v in Dfs(n.entry, n.name, path + [n.name]) {
      var below: Path := [];
      if n.entry.Dir? {
        below := ListedIsReached(n.entry, 0, path + [n.name], v);
      }
      OneLevelUp(d, b, i, path, v, below);
      names := [n.name] + below;
    } else {
      names := ListedInBatch(d, b, i + 1, path, v);
    }
  }

  lemma {:induction false} ReachedIsListed(d: Entry, path: Path, v: Variable, names: Path)
    requires d.Dir? && IsVariable(d, path, v, names)
    ensures v in DfsFrom(d, 0, path)
    decreases |names|
  {
    var copied :| Reaches(d, names, Regular(v.value, copied));
    var b, i :| 0 <= b < |d.batches| && 0 <= i < |d.batches[b].entries|
                && d.batches[b].entries[i].name == names[0]
                && Reaches(d.batches[b].entries[i].entry, names[1..], Regular(v.value, copied));
    var n := d.batches[b].entries[i];
    assert path + names == (path + [n.name]) + names[1..];
    if |names| > 1 {
      assert IsVariable(n.entry, path + [n.name], v, names[1..]);
      ReachedIsListed(n.entry, path + [n.name], v, names[1..]);
    } else {
      assert names == [n.name];
      assert n.entry == Regular(v.value, copied);
    }
    assert v in Dfs(n.entry, n.name, path + [n.name]);
    EntryInBatch(d, b, 0, i, path, v);
    BatchInList(d, 0, b, path, v);
  }

  lemma {:induction false} EntryInBatch(d: Entry, b: nat, from: nat, i: nat, path: Path, v: Variable)
    requires d.Dir? && b < |d.batches| && from <= i < |d.batches[b].entries|
    requires var Named(name, entry) := d.batches[b].entries[i];
             v in Dfs(entry, name, path + [name])
    ensures v in DfsBatch(d, b, from, path)
    decreases i - from
  {
    if from == i {
    } else {
      EntryInBatch(d, b, from + 1, i, path, v);
    }
  }

  lemma {:induction false} BatchInList(d: Entry, from: nat, b: nat, path: Path, v: Variable)
    requires d.Dir? && from <= b < |d.batches| && v in DfsBatch(d, b, 0, path)
    ensures v in DfsFrom(d, from, path)
    decreases b - from
  {
    if from == b {
    } else {
      BatchInList(d, from + 1, b, path, v);
    }
  }
}
