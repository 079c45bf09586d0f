/** Listing the files below a host directory, to a bounded depth, over a file system whose links may form cycles. */
module DirWalk {
  import opened Sequences
  import opened Sorting

  const MAX_DEPTH := 10

  type Ino = nat
  type Path = seq<string>

  /** What a path can lead to once links are followed. A directory hands out its names in batches, in system
      order; reading it may break off after some batches; a listed name may lead nowhere. */
  datatype Node =
    | Dir(readable: bool, batches: seq<seq<string>>, complete: bool, links: map<string, Ino>)
    | Other(informable: bool)

  type FileSystem = map<Ino, Node>

  predicate CanOpen(fs: FileSystem, ino: Ino) {
    ino in fs && fs[ino].Dir? && fs[ino].readable
  }

  /** `os.Stat` of a listed name succeeds. */
  predicate CanStat(fs: FileSystem, ino: Ino, name: string) {
    ino in fs && fs[ino].Dir? && name in fs[ino].links && fs[ino].links[name] in fs
  }

  function Target(fs: FileSystem, ino: Ino, name: string): Ino
    requires CanStat(fs, ino, name)
  {
    fs[ino].links[name]
  }

  /** All names that reading the directory delivers. */
  function Listed(fs: FileSystem, ino: Ino): seq<string>
    requires CanOpen(fs, ino)
  {
    Flatten(fs[ino].batches)
  }

  /* ---------- how deep a walk goes ---------- */

  /** A call at this level makes the nested call on the directory that the names lead to. */
  ghost predicate Enters(fs: FileSystem, ino: Ino, names: Path, level: nat)
    decreases |names|
  {
    names == [] || (
      && CanOpen(fs, ino) && names[0] in Listed(fs, ino)
      && CanStat(fs, ino, names[0]) && fs[Target(fs, ino, names[0])].Dir?
      && level + 1 != MAX_DEPTH
      && Enters(fs, Target(fs, ino, names[0]), names[1..], level + 1))
  }

  /** The recursion ends: calls nest fewer than `depth` deep below this one. */
  ghost predicate Bounded(fs: FileSystem, ino: Ino, level: nat, depth: nat) {
    forall names :: Enters(fs, ino, names, level) ==> |names| < depth
  }

  lemma BoundedBelow(fs: FileSystem, ino: Ino, level: nat, depth: nat, name: string)
    requires Bounded(fs, ino, level, depth)
    requires CanOpen(fs, ino) && name in Listed(fs, ino)
    requires CanStat(fs, ino, name) && fs[Target(fs, ino, name)].Dir? && level + 1 != MAX_DEPTH
    ensures depth > 1 && Bounded(fs, Target(fs, ino, name), level + 1, depth - 1)
  {
    var target := Target(fs, ino, name);
    forall names | Enters(fs, target, names, level + 1) ensures |names| + 1 < depth {
      var longer := [name] + names;
      assert longer[0] == name && longer[1..] == names;
      assert Enters(fs, ino, longer, level);
    }
    assert Enters(fs, target, [], level + 1);
  }

  /* ---------- what a walk collects ---------- */

  /** The files that one call appends, in order, as far as calls nest fewer than `depth` deep. */
  function Collected(fs: FileSystem, ino: Ino, dir: Path, level: nat, depth: nat): seq<Path>
    decreases depth, 3, 0
  {
    if depth == 0 || !CanOpen(fs, ino) then [] else OfBatches(fs, ino, dir, level, depth, fs[ino].batches)
  }

  function OfBatches(fs: FileSystem, ino: Ino, dir: Path, level: nat, depth: nat, batches: seq<seq<string>>): seq<Path>
    requires depth > 0
    decreases depth, 2, |batches|
  {
    if batches == [] then []
    else OfNames(fs, ino, dir, level, depth, Sort(batches[0])) + OfBatches(fs, ino, dir, level, depth, batches[1..])
  }

  function OfNames(fs: FileSystem, ino: Ino, dir: Path, level: nat, depth: nat, names: seq<string>): seq<Path>
    requires depth > 0
    decreases depth, 1, |names|
  {
    if names == [] then []
    else OfName(fs, ino, dir, level, depth, names[0]) + OfNames(fs, ino, dir, level, depth, names[1..])
  }

  function OfName(fs: FileSystem, ino: Ino, dir: Path, level: nat, depth: nat, name: string): seq<Path>
    requires depth > 0
    decreases depth, 0, 0
  {
    if !CanStat(fs, ino, name) then []
    else match fs[Target(fs, ino, name)]
      case Dir(_, _, _, _) =>
        if level + 1 == MAX_DEPTH then []
        else Collected(fs, Target(fs, ino, name), dir + [name], level + 1, depth - 1)
      case Other(informable) => if informable then [dir + [name]] else []
  }

  /* ---------- the walk itself ---------- */

  /** The list that all calls of one walk share through a pointer. */
  class FileList {
    var files: seq<Path>

    constructor ()
      ensures files == []
    {
      files := [];
    }
  }

  datatype Result = OpenFailed | Walked(files: seq<Path>, complete: bool)

  /** Callable wherever the recursion ends at all, whatever the level; `depth` only says that it does. */
  method MakeHostDirFilesInfo(
      fs: FileSystem, ino: Ino, dir: Path, recursive: bool, fileInfos: FileList?, level: nat, ghost depth: nat)
    returns (r: Result)
    requires Bounded(fs, ino, level, depth)
    modifies if fileInfos == null then {} else {fileInfos}
    ensures fileInfos != null ==> fileInfos.files == old(fileInfos.files) + Collected(fs, ino, dir, level, depth)
    ensures r == if !CanOpen(fs, ino) then OpenFailed
                 else Walked((if fileInfos == null then [] else old(fileInfos.files))
                             + Collected(fs, ino, dir, level, depth),
                             fs[ino].complete)
    decreases depth, 1
  {
    assert Enters(fs, ino, [], level);
    if !CanOpen(fs, ino) {
      return OpenFailed;
    }
    var list: FileList;
    if fileInfos == null {
      list := new FileList();
    } else {
      list := fileInfos;
    }
    var batches := fs[ino].batches;
    ghost var whole := list.files + Collected(fs, ino, dir, level, depth);
    var b := 0;
    while b < |batches|
      invariant b <= |batches|
      invariant whole == list.files + OfBatches(fs, ino, dir, level, depth, batches[b..])
    {
      var fileNames := batches[b];
      ListedInBatch(fs, ino, b);
      fileNames := Sort(fileNames);
      assert batches[b..][1..] == batches[b + 1..];
      Assoc(list.files, OfNames(fs, ino, dir, level, depth, fileNames),
            OfBatches(fs, ino, dir, level, depth, batches[b + 1..]));
      AddFiles(fs, ino, dir, recursive, list, level, depth, fileNames);
      b := b + 1;
    }
    return Walked(list.files, fs[ino].complete);
  }

  lemma ListedInBatch(fs: FileSystem, ino: Ino, b: nat)
    requires CanOpen(fs, ino) && b < |fs[ino].batches|
    ensures forall name :: name in Sort(fs[ino].batches[b]) ==> name in Listed(fs, ino)
  {
    var names := fs[ino].batches[b];
    SortSorts(names);
    forall name | name in Sort(names) ensures name in Listed(fs, ino) {
      assert name in multiset(Sort(names));
      FlattenHas(fs[ino].batches, b, name);
    }
  }

  /** The loop over the sorted names of one batch. */
  method AddFiles(
      fs: FileSystem, ino: Ino, dir: Path, recursive: bool, list: FileList, level: nat, ghost depth: nat,
      fileNames: seq<string>)
    requires Bounded(fs, ino, level, depth) && depth > 0 && CanOpen(fs, ino)
    requires forall name :: name in fileNames ==> name in Listed(fs, ino)
    modifies list
    ensures list.files == old(list.files) + OfNames(fs, ino, dir, level, depth, fileNames)
    decreases depth, 0
  {
    ghost var goal := list.files + OfNames(fs, ino, dir, level, depth, fileNames);
    var i := 0;
    while i < |fileNames|
      invariant i <= |fileNames|
      invariant goal == list.files + OfNames(fs, ino, dir, level, depth, fileNames[i..])
    {
      var name := fileNames[i];
      var filePath := dir + [name];
      ghost var found := list.files + OfName(fs, ino, dir, level, depth, name);
      assert fileNames[i..][1..] == fileNames[i + 1..];
      Assoc(list.files, OfName(fs, ino, dir, level, depth, name),
            OfNames(fs, ino, dir, level, depth, fileNames[i + 1..]));
      i := i + 1;
      if !CanStat(fs, ino, name) {
        assert list.files == found;
        continue;
      }
      var stats := fs[Target(fs, ino, name)];
      if stats.Dir? {
        if level + 1 == MAX_DEPTH {
          assert list.files == found;
          continue;
        }
        BoundedBelow(fs, ino, level, depth, name);
        var ignored := MakeHostDirFilesInfo(
          fs, Target(fs, ino, name), filePath, recursive, list, level + 1, depth - 1);
      }
      if stats.Other? && stats.informable {
        list.files := list.files + [filePath];
      }
      assert list.files == found;
      if !recursive {
        continue;
      }
    }
  }
}
