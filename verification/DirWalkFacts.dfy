/** What the bounded directory walk finds, on any file graph. */
module DirWalkFacts {
  import opened Sequences
  import opened Sorting
  import opened DirWalk

  /** Following the names from a directory, each listed in a directory that opens, leads to a file. */
  ghost predicate Leads(fs: FileSystem, ino: Ino, names: Path)
    decreases |names|
  {
    && names != [] && CanOpen(fs, ino)
    && names[0] in Listed(fs, ino) && CanStat(fs, ino, names[0])
    && if |names| == 1 then fs[Target(fs, ino, names[0])].Other? && fs[Target(fs, ino, names[0])].informable
       else Leads(fs, Target(fs, ino, names[0]), names[1..])
  }

  /** No directory lists a name twice. */
  ghost predicate WellFormed(fs: FileSystem) {
    forall ino, name :: CanOpen(fs, ino) ==> multiset(Listed(fs, ino))[name] <= 1
  }

  /* ---------- everything found lies below the directory ---------- */

  ghost predicate Below(dir: Path, q: Path) {
    |dir| < |q| && q[..|dir|] == dir
  }

  lemma BelowChild(dir: Path, name: string, q: Path)
    requires Below(dir + [name], q)
    ensures Below(dir, q) && q[|dir|] == name
  {
    assert q[..|dir| + 1] == dir + [name];
    assert q[..|dir|] == q[..|dir| + 1][..|dir|] == dir;
    assert q[|dir|] == q[..|dir| + 1][|dir|];
  }

  lemma {:induction false} CollectedBelow(fs: FileSystem, ino: Ino, dir: Path, level: nat, depth: nat, q: Path)
    requires q in Collected(fs, ino, dir, level, depth)
    ensures Below(dir, q)
    decreases depth, 3, 0
  {
    BatchesBelow(fs, ino, dir, level, depth, fs[ino].batches, q);
  }

  lemma {:induction false} BatchesBelow(
      fs: FileSystem, ino: Ino, dir: Path, level: nat, depth: nat, batches: seq<seq<string>>, q: Path)
    requires depth > 0 && q in OfBatches(fs, ino, dir, level, depth, batches)
    ensures Below(dir, q)
    decreases depth, 2, |batches|
  {
    if q in OfNames(fs, ino, dir, level, depth, Sort(batches[0])) {
      NamesBelow(fs, ino, dir, level, depth, Sort(batches[0]), q);
    } else {
      BatchesBelow(fs, ino, dir, level, depth, batches[1..], q);
    }
  }

  lemma {:induction false} NamesBelow(
      fs: FileSystem, ino: Ino, dir: Path, level: nat, depth: nat, names: seq<string>, q: Path)
    requires depth > 0 && q in OfNames(fs, ino, dir, level, depth, names)
    ensures Below(dir, q)
    decreases depth, 1, |names|
  {
    if q in OfName(fs, ino, dir, level, depth, names[0]) {
      NameBelow(fs, ino, dir, level, depth, names[0], q);
    } else {
      NamesBelow(fs, ino, dir, level, depth, names[1..], q);
    }
  }

  /** What comes of one name goes through that name. */
  lemma {:induction false} NameBelow(fs: FileSystem, ino: Ino, dir: Path, level: nat, depth: nat, name: string, q: Path)
    requires depth > 0 && q in OfName(fs, ino, dir, level, depth, name)
    ensures Below(dir, q) && q[|dir|] == name
    decreases depth, 0, 0
  {
    if fs[Target(fs, ino, name)].Dir? {
      CollectedBelow(fs, Target(fs, ino, name), dir + [name], level + 1, depth - 1, q);
      BelowChild(dir, name, q);
    }
  }

  /* ---------- how often a path is found ---------- */

  function Times(files: seq<Path>, q: Path): nat {
    multiset(files)[q]
  }

  lemma TimesConcat(a: seq<Path>, b: seq<Path>, q: Path)
    ensures Times(a + b, q) == Times(a, q) + Times(b, q)
  {}

  lemma TimesZero(a: seq<Path>, q: Path)
    ensures Times(a, q) == 0 <==> q !in a
  {}

  lemma NameConcat(a: seq<string>, b: seq<string>, name: string)
    ensures multiset(a + b)[name] == multiset(a)[name] + multiset(b)[name]
    ensures name in a + b <==> name in a || name in b
    ensures (name in a <==> multiset(a)[name] > 0) && (name in b <==> multiset(b)[name] > 0)
  {}

  /** Another name contributes nothing to this path. */
  lemma OtherName(fs: FileSystem, ino: Ino, dir: Path, level: nat, depth: nat, name: string, rel: Path)
    requires depth > 0 && rel != [] && name != rel[0]
    ensures Times(OfName(fs, ino, dir, level, depth, name), dir + rel) == 0
  {
    var files := OfName(fs, ino, dir, level, depth, name);
    if dir + rel in files {
      NameBelow(fs, ino, dir, level, depth, name, dir + rel);
      assert false;
    }
    TimesZero(files, dir + rel);
  }

  /** `t` counted `k` times. */
  function Fold(k: nat, t: nat): nat {
    if k == 0 then 0 else t + Fold(k - 1, t)
  }

  lemma {:induction false} FoldSum(j: nat, k: nat, t: nat)
    ensures Fold(j + k, t) == Fold(j, t) + Fold(k, t)
  {
    if j == 0 {
    } else {
      FoldSum(j - 1, k, t);
    }
  }

  lemma {:induction false} FoldSmall(k: nat, t: nat)
    ensures Fold(k, t) > 0 <==> k > 0 && t > 0
    ensures k <= 1 && t <= 1 ==> Fold(k, t) <= 1
    ensures t == 0 ==> Fold(k, t) == 0
  {
    if k == 0 {
    } else {
      FoldSmall(k - 1, t);
    }
  }

  /** Of all names only the first on the path counts, as often as it is listed. */
  lemma {:induction false} TimesInNames(
      fs: FileSystem, ino: Ino, dir: Path, level: nat, depth: nat, names: seq<string>, rel: Path)
    requires depth > 0 && rel != []
    ensures Times(OfNames(fs, ino, dir, level, depth, names), dir + rel)
         == Fold(multiset(names)[rel[0]], Times(OfName(fs, ino, dir, level, depth, rel[0]), dir + rel))
  {
    if names == [] {
    } else {
      var first, others, q := names[0], names[1..], dir + rel;
      var each, k := Times(OfName(fs, ino, dir, level, depth, rel[0]), q), multiset(others)[rel[0]];
      TimesInNames(fs, ino, dir, level, depth, others, rel);
      TimesConcat(OfName(fs, ino, dir, level, depth, first), OfNames(fs, ino, dir, level, depth, others), q);
      assert multiset(names)[rel[0]] == (if first == rel[0] then 1 else 0) + k by {
        assert names == [first] + others;
        NameConcat([first], others, rel[0]);
      }
      if first == rel[0] {
        assert Fold(1 + k, each) == each + Fold(k, each);
      } else {
        OtherName(fs, ino, dir, level, depth, first, rel);
      }
    }
  }

  lemma TimesInSorted(
      fs: FileSystem, ino: Ino, dir: Path, level: nat, depth: nat, names: seq<string>, rel: Path)
    requires depth > 0 && rel != []
    ensures Times(OfNames(fs, ino, dir, level, depth, Sort(names)), dir + rel)
         == Fold(multiset(names)[rel[0]], Times(OfName(fs, ino, dir, level, depth, rel[0]), dir + rel))
  {
    SortSorts(names);
    TimesInNames(fs, ino, dir, level, depth, Sort(names), rel);
  }

  lemma {:induction false} TimesInBatches(
      fs: FileSystem, ino: Ino, dir: Path, level: nat, depth: nat, batches: seq<seq<string>>, rel: Path)
    requires depth > 0 && rel != []
    ensures Times(OfBatches(fs, ino, dir, level, depth, batches), dir + rel)
         == Fold(multiset(Flatten(batches))[rel[0]], Times(OfName(fs, ino, dir, level, depth, rel[0]), dir + rel))
  {
    if batches == [] {
    } else {
      var name, q := rel[0], dir + rel;
      var first, others := batches[0], batches[1..];
      var each := Times(OfName(fs, ino, dir, level, depth, name), q);
      TimesInSorted(fs, ino, dir, level, depth, first, rel);
      TimesInBatches(fs, ino, dir, level, depth, others, rel);
      TimesConcat(OfNames(fs, ino, dir, level, depth, Sort(first)), OfBatches(fs, ino, dir, level, depth, others), q);
      var k, l := multiset(first)[name], multiset(Flatten(others))[name];
      assert multiset(Flatten(batches))[name] == k + l by {
        NameConcat(first, Flatten(others), name);
      }
      FoldSum(k, l, each);
    }
  }

  /** A path of so many names can be found by a call at this level. */
  predicate Admitted(level: nat, names: Path) {
    level >= MAX_DEPTH || |names| <= MAX_DEPTH - level
  }

  /** In how many ways the names lead to a file, when directories may list a name several times. */
  ghost function Ways(fs: FileSystem, ino: Ino, names: Path): nat
    decreases |names|
  {
    if names == [] || !CanOpen(fs, ino) || !CanStat(fs, ino, names[0]) then 0
    else Fold(multiset(Listed(fs, ino))[names[0]], WaysOn(fs, Target(fs, ino, names[0]), names))
  }

  ghost function WaysOn(fs: FileSystem, target: Ino, names: Path): nat
    requires names != [] && target in fs
    decreases |names|, 0
  {
    if |names| > 1 then Ways(fs, target, names[1..])
    else if fs[target].Other? && fs[target].informable then 1 else 0
  }

  /** Main result. On any graph, cyclic or not, the walk lists each path that has at most ten names, that is, goes
      through at most nine nested directories, as often as there are ways to a file along it, and no other path.
      From level ten on there is no limit, if the walk ends at all. */
  lemma {:induction false} WalkCounts(fs: FileSystem, ino: Ino, dir: Path, level: nat, depth: nat, rel: Path)
    requires Bounded(fs, ino, level, depth)
    ensures Times(Collected(fs, ino, dir, level, depth), dir + rel)
         == if Admitted(level, rel) then Ways(fs, ino, rel) else 0
    decreases |rel|, 1
  {
    assert Enters(fs, ino, [], level);
    if rel == [] {
      SelfNotBelow(fs, ino, dir, level, depth, dir + rel);
    } else if CanOpen(fs, ino) {
      var listed := multiset(Listed(fs, ino))[rel[0]];
      TimesInBatches(fs, ino, dir, level, depth, fs[ino].batches, rel);
      FoldSmall(listed, Times(OfName(fs, ino, dir, level, depth, rel[0]), dir + rel));
      assert listed > 0 <==> rel[0] in Listed(fs, ino);
      if CanStat(fs, ino, rel[0]) {
        FoldSmall(listed, WaysOn(fs, Target(fs, ino, rel[0]), rel));
        if listed > 0 {
          NameCounts(fs, ino, dir, level, depth, rel);
        }
      }
    }
  }

  lemma SelfNotBelow(fs: FileSystem, ino: Ino, dir: Path, level: nat, depth: nat, q: Path)
    requires |q| <= |dir|
    ensures Times(Collected(fs, ino, dir, level, depth), q) == 0
  {
    var files := Collected(fs, ino, dir, level, depth);
    if q in files {
      CollectedBelow(fs, ino, dir, level, depth, q);
      assert false;
    }
    TimesZero(files, q);
  }

  /** A name that leads to a file is found by itself and nothing else. */
  lemma FileExact(fs: FileSystem, ino: Ino, dir: Path, level: nat, depth: nat, rel: Path)
    requires depth > 0 && rel != [] && CanStat(fs, ino, rel[0]) && fs[Target(fs, ino, rel[0])].Other?
    ensures Times(OfName(fs, ino, dir, level, depth, rel[0]), dir + rel)
         == if |rel| == 1 && fs[Target(fs, ino, rel[0])].informable then 1 else 0
  {
    var one := [rel[0]];
    assert (dir + rel)[|dir|..] == rel && (dir + one)[|dir|..] == one;
    assert dir + rel == dir + one <==> rel == one;
  }

  lemma {:induction false} NameCounts(fs: FileSystem, ino: Ino, dir: Path, level: nat, depth: nat, rel: Path)
    requires depth > 0 && Bounded(fs, ino, level, depth)
    requires rel != [] && CanOpen(fs, ino) && rel[0] in Listed(fs, ino) && CanStat(fs, ino, rel[0])
    ensures Times(OfName(fs, ino, dir, level, depth, rel[0]), dir + rel)
         == if Admitted(level, rel) then WaysOn(fs, Target(fs, ino, rel[0]), rel) else 0
    decreases |rel|, 0
  {
    var name := rel[0];
    var target := Target(fs, ino, name);
    if fs[target].Other? {
      FileExact(fs, ino, dir, level, depth, rel);
    } else if level + 1 != MAX_DEPTH {
      assert dir + rel == (dir + [name]) + rel[1..];
      BoundedBelow(fs, ino, level, depth, name);
      WalkCounts(fs, target, dir + [name], level + 1, depth - 1, rel[1..]);
    }
  }

  lemma {:induction false} LeadsHasWays(fs: FileSystem, ino: Ino, names: Path)
    ensures Leads(fs, ino, names) <==> Ways(fs, ino, names) > 0
    ensures WellFormed(fs) ==> Ways(fs, ino, names) <= 1
    decreases |names|
  {
    if names == [] || !CanOpen(fs, ino) || !CanStat(fs, ino, names[0]) {
    } else {
      var listed := multiset(Listed(fs, ino))[names[0]];
      var on := WaysOn(fs, Target(fs, ino, names[0]), names);
      assert names[0] in Listed(fs, ino) <==> listed > 0;
      if |names| > 1 {
        LeadsHasWays(fs, Target(fs, ino, names[0]), names[1..]);
      }
      FoldSmall(listed, on);
    }
  }

  /** Where no directory lists a name twice, each path to a file is listed once. */
  lemma WalkExact(fs: FileSystem, ino: Ino, dir: Path, level: nat, depth: nat, rel: Path)
    requires Bounded(fs, ino, level, depth) && WellFormed(fs)
    ensures Times(Collected(fs, ino, dir, level, depth), dir + rel)
         == if Leads(fs, ino, rel) && Admitted(level, rel) then 1 else 0
  {
    WalkCounts(fs, ino, dir, level, depth, rel);
    LeadsHasWays(fs, ino, rel);
  }

  /** From the top, at level zero: every path of at most ten names, and no other. */
  lemma WalkFromTop(fs: FileSystem, ino: Ino, dir: Path, rel: Path)
    requires WellFormed(fs)
    ensures Bounded(fs, ino, 0, 10)
    ensures Times(Collected(fs, ino, dir, 0, 10), dir + rel) == if Leads(fs, ino, rel) && |rel| <= 10 then 1 else 0
  {
    BoundedAtStart(fs, ino, 0);
    WalkExact(fs, ino, dir, 0, 10, rel);
  }

  /** On every graph the paths listed are those that lead to a file. */
  lemma FoundExactly(fs: FileSystem, ino: Ino, dir: Path, level: nat, depth: nat, q: Path)
    requires Bounded(fs, ino, level, depth)
    ensures q in Collected(fs, ino, dir, level, depth) <==>
            Below(dir, q) && Leads(fs, ino, q[|dir|..]) && Admitted(level, q[|dir|..])
  {
    if q in Collected(fs, ino, dir, level, depth) {
      CollectedBelow(fs, ino, dir, level, depth, q);
    }
    if Below(dir, q) {
      var rel := q[|dir|..];
      assert q == dir + rel;
      TimesZero(Collected(fs, ino, dir, level, depth), q);
      WalkCounts(fs, ino, dir, level, depth, rel);
      LeadsHasWays(fs, ino, rel);
    }
  }

  /* ---------- the flag that has no effect ---------- */

  /** Only files of the directory itself are listed, as a walk that is not recursive is documented to do. */
  ghost predicate OnlyDirectFiles(dir: Path, files: seq<Path>) {
    forall q :: q in files ==> |q| == |dir| + 1
  }

  /** No file lies below a nested directory, as deep as the walk goes. */
  ghost predicate NothingNested(fs: FileSystem, ino: Ino, level: nat) {
    forall rel :: Leads(fs, ino, rel) && Admitted(level, rel) ==> |rel| == 1
  }

  /** The documented meaning of a flag that is not set is met exactly on directories without nested files. */
  lemma NotRecursiveExactly(fs: FileSystem, ino: Ino, dir: Path, level: nat, depth: nat)
    requires Bounded(fs, ino, level, depth)
    ensures OnlyDirectFiles(dir, Collected(fs, ino, dir, level, depth)) <==> NothingNested(fs, ino, level)
  {
    var files := Collected(fs, ino, dir, level, depth);
    if OnlyDirectFiles(dir, files) {
      forall rel | Leads(fs, ino, rel) && Admitted(level, rel) ensures |rel| == 1 {
        assert (dir + rel)[|dir|..] == rel;
        FoundExactly(fs, ino, dir, level, depth, dir + rel);
      }
    }
    if NothingNested(fs, ino, level) {
      forall q | q in files ensures |q| == |dir| + 1 {
        FoundExactly(fs, ino, dir, level, depth, q);
      }
    }
  }

  /** A directory that holds nothing but a directory with one file. */
  const NESTED: FileSystem :=
    map[0 := Dir(true, [["d"]], true, map["d" := 1]), 1 := Dir(true, [["f"]], true, map["f" := 2]), 2 := Other(true)]

  /** The nested file is listed, from every start level below nine, whatever the flag. */
  lemma NestedFileListed(dir: Path, level: nat)
    requires level + 1 < MAX_DEPTH
    ensures Bounded(NESTED, 0, level, MAX_DEPTH - level)
    ensures dir + ["d", "f"] in Collected(NESTED, 0, dir, level, MAX_DEPTH - level)
    ensures !OnlyDirectFiles(dir, Collected(NESTED, 0, dir, level, MAX_DEPTH - level))
  {
    var rel := ["d", "f"];
    FlattenOne(NESTED[0].batches);
    FlattenOne(NESTED[1].batches);
    assert rel[1..] == ["f"];
    assert Leads(NESTED, 1, rel[1..]);
    assert Leads(NESTED, 0, rel);
    BoundedAtStart(NESTED, 0, level);
    assert (dir + rel)[|dir|..] == rel;
    FoundExactly(NESTED, 0, dir, level, MAX_DEPTH - level, dir + rel);
  }

  /* ---------- order and batches ---------- */

  /** The same directories, whose names arrive in another order or in other batches. */
  ghost predicate Reshuffled(fs: FileSystem, gs: FileSystem) {
    && fs.Keys == gs.Keys
    && forall ino | ino in fs ::
         if fs[ino].Dir? then
           && gs[ino].Dir? && gs[ino].readable == fs[ino].readable && gs[ino].links == fs[ino].links
           && multiset(Flatten(gs[ino].batches)) == multiset(Flatten(fs[ino].batches))
         else gs[ino] == fs[ino]
  }

  lemma {:induction false} NamesConcat(
      fs: FileSystem, ino: Ino, dir: Path, level: nat, depth: nat, a: seq<string>, b: seq<string>)
    requires depth > 0
    ensures OfNames(fs, ino, dir, level, depth, a + b)
         == OfNames(fs, ino, dir, level, depth, a) + OfNames(fs, ino, dir, level, depth, b)
  {
    if a == [] {
      assert a + b == b;
    } else {
      assert (a + b)[1..] == a[1..] + b;
      NamesConcat(fs, ino, dir, level, depth, a[1..], b);
    }
  }

  /** Taking a name out of a list takes what it contributes out of the collection. */
  lemma NameTakenOut(
      fs: FileSystem, ino: Ino, dir: Path, level: nat, depth: nat, front: seq<string>, name: string, back: seq<string>)
    requires depth > 0
    ensures multiset(OfNames(fs, ino, dir, level, depth, front + ([name] + back)))
         == multiset(OfName(fs, ino, dir, level, depth, name))
            + multiset(OfNames(fs, ino, dir, level, depth, front + back))
  {
    NamesConcat(fs, ino, dir, level, depth, front, [name] + back);
    NamesConcat(fs, ino, dir, level, depth, front, back);
    assert ([name] + back)[1..] == back;
  }

  lemma TakenOut(front: seq<string>, name: string, back: seq<string>)
    ensures multiset(front + ([name] + back)) == multiset{name} + multiset(front + back)
  {}

  lemma Removed(a: seq<string>, b: seq<string>) returns (front: seq<string>, back: seq<string>)
    requires a != [] && multiset(a) == multiset(b)
    ensures b == front + ([a[0]] + back) && multiset(a[1..]) == multiset(front + back)
  {
    assert a[0] in multiset(b);
    var k :| 0 <= k < |b| && b[k] == a[0];
    front, back := b[..k], b[k + 1..];
    assert b == front + ([a[0]] + back);
    assert a == [] + ([a[0]] + a[1..]) && [] + a[1..] == a[1..];
    TakenOut([], a[0], a[1..]);
    TakenOut(front, a[0], back);
    SameRest(multiset{a[0]}, multiset(a[1..]), multiset(front + back));
  }

  lemma SameRest(x: multiset<string>, a: multiset<string>, b: multiset<string>)
    requires x + a == x + b
    ensures a == b
  {
    assert a == (x + a) - x && b == (x + b) - x;
  }

  lemma {:induction false} NamesPermuted(
      fs: FileSystem, ino: Ino, dir: Path, level: nat, depth: nat, a: seq<string>, b: seq<string>)
    requires depth > 0 && multiset(a) == multiset(b)
    ensures multiset(OfNames(fs, ino, dir, level, depth, a)) == multiset(OfNames(fs, ino, dir, level, depth, b))
  {
    assert |a| == |multiset(a)| == |multiset(b)| == |b|;
    if a == [] {
    } else {
      var front, back := Removed(a, b);
      NamesPermuted(fs, ino, dir, level, depth, a[1..], front + back);
      NameTakenOut(fs, ino, dir, level, depth, front, a[0], back);
    }
  }

  /** Batches do not matter. */
  lemma {:induction false} BatchesFlattened(
      fs: FileSystem, ino: Ino, dir: Path, level: nat, depth: nat, batches: seq<seq<string>>)
    requires depth > 0
    ensures multiset(OfBatches(fs, ino, dir, level, depth, batches))
         == multiset(OfNames(fs, ino, dir, level, depth, Flatten(batches)))
  {
    if batches == [] {
    } else {
      BatchesFlattened(fs, ino, dir, level, depth, batches[1..]);
      SortSorts(batches[0]);
      NamesPermuted(fs, ino, dir, level, depth, Sort(batches[0]), batches[0]);
      NamesConcat(fs, ino, dir, level, depth, batches[0], Flatten(batches[1..]));
    }
  }

  /** Which files are found, and how often, does not depend on the order or the batches in which names are handed
      out. */
  lemma {:induction false} FindingsIgnoreOrder(
      fs: FileSystem, gs: FileSystem, ino: Ino, dir: Path, level: nat, depth: nat)
    requires Reshuffled(fs, gs)
    ensures multiset(Collected(fs, ino, dir, level, depth)) == multiset(Collected(gs, ino, dir, level, depth))
    decreases depth, 2, 0
  {
    if depth > 0 && CanOpen(fs, ino) {
      BatchesFlattened(fs, ino, dir, level, depth, fs[ino].batches);
      BatchesFlattened(gs, ino, dir, level, depth, gs[ino].batches);
      NamesPermuted(fs, ino, dir, level, depth, Listed(fs, ino), Listed(gs, ino));
      NamesReshuffled(fs, gs, ino, dir, level, depth, Listed(gs, ino));
    }
  }

  /** What one name contributes is the same if what its directory contributes is. */
  lemma NameReshuffled(
      fs: FileSystem, gs: FileSystem, ino: Ino, dir: Path, level: nat, depth: nat, name: string)
    requires depth > 0 && Reshuffled(fs, gs)
    requires CanStat(fs, ino, name) ==>
               var target := Target(fs, ino, name);
               multiset(Collected(fs, target, dir + [name], level + 1, depth - 1))
               == multiset(Collected(gs, target, dir + [name], level + 1, depth - 1))
    ensures multiset(OfName(fs, ino, dir, level, depth, name)) == multiset(OfName(gs, ino, dir, level, depth, name))
  {
    assert CanStat(fs, ino, name) <==> CanStat(gs, ino, name);
  }

  lemma {:induction false} NamesReshuffled(
      fs: FileSystem, gs: FileSystem, ino: Ino, dir: Path, level: nat, depth: nat, names: seq<string>)
    requires depth > 0 && Reshuffled(fs, gs)
    ensures multiset(OfNames(fs, ino, dir, level, depth, names))
         == multiset(OfNames(gs, ino, dir, level, depth, names))
    decreases depth, 1, |names|
  {
    if names == [] {
    } else {
      NamesReshuffled(fs, gs, ino, dir, level, depth, names[1..]);
      if CanStat(fs, ino, names[0]) {
        FindingsIgnoreOrder(fs, gs, Target(fs, ino, names[0]), dir + [names[0]], level + 1, depth - 1);
      }
      NameReshuffled(fs, gs, ino, dir, level, depth, names[0]);
    }
  }

  ghost predicate OneBatch(fs: FileSystem) {
    forall ino | ino in fs && fs[ino].Dir? :: |fs[ino].batches| == 1
  }

  /** When every directory arrives in one batch even the list is the same, whatever order the system listed. */
  lemma {:induction false} OneBatchFixesOrder(
      fs: FileSystem, gs: FileSystem, ino: Ino, dir: Path, level: nat, depth: nat)
    requires Reshuffled(fs, gs) && OneBatch(fs) && OneBatch(gs)
    ensures Collected(fs, ino, dir, level, depth) == Collected(gs, ino, dir, level, depth)
    decreases depth, 2, 0
  {
    if depth > 0 && CanOpen(fs, ino) {
      var b, c := fs[ino].batches, gs[ino].batches;
      OneBatchNames(fs, ino, dir, level, depth);
      OneBatchNames(gs, ino, dir, level, depth);
      FlattenOne(b);
      FlattenOne(c);
      SortIgnoresOrder(b[0], c[0]);
      SameNames(fs, gs, ino, dir, level, depth, Sort(b[0]));
    }
  }

  lemma FlattenOne(batches: seq<seq<string>>)
    requires |batches| == 1
    ensures Flatten(batches) == batches[0]
  {
    assert Flatten(batches[1..]) == [];
  }

  lemma OneBatchNames(fs: FileSystem, ino: Ino, dir: Path, level: nat, depth: nat)
    requires depth > 0 && CanOpen(fs, ino) && |fs[ino].batches| == 1
    ensures Collected(fs, ino, dir, level, depth) == OfNames(fs, ino, dir, level, depth, Sort(fs[ino].batches[0]))
  {
    assert OfBatches(fs, ino, dir, level, depth, fs[ino].batches[1..]) == [];
  }

  lemma {:induction false} SameNames(
      fs: FileSystem, gs: FileSystem, ino: Ino, dir: Path, level: nat, depth: nat, names: seq<string>)
    requires depth > 0 && Reshuffled(fs, gs) && OneBatch(fs) && OneBatch(gs)
    ensures OfNames(fs, ino, dir, level, depth, names) == OfNames(gs, ino, dir, level, depth, names)
    decreases depth, 1, |names|
  {
    if names == [] {
    } else {
      SameNames(fs, gs, ino, dir, level, depth, names[1..]);
      if CanStat(fs, ino, names[0]) && fs[Target(fs, ino, names[0])].Dir? && level + 1 != MAX_DEPTH {
        OneBatchFixesOrder(fs, gs, Target(fs, ino, names[0]), dir + [names[0]], level + 1, depth - 1);
      }
      assert OfName(fs, ino, dir, level, depth, names[0]) == OfName(gs, ino, dir, level, depth, names[0]);
    }
  }

  /* ---------- a directory that does not open ---------- */

  /** The file system in which that directory cannot be opened. */
  function Barred(fs: FileSystem, d: Ino): FileSystem
    requires d in fs && fs[d].Dir?
  {
    fs[d := fs[d].(readable := false)]
  }

  /** The path goes through that directory. */
  ghost predicate Through(fs: FileSystem, ino: Ino, names: Path, d: Ino)
    decreases |names|
  {
    ino == d || (|names| > 1 && CanStat(fs, ino, names[0]) && Through(fs, Target(fs, ino, names[0]), names[1..], d))
  }

  lemma {:induction false} WaysBarred(fs: FileSystem, d: Ino, ino: Ino, names: Path)
    requires d in fs && fs[d].Dir?
    ensures Ways(Barred(fs, d), ino, names) == if Through(fs, ino, names, d) then 0 else Ways(fs, ino, names)
    decreases |names|
  {
    if names == [] || !CanOpen(fs, ino) || !CanStat(fs, ino, names[0]) {
    } else if |names| > 1 {
      WaysBarred(fs, d, Target(fs, ino, names[0]), names[1..]);
      FoldSmall(multiset(Listed(fs, ino))[names[0]], 0);
    }
  }

  lemma {:induction false} EntersBarred(fs: FileSystem, d: Ino, ino: Ino, names: Path, level: nat)
    requires d in fs && fs[d].Dir? && Enters(Barred(fs, d), ino, names, level)
    ensures Enters(fs, ino, names, level)
    decreases |names|
  {
    if names == [] {
    } else {
      EntersBarred(fs, d, Target(fs, ino, names[0]), names[1..], level + 1);
    }
  }

  /** It takes away the files reached through it, and no others. */
  lemma BarredLosesOnlyItsSubtree(
      fs: FileSystem, d: Ino, ino: Ino, dir: Path, level: nat, depth: nat, rel: Path)
    requires Bounded(fs, ino, level, depth) && d in fs && fs[d].Dir?
    ensures Times(Collected(Barred(fs, d), ino, dir, level, depth), dir + rel)
         == if Through(fs, ino, rel, d) then 0 else Times(Collected(fs, ino, dir, level, depth), dir + rel)
  {
    var gs := Barred(fs, d);
    forall names | Enters(gs, ino, names, level) ensures |names| < depth {
      EntersBarred(fs, d, ino, names, level);
    }
    WalkCounts(fs, ino, dir, level, depth, rel);
    WalkCounts(gs, ino, dir, level, depth, rel);
    WaysBarred(fs, d, ino, rel);
  }

  /* ---------- when the walk ends ---------- */

  lemma {:induction false} EntersBelowLimit(fs: FileSystem, ino: Ino, names: Path, level: nat)
    requires level < MAX_DEPTH && Enters(fs, ino, names, level)
    ensures level + |names| < MAX_DEPTH
    decreases |names|
  {
    if names == [] {
    } else {
      EntersBelowLimit(fs, Target(fs, ino, names[0]), names[1..], level + 1);
    }
  }

  const LOOP: FileSystem := map[0 := Dir(true, [["d"]], true, map["d" := 0])]

  function Round(n: nat): (names: Path)
    ensures |names| == n
  {
    if n == 0 then [] else ["d"] + Round(n - 1)
  }

  lemma {:induction false} LoopEntered(n: nat, level: nat)
    requires level >= MAX_DEPTH
    ensures Enters(LOOP, 0, Round(n), level)
  {
    if n == 0 {
    } else {
      FlattenOne(LOOP[0].batches);
      LoopEntered(n - 1, level + 1);
      assert Round(n)[1..] == Round(n - 1);
    }
  }

  /** On every graph, walks that start at this level nest fewer than ten calls. */
  ghost predicate DepthBounded(level: nat) {
    forall fs: FileSystem, ino: Ino :: Bounded(fs, ino, level, MAX_DEPTH)
  }

  lemma BoundedAtStart(fs: FileSystem, ino: Ino, level: nat)
    requires level < MAX_DEPTH
    ensures Bounded(fs, ino, level, MAX_DEPTH - level)
  {
    forall names | Enters(fs, ino, names, level) ensures |names| < MAX_DEPTH - level {
      EntersBelowLimit(fs, ino, names, level);
    }
  }

  /** The equality test bounds the recursion exactly for walks that start below the limit: no directory is then
      opened at level ten or above, while from level ten on a link to its own directory is followed without end. */
  lemma DepthBoundedExactly(level: nat)
    ensures DepthBounded(level) <==> level < MAX_DEPTH
    ensures level >= MAX_DEPTH ==> forall depth: nat :: !Bounded(LOOP, 0, level, depth)
  {
    if level < MAX_DEPTH {
      forall fs: FileSystem, ino: Ino ensures Bounded(fs, ino, level, MAX_DEPTH) {
        BoundedAtStart(fs, ino, level);
      }
    } else {
      forall depth: nat ensures !Bounded(LOOP, 0, level, depth) {
        LoopEntered(depth, level);
        assert Enters(LOOP, 0, Round(depth), level);
      }
      assert !Bounded(LOOP, 0, level, MAX_DEPTH);
    }
  }
}
