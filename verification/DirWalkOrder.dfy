/** The order of the files that a walk finds. */
module DirWalkOrder {
  import opened Sequences
  import opened Sorting
  import opened DirWalk
  import opened DirWalkFacts

  ghost predicate InBatch(fs: FileSystem, ino: Ino, b: nat, name: string) {
    CanOpen(fs, ino) && b < |fs[ino].batches| && name in fs[ino].batches[b]
  }

  /** Where two paths part, the first continues with a name of an earlier batch, or with the smaller one, compared
      byte by byte, of the same batch. */
  ghost predicate Comes(fs: FileSystem, ino: Ino, p: Path, q: Path)
    decreases |p|
  {
    && p != [] && q != []
    && if p[0] == q[0] then CanStat(fs, ino, p[0]) && Comes(fs, Target(fs, ino, p[0]), p[1..], q[1..])
       else exists b, c :: InBatch(fs, ino, b, p[0]) && InBatch(fs, ino, c, q[0])
                           && (b < c || (b == c && AtMost(p[0], q[0])))
  }

  ghost predicate InTurn(fs: FileSystem, ino: Ino, dir: Path, x: Path, y: Path) {
    Below(dir, x) && Below(dir, y) && Comes(fs, ino, x[|dir|..], y[|dir|..])
  }

  ghost predicate InOrder(fs: FileSystem, ino: Ino, dir: Path, files: seq<Path>) {
    forall i, j :: 0 <= i < j < |files| ==> InTurn(fs, ino, dir, files[i], files[j])
  }

  lemma InOrderConcat(fs: FileSystem, ino: Ino, dir: Path, a: seq<Path>, b: seq<Path>)
    requires InOrder(fs, ino, dir, a) && InOrder(fs, ino, dir, b)
    requires forall x, y :: x in a && y in b ==> InTurn(fs, ino, dir, x, y)
    ensures InOrder(fs, ino, dir, a + b)
  {
    forall i, j | 0 <= i < j < |a + b| ensures InTurn(fs, ino, dir, (a + b)[i], (a + b)[j]) {
      if i < |a| && |a| <= j {
        assert (a + b)[i] in a && (a + b)[j] in b;
      }
    }
  }

  /** Two files that part here, by names of these batches. */
  lemma PartHere(fs: FileSystem, ino: Ino, dir: Path, x: Path, y: Path, b: nat, c: nat)
    requires Below(dir, x) && Below(dir, y) && x[|dir|] != y[|dir|]
    requires InBatch(fs, ino, b, x[|dir|]) && InBatch(fs, ino, c, y[|dir|])
    requires b < c || (b == c && AtMost(x[|dir|], y[|dir|]))
    ensures InTurn(fs, ino, dir, x, y)
  {
    assert x[|dir|..][0] == x[|dir|] && y[|dir|..][0] == y[|dir|];
  }

  /** Two files that part further below. */
  lemma PartBelow(fs: FileSystem, ino: Ino, dir: Path, name: string, x: Path, y: Path)
    requires CanStat(fs, ino, name) && InTurn(fs, Target(fs, ino, name), dir + [name], x, y)
    ensures InTurn(fs, ino, dir, x, y)
  {
    BelowChild(dir, name, x);
    BelowChild(dir, name, y);
    var p, q := x[|dir|..], y[|dir|..];
    assert p[0] == name && q[0] == name;
    assert p[1..] == x[|dir + [name]|..] && q[1..] == y[|dir + [name]|..];
  }

  /* ---------- names of one directory ---------- */

  ghost predicate Ascending(names: seq<string>) {
    forall i, j :: 0 <= i < j < |names| ==> Leq(names[i], names[j]) && names[i] != names[j]
  }

  lemma NoRepeats(s: seq<string>)
    requires forall x :: multiset(s)[x] <= 1
    ensures forall i, j :: 0 <= i < j < |s| ==> s[i] != s[j]
  {
    forall i, j | 0 <= i < j < |s| ensures s[i] != s[j] {
      var front, back := s[..j], s[j..];
      assert s == front + back;
      assert multiset(s)[s[j]] == multiset(front)[s[j]] + multiset(back)[s[j]];
      assert back[0] == s[j] && s[j] in multiset(back);
      assert front[i] == s[i] && s[i] in multiset(front);
      assert multiset(s)[s[j]] <= 1;
    }
  }

  lemma {:induction false} TimesInBatch(batches: seq<seq<string>>, b: nat, name: string)
    requires b < |batches|
    ensures multiset(batches[b])[name] <= multiset(Flatten(batches))[name]
  {
    NameConcat(batches[0], Flatten(batches[1..]), name);
    if b == 0 {
    } else {
      TimesInBatch(batches[1..], b - 1, name);
    }
  }

  lemma {:induction false} TimesInTwo(batches: seq<seq<string>>, b: nat, c: nat, name: string)
    requires b < c < |batches|
    ensures multiset(batches[b])[name] + multiset(batches[c])[name] <= multiset(Flatten(batches))[name]
  {
    NameConcat(batches[0], Flatten(batches[1..]), name);
    if b == 0 {
      TimesInBatch(batches[1..], c - 1, name);
    } else {
      TimesInTwo(batches[1..], b - 1, c - 1, name);
    }
  }

  lemma BatchAscends(fs: FileSystem, ino: Ino, b: nat)
    requires WellFormed(fs) && CanOpen(fs, ino) && b < |fs[ino].batches|
    ensures Ascending(Sort(fs[ino].batches[b]))
    ensures forall name :: name in Sort(fs[ino].batches[b]) ==> InBatch(fs, ino, b, name)
  {
    var names := fs[ino].batches[b];
    SortSorts(names);
    forall x ensures multiset(Sort(names))[x] <= 1 {
      TimesInBatch(fs[ino].batches, b, x);
      assert multiset(Listed(fs, ino))[x] <= 1;
    }
    NoRepeats(Sort(names));
    forall name | name in Sort(names) ensures name in names {
      assert name in multiset(Sort(names));
    }
  }

  lemma OtherBatchOtherName(fs: FileSystem, ino: Ino, b: nat, c: nat, x: string, y: string)
    requires WellFormed(fs) && b < c && InBatch(fs, ino, b, x) && InBatch(fs, ino, c, y)
    ensures x != y
  {
    TimesInTwo(fs[ino].batches, b, c, x);
    assert multiset(Listed(fs, ino))[x] <= 1;
    assert x in multiset(fs[ino].batches[b]);
    assert y in multiset(fs[ino].batches[c]);
  }

  /* ---------- the list ---------- */

  lemma {:induction false} GoesThrough(
      fs: FileSystem, ino: Ino, dir: Path, level: nat, depth: nat, names: seq<string>, q: Path)
      returns (i: nat)
    requires depth > 0 && q in OfNames(fs, ino, dir, level, depth, names)
    ensures i < |names| && Below(dir, q) && q[|dir|] == names[i]
    decreases |names|
  {
    if q in OfName(fs, ino, dir, level, depth, names[0]) {
      NameBelow(fs, ino, dir, level, depth, names[0], q);
      i := 0;
    } else {
      i := GoesThrough(fs, ino, dir, level, depth, names[1..], q);
      i := i + 1;
    }
  }

  lemma {:induction false} GoesThroughBatch(
      fs: FileSystem, ino: Ino, dir: Path, level: nat, depth: nat, b: nat, q: Path)
      returns (c: nat)
    requires depth > 0 && CanOpen(fs, ino) && b <= |fs[ino].batches|
    requires q in OfBatches(fs, ino, dir, level, depth, fs[ino].batches[b..])
    ensures c >= b && Below(dir, q) && InBatch(fs, ino, c, q[|dir|])
    decreases |fs[ino].batches| - b
  {
    var batches := fs[ino].batches;
    assert batches[b..][1..] == batches[b + 1..];
    if q in OfNames(fs, ino, dir, level, depth, Sort(batches[b])) {
      var i := GoesThrough(fs, ino, dir, level, depth, Sort(batches[b]), q);
      SortSorts(batches[b]);
      assert q[|dir|] in multiset(Sort(batches[b]));
      c := b;
    } else {
      c := GoesThroughBatch(fs, ino, dir, level, depth, b + 1, q);
    }
  }

  /** Main result: wherever two files of the list part, the one listed first goes through a name of an earlier batch,
      or through the smaller name of the same batch. Together with `WalkExact` this fixes the list. */
  lemma {:induction false} WalkInOrder(fs: FileSystem, ino: Ino, dir: Path, level: nat, depth: nat)
    requires WellFormed(fs)
    ensures InOrder(fs, ino, dir, Collected(fs, ino, dir, level, depth))
    decreases depth, 3, 0
  {
    if depth > 0 && CanOpen(fs, ino) {
      BatchesInOrder(fs, ino, dir, level, depth, 0);
      assert fs[ino].batches[0..] == fs[ino].batches;
    }
  }

  lemma {:induction false} BatchesInOrder(fs: FileSystem, ino: Ino, dir: Path, level: nat, depth: nat, b: nat)
    requires depth > 0 && WellFormed(fs) && CanOpen(fs, ino) && b <= |fs[ino].batches|
    ensures InOrder(fs, ino, dir, OfBatches(fs, ino, dir, level, depth, fs[ino].batches[b..]))
    decreases depth, 2, |fs[ino].batches| - b
  {
    var batches := fs[ino].batches;
    if b == |batches| {
    } else {
      assert batches[b..][1..] == batches[b + 1..];
      var names := Sort(batches[b]);
      var first := OfNames(fs, ino, dir, level, depth, names);
      var others := OfBatches(fs, ino, dir, level, depth, batches[b + 1..]);
      BatchAscends(fs, ino, b);
      NamesInOrder(fs, ino, dir, level, depth, b, names);
      BatchesInOrder(fs, ino, dir, level, depth, b + 1);
      forall x, y | x in first && y in others ensures InTurn(fs, ino, dir, x, y) {
        var i := GoesThrough(fs, ino, dir, level, depth, names, x);
        var c := GoesThroughBatch(fs, ino, dir, level, depth, b + 1, y);
        OtherBatchOtherName(fs, ino, b, c, x[|dir|], y[|dir|]);
        PartHere(fs, ino, dir, x, y, b, c);
      }
      InOrderConcat(fs, ino, dir, first, others);
    }
  }

  lemma {:induction false} NamesInOrder(
      fs: FileSystem, ino: Ino, dir: Path, level: nat, depth: nat, b: nat, names: seq<string>)
    requires depth > 0 && WellFormed(fs) && Ascending(names)
    requires forall name :: name in names ==> InBatch(fs, ino, b, name)
    ensures InOrder(fs, ino, dir, OfNames(fs, ino, dir, level, depth, names))
    decreases depth, 1, |names|
  {
    if names == [] {
    } else {
      var first := OfName(fs, ino, dir, level, depth, names[0]);
      var others := OfNames(fs, ino, dir, level, depth, names[1..]);
      NameInOrder(fs, ino, dir, level, depth, names[0]);
      NamesInOrder(fs, ino, dir, level, depth, b, names[1..]);
      forall x, y | x in first && y in others ensures InTurn(fs, ino, dir, x, y) {
        NameBelow(fs, ino, dir, level, depth, names[0], x);
        var i := GoesThrough(fs, ino, dir, level, depth, names[1..], y);
        LeqExactly(names[0], names[i + 1]);
        PartHere(fs, ino, dir, x, y, b, b);
      }
      InOrderConcat(fs, ino, dir, first, others);
    }
  }

  lemma {:induction false} NameInOrder(fs: FileSystem, ino: Ino, dir: Path, level: nat, depth: nat, name: string)
    requires depth > 0 && WellFormed(fs)
    ensures InOrder(fs, ino, dir, OfName(fs, ino, dir, level, depth, name))
    decreases depth, 0, 0
  {
    if CanStat(fs, ino, name) && fs[Target(fs, ino, name)].Dir? && level + 1 != MAX_DEPTH {
      var files := OfName(fs, ino, dir, level, depth, name);
      WalkInOrder(fs, Target(fs, ino, name), dir + [name], level + 1, depth - 1);
      forall i, j | 0 <= i < j < |files| ensures InTurn(fs, ino, dir, files[i], files[j]) {
        PartBelow(fs, ino, dir, name, files[i], files[j]);
      }
    }
  }

  /* ---------- one batch ---------- */

  /** At the first component where the paths part, the first path has the one that is smaller byte by byte. */
  ghost predicate Before(p: Path, q: Path) {
    exists k :: PartAt(p, q, k)
  }

  ghost predicate PartAt(p: Path, q: Path, k: int) {
    0 <= k < |p| && k < |q| && p[..k] == q[..k] && p[k] != q[k] && AtMost(p[k], q[k])
  }

  lemma {:induction false} ComesThenBefore(fs: FileSystem, ino: Ino, p: Path, q: Path) returns (k: nat)
    requires OneBatch(fs) && Comes(fs, ino, p, q)
    ensures PartAt(p, q, k)
    decreases |p|
  {
    if p[0] == q[0] {
      k := ComesThenBefore(fs, Target(fs, ino, p[0]), p[1..], q[1..]);
      k := k + 1;
      assert p[..k] == [p[0]] + p[1..][..k - 1] && q[..k] == [q[0]] + q[1..][..k - 1];
    } else {
      k := 0;
    }
  }

  /** When every directory arrives in one batch the files are in ascending order of their paths, component by
      component. */
  lemma OneBatchInOrder(fs: FileSystem, ino: Ino, dir: Path, level: nat, depth: nat, i: nat, j: nat)
    requires WellFormed(fs) && OneBatch(fs)
    requires i < j < |Collected(fs, ino, dir, level, depth)|
    ensures var files := Collected(fs, ino, dir, level, depth); Before(files[i], files[j])
  {
    var files := Collected(fs, ino, dir, level, depth);
    WalkInOrder(fs, ino, dir, level, depth);
    var x, y := files[i], files[j];
    assert InTurn(fs, ino, dir, x, y);
    var k := ComesThenBefore(fs, ino, x[|dir|..], y[|dir|..]);
    assert x[..|dir| + k] == dir + x[|dir|..][..k] && y[..|dir| + k] == dir + y[|dir|..][..k];
    assert PartAt(x, y, |dir| + k);
  }
}
