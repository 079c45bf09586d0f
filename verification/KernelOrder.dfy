/** The order of the kernel variables that a walk lists, and that none is listed twice. */
module KernelOrder {
  import opened KernelVariables

  /** Where a directory hands out an entry. */
  datatype Spot = Spot(batch: nat, index: nat)

  ghost predicate IsSpot(d: Entry, s: Spot) {
    d.Dir? && s.batch < |d.batches| && s.index < |d.batches[s.batch].entries|
  }

  ghost function At(d: Entry, s: Spot): Named
    requires IsSpot(d, s)
  {
    d.batches[s.batch].entries[s.index]
  }

  ghost predicate Sooner(s: Spot, t: Spot) {
    s.batch < t.batch || (s.batch == t.batch && s.index < t.index)
  }

  /** Where two paths part, the first is the sooner handed out. */
  ghost predicate Precedes(d: Entry, p: Path, q: Path)
    decreases |p|
  {
    p != [] && q != [] && exists s, t ::
      && IsSpot(d, s) && IsSpot(d, t) && At(d, s).name == p[0] && At(d, t).name == q[0]
      && (Sooner(s, t) || (s == t && Precedes(At(d, s).entry, p[1..], q[1..])))
  }

  /** The path of a listed variable, relative to where the walk started. */
  ghost predicate LiesAt(path: Path, v: Variable, rel: Path) {
    v.source == path + rel
  }

  ghost predicate InOrder(d: Entry, path: Path, list: seq<Variable>) {
    forall i, j :: 0 <= i < j < |list| ==> VariablesInOrder(d, path, list[i], list[j])
  }

  ghost predicate VariablesInOrder(d: Entry, path: Path, v: Variable, w: Variable) {
    exists p, q :: LiesAt(path, v, p) && LiesAt(path, w, q) && Precedes(d, p, q)
  }

  /** The variable lies at or below this entry of the directory. */
  ghost predicate Through(d: Entry, s: Spot, path: Path, v: Variable)
    requires IsSpot(d, s)
  {
    exists rel :: rel != [] && rel[0] == At(d, s).name && LiesAt(path, v, rel)
  }

  lemma LiesBelow(path: Path, name: string, v: Variable, rel: Path)
    requires LiesAt(path + [name], v, rel)
    ensures LiesAt(path, v, [name] + rel)
  {
    assert path + ([name] + rel) == (path + [name]) + rel;
  }

  lemma {:induction false} ListedThrough(d: Entry, s: Spot, path: Path, v: Variable)
    requires IsSpot(d, s) && v in Dfs(At(d, s).entry, At(d, s).name, path + [At(d, s).name])
    ensures Through(d, s, path, v)
  {
    var n := At(d, s);
    var rel: Path := [];
    if n.entry.Dir? {
      rel := ListedIsReached(n.entry, 0, path + [n.name], v);
    } else {
      assert LiesAt(path + [n.name], v, []);
    }
    LiesBelow(path, n.name, v, rel);
    assert ([n.name] + rel)[0] == n.name;
  }

  lemma {:induction false} ThroughBatch(d: Entry, b: nat, i: nat, path: Path, v: Variable) returns (s: Spot)
    requires d.Dir? && b < |d.batches| && i <= |d.batches[b].entries| && v in DfsBatch(d, b, i, path)
    ensures IsSpot(d, s) && s.batch == b && s.index >= i && Through(d, s, path, v)
    decreases |d.batches[b].entries| - i
  {
    s := Spot(b, i);
    if v in Dfs(At(d, s).entry, At(d, s).name, path + [At(d, s).name]) {
      ListedThrough(d, s, path, v);
    } else {
      s := ThroughBatch(d, b, i + 1, path, v);
    }
  }

  lemma {:induction false} ThroughRest(d: Entry, b: nat, path: Path, v: Variable) returns (s: Spot)
    requires d.Dir? && b <= |d.batches| && v in DfsFrom(d, b, path)
    ensures IsSpot(d, s) && s.batch >= b && Through(d, s, path, v)
    decreases |d.batches| - b
  {
    if v in DfsBatch(d, b, 0, path) {
      s := ThroughBatch(d, b, 0, path, v);
    } else {
      s := ThroughRest(d, b + 1, path, v);
    }
  }

  lemma SoonerInOrder(d: Entry, s: Spot, t: Spot, path: Path, v: Variable, w: Variable)
    requires IsSpot(d, s) && IsSpot(d, t) && Sooner(s, t) && Through(d, s, path, v) && Through(d, t, path, w)
    ensures VariablesInOrder(d, path, v, w)
  {
    var p :| p != [] && p[0] == At(d, s).name && LiesAt(path, v, p);
    var q :| q != [] && q[0] == At(d, t).name && LiesAt(path, w, q);
    assert Precedes(d, p, q);
  }

  lemma PrecedesBelow(d: Entry, s: Spot, p: Path, q: Path)
    requires IsSpot(d, s) && Precedes(At(d, s).entry, p, q)
    ensures Precedes(d, [At(d, s).name] + p, [At(d, s).name] + q)
  {
    var up, uq := [At(d, s).name] + p, [At(d, s).name] + q;
    assert up[1..] == p && uq[1..] == q;
    assert IsSpot(d, s) && At(d, s).name == up[0] && At(d, s).name == uq[0];
  }

  lemma BelowInOrder(d: Entry, s: Spot, path: Path, v: Variable, w: Variable)
    requires IsSpot(d, s) && VariablesInOrder(At(d, s).entry, path + [At(d, s).name], v, w)
    ensures VariablesInOrder(d, path, v, w)
  {
    var name := At(d, s).name;
    var p, q :| LiesAt(path + [name], v, p) && LiesAt(path + [name], w, q) && Precedes(At(d, s).entry, p, q);
    LiesBelow(path, name, v, p);
    LiesBelow(path, name, w, q);
    PrecedesBelow(d, s, p, q);
  }

  lemma ConcatInOrder(d: Entry, path: Path, a: seq<Variable>, b: seq<Variable>)
    requires InOrder(d, path, a) && InOrder(d, path, b)
    requires forall v, w :: v in a && w in b ==> VariablesInOrder(d, path, v, w)
    ensures InOrder(d, path, a + b)
  {
    forall i, j | 0 <= i < j < |a + b| ensures VariablesInOrder(d, path, (a + b)[i], (a + b)[j]) {
      if i < |a| && |a| <= j {
        assert (a + b)[i] in a && (a + b)[j] in b;
      }
    }
  }

  /** The list is in the order in which the directories hand out their entries, at every depth. */
  lemma {:induction false} ListInOrder(d: Entry, b: nat, path: Path)
    requires d.Dir? && b <= |d.batches|
    ensures InOrder(d, path, DfsFrom(d, b, path))
    decreases d, 1, |d.batches| - b
  {
    if b == |d.batches| {
    } else {
      BatchInOrder(d, b, 0, path);
      ListInOrder(d, b + 1, path);
      var first, others := DfsBatch(d, b, 0, path), DfsFrom(d, b + 1, path);
      forall v, w | v in first && w in others ensures VariablesInOrder(d, path, v, w) {
        var s := ThroughBatch(d, b, 0, path, v);
        var t := ThroughRest(d, b + 1, path, w);
        SoonerInOrder(d, s, t, path, v, w);
      }
      ConcatInOrder(d, path, first, others);
    }
  }

  lemma {:induction false} BatchInOrder(d: Entry, b: nat, i: nat, path: Path)
    requires d.Dir? && b < |d.batches| && i <= |d.batches[b].entries|
    ensures InOrder(d, path, DfsBatch(d, b, i, path))
    decreases d, 0, |d.batches[b].entries| - i
  {
    if i == |d.batches[b].entries| {
    } else {
      var s := Spot(b, i);
      var n := At(d, s);
      var first, others := Dfs(n.entry, n.name, path + [n.name]), DfsBatch(d, b, i + 1, path);
      BatchInOrder(d, b, i + 1, path);
      if n.entry.Dir? {
        ListInOrder(n.entry, 0, path + [n.name]);
        forall j, k | 0 <= j < k < |first| ensures VariablesInOrder(d, path, first[j], first[k]) {
          BelowInOrder(d, s, path, first[j], first[k]);
        }
      }
      forall v, w | v in first && w in others ensures VariablesInOrder(d, path, v, w) {
        ListedThrough(d, s, path, v);
        var t := ThroughBatch(d, b, i + 1, path, w);
        SoonerInOrder(d, s, t, path, v, w);
      }
      ConcatInOrder(d, path, first, others);
    }
  }

  /* ---------- nothing twice ---------- */

  /** No directory, at any depth, hands out a name twice. */
  ghost predicate NamesDiffer(d: Entry) {
    forall names, e :: Reaches(d, names, e) ==> OwnNamesDiffer(e)
  }

  ghost predicate OwnNamesDiffer(d: Entry) {
    forall s, t :: IsSpot(d, s) && IsSpot(d, t) && At(d, s).name == At(d, t).name ==> s == t
  }

  lemma NamesDifferBelow(d: Entry, s: Spot)
    requires NamesDiffer(d) && IsSpot(d, s)
    ensures NamesDiffer(At(d, s).entry)
  {
    var n := At(d, s);
    forall names, e | Reaches(n.entry, names, e) ensures OwnNamesDiffer(e) {
      var up := [n.name] + names;
      assert up[1..] == names;
      assert d.batches[s.batch].entries[s.index] == n;
      assert Reaches(d, up, e);
    }
  }

  lemma {:induction false} NotBeforeItself(d: Entry, p: Path)
    requires NamesDiffer(d)
    ensures !Precedes(d, p, p)
    decreases |p|
  {
    assert Reaches(d, [], d);
    if Precedes(d, p, p) {
      var s, t :| && IsSpot(d, s) && IsSpot(d, t) && At(d, s).name == p[0] && At(d, t).name == p[0]
                  && (Sooner(s, t) || (s == t && Precedes(At(d, s).entry, p[1..], p[1..])));
      NamesDifferBelow(d, s);
      NotBeforeItself(At(d, s).entry, p[1..]);
    }
  }

  /** Main result: with no name handed out twice each file is listed once, so that the list is fixed by which files
      are reached and by the order in which directories hand out their entries. */
  lemma EachListedOnce(d: Entry, path: Path, i: nat, j: nat)
    requires d.Dir? && NamesDiffer(d) && i < j < |DfsFrom(d, 0, path)|
    ensures DfsFrom(d, 0, path)[i].source != DfsFrom(d, 0, path)[j].source
  {
    var list := DfsFrom(d, 0, path);
    ListInOrder(d, 0, path);
    assert VariablesInOrder(d, path, list[i], list[j]);
    var p, q :| LiesAt(path, list[i], p) && LiesAt(path, list[j], q) && Precedes(d, p, q);
    if list[i].source == list[j].source {
      assert (path + p)[|path|..] == p && (path + q)[|path|..] == q;
      NotBeforeItself(d, p);
    }
  }

  /* ---------- copies that break off ---------- */

  /** A path leads to one entry only. */
  lemma {:induction false} ReachesOne(d: Entry, names: Path, e: Entry, f: Entry)
    requires NamesDiffer(d) && Reaches(d, names, e) && Reaches(d, names, f)
    ensures e == f
    decreases |names|
  {
    if names == [] {
    } else {
      assert Reaches(d, [], d);
      var s := FirstSpot(d, names, e);
      var t := FirstSpot(d, names, f);
      assert s == t;
      NamesDifferBelow(d, s);
      ReachesOne(At(d, s).entry, names[1..], e, f);
    }
  }

  lemma FirstSpot(d: Entry, names: Path, e: Entry) returns (s: Spot)
    requires names != [] && Reaches(d, names, e)
    ensures IsSpot(d, s) && At(d, s).name == names[0] && Reaches(At(d, s).entry, names[1..], e)
  {
    var b, i :| 0 <= b < |d.batches| && 0 <= i < |d.batches[b].entries|
                && d.batches[b].entries[i].name == names[0]
                && Reaches(d.batches[b].entries[i].entry, names[1..], e);
    s := Spot(b, i);
  }

  /** Every file reached is copied to its end. */
  ghost predicate NoBroken(d: Entry) {
    forall names, e :: Reaches(d, names, e) && e.Regular? ==> e.copied
  }

  /** The variable has the whole content of the file it comes from. */
  ghost predicate Whole(d: Entry, path: Path, v: Variable) {
    forall names, e :: v.source == path + names && Reaches(d, names, e) ==> e == Regular(v.value, true)
  }

  ghost predicate AllWhole(d: Entry, path: Path)
    requires d.Dir?
  {
    forall v :: v in DfsFrom(d, 0, path) ==> Whole(d, path, v)
  }

  lemma SamePath(path: Path, p: Path, q: Path)
    requires path + p == path + q
    ensures p == q
  {
    assert (path + p)[|path|..] == p && (path + q)[|path|..] == q;
  }

  lemma ListedIsWhole(d: Entry, path: Path, v: Variable)
    requires d.Dir? && NamesDiffer(d) && NoBroken(d) && v in DfsFrom(d, 0, path)
    ensures Whole(d, path, v)
  {
    var at := ListedIsReached(d, 0, path, v);
    var copied :| Reaches(d, at, Regular(v.value, copied));
    forall names, e | v.source == path + names && Reaches(d, names, e) ensures e == Regular(v.value, true) {
      SamePath(path, names, at);
      ReachesOne(d, names, e, Regular(v.value, copied));
    }
  }

  lemma BrokenIsNotWhole(d: Entry, path: Path, names: Path, e: Entry)
    requires d.Dir? && Reaches(d, names, e) && e.Regular? && !e.copied
    ensures !AllWhole(d, path)
  {
    BrokenCopyIsListed(d, path, names, e.content);
    var v := Variable(names[|names| - 1], e.content, path + names);
    assert v in DfsFrom(d, 0, path) && v.source == path + names;
    assert !Whole(d, path, v);
  }

  /** The branch that is meant to stop at a copy that breaks off never runs; the list is as it should be, every
      variable whole, exactly when no copy breaks off. */
  lemma AllWholeExactly(d: Entry, path: Path)
    requires d.Dir? && NamesDiffer(d)
    ensures AllWhole(d, path) <==> NoBroken(d)
  {
    if NoBroken(d) {
      forall v | v in DfsFrom(d, 0, path) ensures Whole(d, path, v) {
        ListedIsWhole(d, path, v);
      }
    } else {
      var names, e :| Reaches(d, names, e) && e.Regular? && !e.copied;
      BrokenIsNotWhole(d, path, names, e);
    }
  }

  /* ---------- what goes wrong first ---------- */

  ghost predicate FineBefore(d: Entry, s: Spot) {
    forall t :: IsSpot(d, t) && Sooner(t, s) ==> Check(At(d, t).entry) == Fine
  }

  /** The first entry with which anything goes wrong decides. */
  lemma FirstTroubleDecides(d: Entry, s: Spot)
    requires IsSpot(d, s) && FineBefore(d, s) && Check(At(d, s).entry) != Fine
    ensures Check(d) == Check(At(d, s).entry)
  {
    TroubleFrom(d, s, 0);
  }

  lemma {:induction false} TroubleFrom(d: Entry, s: Spot, b: nat)
    requires IsSpot(d, s) && FineBefore(d, s) && Check(At(d, s).entry) != Fine && b <= s.batch
    ensures CheckFrom(d, b) == Check(At(d, s).entry)
    decreases s.batch - b
  {
    if b == s.batch {
      TroubleIn(d, s, 0);
    } else {
      FineBatch(d, s, b, 0);
      TroubleFrom(d, s, b + 1);
    }
  }

  lemma {:induction false} FineBatch(d: Entry, s: Spot, b: nat, i: nat)
    requires IsSpot(d, s) && FineBefore(d, s) && b < s.batch && i <= |d.batches[b].entries|
    ensures CheckBatch(d, b, i) == Fine
    decreases |d.batches[b].entries| - i
  {
    if i == |d.batches[b].entries| {
    } else {
      assert IsSpot(d, Spot(b, i)) && Sooner(Spot(b, i), s);
      FineBatch(d, s, b, i + 1);
    }
  }

  lemma {:induction false} TroubleIn(d: Entry, s: Spot, i: nat)
    requires IsSpot(d, s) && FineBefore(d, s) && Check(At(d, s).entry) != Fine && i <= s.index
    ensures CheckBatch(d, s.batch, i) == Check(At(d, s).entry)
    decreases s.index - i
  {
    if i == s.index {
    } else {
      assert IsSpot(d, Spot(s.batch, i)) && Sooner(Spot(s.batch, i), s);
      TroubleIn(d, s, i + 1);
    }
  }

  /** If nothing goes wrong with any entry, how reading the directory ends decides. */
  lemma EndDecides(d: Entry)
    requires d.Dir? && forall s :: IsSpot(d, s) ==> Check(At(d, s).entry) == Fine
    ensures Check(d) == if d.ends then Fine else GivesUp
  {
    EndFrom(d, 0);
  }

  lemma {:induction false} EndFrom(d: Entry, b: nat)
    requires d.Dir? && (forall s :: IsSpot(d, s) ==> Check(At(d, s).entry) == Fine) && b <= |d.batches|
    ensures CheckFrom(d, b) == if d.ends then Fine else GivesUp
    decreases |d.batches| - b
  {
    if b == |d.batches| {
    } else {
      EndIn(d, b, 0);
      EndFrom(d, b + 1);
    }
  }

  lemma {:induction false} EndIn(d: Entry, b: nat, i: nat)
    requires d.Dir? && forall s :: IsSpot(d, s) ==> Check(At(d, s).entry) == Fine
    requires b < |d.batches| && i <= |d.batches[b].entries|
    ensures CheckBatch(d, b, i) == Fine
    decreases |d.batches[b].entries| - i
  {
    if i == |d.batches[b].entries| {
    } else {
      assert IsSpot(d, Spot(b, i));
      EndIn(d, b, i + 1);
    }
  }
}
