/** Switching a deployment manifest to a local image, and back. */
module Manifest {
  import opened Wrappers
  import opened Sequences
  import opened Strings
  import opened Replacing
  import opened TextLines

  const HOST_IMAGE := "quay.io/kubescape/host-scanner"
  const LOCAL_IMAGE := "local-host-scanner-image"
  const LATEST := "latest"
  const TEST := "test"
  const PULL_POLICY := "imagePullPolicy"
  const NEVER_PULL := "        " + PULL_POLICY + ": Never\n"

  /* ---------- one line ---------- */

  function ToLocal(l: string): string {
    Replace(Replace(l, HOST_IMAGE, LOCAL_IMAGE), LATEST, TEST)
  }

  function ToHost(l: string): string {
    Replace(Replace(l, LOCAL_IMAGE, HOST_IMAGE), TEST, LATEST)
  }

  predicate Image(l: string) {
    Contains(l, HOST_IMAGE)
  }

  predicate Local(l: string) {
    Contains(l, LOCAL_IMAGE)
  }

  predicate Policy(l: string) {
    Contains(l, PULL_POLICY)
  }

  /** The line as reverting leaves it, if it stays. */
  function Restored(l: string): string {
    if Local(l) then ToHost(l) else l
  }

  /* ---------- the list ---------- */

  function Deployed(lines: seq<string>): seq<string> {
    if lines == [] then []
    else if Image(lines[0]) then [ToLocal(lines[0]), NEVER_PULL] + Deployed(lines[1..])
    else [lines[0]] + Deployed(lines[1..])
  }

  /** Deleting the line under inspection moves the next one into its place, so that one is never inspected. */
  function Reverted(lines: seq<string>): seq<string> {
    if lines == [] then []
    else if Policy(Restored(lines[0])) then Passed(lines[1..])
    else [Restored(lines[0])] + Reverted(lines[1..])
  }

  function Passed(lines: seq<string>): seq<string> {
    if lines == [] then [] else [lines[0]] + Reverted(lines[1..])
  }

  predicate HasImage(lines: seq<string>) {
    exists k | 0 <= k < |lines| :: Image(lines[k])
  }

  /** Some inspected line has the local image. */
  predicate FindsLocal(lines: seq<string>) {
    && lines != []
    && (Local(lines[0])
        || if Policy(Restored(lines[0])) then PassedFindsLocal(lines[1..]) else FindsLocal(lines[1..]))
  }

  predicate PassedFindsLocal(lines: seq<string>) {
    lines != [] && FindsLocal(lines[1..])
  }

  /** Some inspected line has a pull policy. */
  predicate Deletes(lines: seq<string>) {
    lines != [] && (Policy(Restored(lines[0])) || Deletes(lines[1..]))
  }

  lemma ContainsChar(s: string, sub: string, c: char)
    requires Contains(s, sub) && c in sub
    ensures c in s
  {
    var i :| 0 <= i <= |s| && MatchAt(s, sub, i);
    var k :| 0 <= k < |sub| && sub[k] == c;
    assert s[i..i + |sub|][k] == s[i + k];
  }

  lemma NeverPullLacks()
    ensures 'q' !in NEVER_PULL && '-' !in NEVER_PULL
  {}

  lemma ImagesHave()
    ensures 'q' in HOST_IMAGE && '-' in LOCAL_IMAGE
  {
    assert HOST_IMAGE[0] == 'q' && LOCAL_IMAGE[5] == '-';
  }

  /** The inserted line is not taken for an image line, and reverting recognises it. */
  lemma InsertedLine()
    ensures !Image(NEVER_PULL) && !Local(NEVER_PULL) && Policy(NEVER_PULL)
  {
    NeverPullLacks();
    ImagesHave();
    NotContains(NEVER_PULL, HOST_IMAGE, 'q');
    NotContains(NEVER_PULL, LOCAL_IMAGE, '-');
    PolicyLine();
  }

  lemma NotContains(s: string, sub: string, c: char)
    requires c in sub && c !in s
    ensures !Contains(s, sub)
  {
    if Contains(s, sub) {
      ContainsChar(s, sub, c);
    }
  }

  lemma PolicyLine()
    ensures Policy(NEVER_PULL)
  {
    ContainsMiddle("        ", PULL_POLICY, ": Never\n");
  }

  /** Lines still to be visited, counting those that deploying will insert. */
  ghost function Weight(lines: seq<string>): nat {
    if lines == [] then 0 else (if Image(lines[0]) then 2 else 1) + Weight(lines[1..])
  }

  lemma HasImageStep(lines: seq<string>)
    requires lines != []
    ensures HasImage(lines) <==> Image(lines[0]) || HasImage(lines[1..])
  {
    assert forall k :: 0 < k < |lines| ==> lines[k] == lines[1..][k - 1];
    if HasImage(lines[1..]) {
      var k :| 0 <= k < |lines[1..]| && Image(lines[1..][k]);
      assert Image(lines[k + 1]);
    }
  }

  ghost predicate Deploying(original: seq<string>, done: seq<string>, todo: seq<string>, found: bool) {
    Deployed(original) == done + Deployed(todo) && (HasImage(original) <==> found || HasImage(todo))
  }

  lemma DeployedCons(l: string, rest: seq<string>)
    ensures Deployed([l] + rest) == if Image(l) then [ToLocal(l)] + ([NEVER_PULL] + Deployed(rest))
                                    else [l] + Deployed(rest)
  {
    assert ([l] + rest)[1..] == rest;
    assert [ToLocal(l)] + ([NEVER_PULL] + Deployed(rest)) == [ToLocal(l), NEVER_PULL] + Deployed(rest);
  }

  lemma WeightCons(l: string, rest: seq<string>)
    ensures Weight([l] + rest) == Weight(rest) + if Image(l) then 2 else 1
  {
    assert ([l] + rest)[1..] == rest;
  }

  lemma HasImageCons(l: string, rest: seq<string>)
    ensures HasImage([l] + rest) <==> Image(l) || HasImage(rest)
  {
    assert ([l] + rest)[1..] == rest;
    HasImageStep([l] + rest);
  }

  /** Deploying visits the line it has just inserted. */
  lemma DeployingImage(original: seq<string>, done: seq<string>, line: string, rest: seq<string>, found: bool)
    requires Deploying(original, done, [line] + rest, found) && Image(line)
    ensures Deploying(original, done + [ToLocal(line)], [NEVER_PULL] + rest, true)
    ensures Weight([NEVER_PULL] + rest) < Weight([line] + rest)
  {
    InsertedLine();
    DeployedCons(line, rest);
    DeployedCons(NEVER_PULL, rest);
    HasImageCons(line, rest);
    WeightCons(line, rest);
    WeightCons(NEVER_PULL, rest);
    Assoc(done, [ToLocal(line)], [NEVER_PULL] + Deployed(rest));
  }

  lemma DeployingOther(original: seq<string>, done: seq<string>, line: string, rest: seq<string>, found: bool)
    requires Deploying(original, done, [line] + rest, found) && !Image(line)
    ensures Deploying(original, done + [line], rest, found) && Weight(rest) < Weight([line] + rest)
  {
    DeployedCons(line, rest);
    HasImageCons(line, rest);
    WeightCons(line, rest);
    Assoc(done, [line], Deployed(rest));
  }

  ghost predicate Reverting(original: seq<string>, done: seq<string>, todo: seq<string>, found: bool, deleted: bool) {
    && Reverted(original) == done + Reverted(todo)
    && (FindsLocal(original) <==> found || FindsLocal(todo))
    && (Deletes(original) <==> deleted || Deletes(todo))
  }

  lemma RevertedCons(l: string, rest: seq<string>)
    ensures Passed([l] + rest) == [l] + Reverted(rest)
    ensures Reverted([l] + rest) == if Policy(Restored(l)) then Passed(rest) else [Restored(l)] + Reverted(rest)
    ensures FindsLocal([l] + rest) <==>
            Local(l) || if Policy(Restored(l)) then PassedFindsLocal(rest) else FindsLocal(rest)
    ensures PassedFindsLocal([l] + rest) <==> FindsLocal(rest)
    ensures Deletes([l] + rest) <==> Policy(Restored(l)) || Deletes(rest)
  {
    assert ([l] + rest)[1..] == rest;
  }

  lemma RevertingKept(
      original: seq<string>, done: seq<string>, line: string, rest: seq<string>, found: bool, deleted: bool)
    requires Reverting(original, done, [line] + rest, found, deleted) && !Policy(Restored(line))
    ensures Reverting(original, done + [Restored(line)], rest, found || Local(line), deleted)
    ensures Weight(rest) < Weight([line] + rest)
  {
    RevertedCons(line, rest);
    WeightCons(line, rest);
    Assoc(done, [Restored(line)], Reverted(rest));
  }

  /** After a deletion the next line is passed over. */
  lemma RevertingDeleted(
      original: seq<string>, done: seq<string>, line: string, rest: seq<string>, found: bool, deleted: bool)
    requires Reverting(original, done, [line] + rest, found, deleted) && Policy(Restored(line))
    ensures rest == [] ==> Reverting(original, done, [], found || Local(line), true)
    ensures rest != [] ==> Reverting(original, done + [rest[0]], rest[1..], found || Local(line), true)
    ensures rest != [] ==> Weight(rest[1..]) < Weight([line] + rest)
  {
    RevertedCons(line, rest);
    WeightCons(line, rest);
    if rest != [] {
      assert rest == [rest[0]] + rest[1..];
      RevertedCons(rest[0], rest[1..]);
      WeightCons(rest[0], rest[1..]);
      Assoc(done, [rest[0]], Reverted(rest[1..]));
    }
  }

  lemma ListAt(done: seq<string>, line: string, rest: seq<string>)
    ensures var lines, i := done + ([line] + rest), |done|;
            && lines[i] == line
            && lines == (done + [line]) + rest
            && lines[..i + 1] == done + [line]
            && lines[i + 1..] == rest
            && lines[..i] == done
            && forall y: string :: lines[i := y] == done + ([y] + rest)
    ensures rest != [] ==> done + rest == (done + [rest[0]]) + rest[1..]
  {
    assert rest != [] ==> rest == [rest[0]] + rest[1..];
  }

  /** The loop over the list it changes: it ends although it inserts, and its result is the specified one. */
  method EditLines(flagType: string, original: seq<string>)
    returns (lines: seq<string>, found: bool, policyFound: bool)
    ensures flagType == "deploy" ==> lines == Deployed(original) && found == HasImage(original) && !policyFound
    ensures flagType == "revert" ==>
              lines == Reverted(original) && found == FindsLocal(original) && policyFound == Deletes(original)
    ensures flagType != "deploy" && flagType != "revert" ==> lines == original && !found && !policyFound
  {
    lines, found, policyFound := original, false, false;
    ghost var done: seq<string>, todo: seq<string> := [], original;
    var i := 0;
    while i < |lines|
      invariant lines == done + todo
      invariant todo == [] <==> i >= |lines|
      invariant todo != [] ==> |done| == i
      invariant flagType == "deploy" ==> Deploying(original, done, todo, found) && !policyFound
      invariant flagType == "revert" ==> Reverting(original, done, todo, found, policyFound)
      invariant flagType != "deploy" && flagType != "revert" ==> lines == original && !found && !policyFound
      decreases Weight(todo)
    {
      var line := lines[i];
      ghost var rest := todo[1..];
      assert todo == [line] + rest;
      ListAt(done, line, rest);
      if flagType == "deploy" {
        if Image(line) {
          DeployingImage(original, done, line, rest, found);
          line := Replace(Replace(line, HOST_IMAGE, LOCAL_IMAGE), LATEST, TEST);
          found := true;
          lines := lines[i := line];
          ListAt(done, line, rest);
          lines := lines[..i + 1] + ([NEVER_PULL] + lines[i + 1..]);
          todo := [NEVER_PULL] + rest;
        } else {
          DeployingOther(original, done, line, rest, found);
          todo := rest;
        }
        done := done + [line];
      } else if flagType == "revert" {
        ghost var read, foundBefore := line, found;
        if Local(line) {
          line := Replace(Replace(line, LOCAL_IMAGE, HOST_IMAGE), TEST, LATEST);
          found := true;
          lines := lines[i := line];
          ListAt(done, line, rest);
        }
        if Policy(line) {
          RevertingDeleted(original, done, read, rest, foundBefore, policyFound);
          lines := lines[..i] + lines[i + 1..];
          policyFound := true;
          done := done + if rest == [] then [] else [rest[0]];
          todo := if rest == [] then [] else rest[1..];
        } else {
          RevertingKept(original, done, read, rest, foundBefore, policyFound);
          done := done + [line];
          todo := rest;
        }
      } else {
        WeightCons(line, rest);
        done := done + [line];
        todo := rest;
      }
      i := i + 1;
    }
  }

  /* ---------- the file ---------- */

  /** Success or failure, and what the file holds afterwards. */
  datatype Outcome = Outcome(code: int, text: string)

  function Update(flagType: string, text: string): Outcome {
    var lines := ReadLines(Translate(text));
    if flagType == "deploy" && HasImage(lines) then Outcome(0, Concat(Deployed(lines)))
    else if flagType == "revert" && FindsLocal(lines) && Deletes(lines) then Outcome(0, Concat(Reverted(lines)))
    else Outcome(-1, text)
  }

  /** What becomes of a write: it succeeds, the file cannot be opened for it, or it breaks off after some text. */
  datatype Disk = Writable | NotWritable | Full(room: nat)

  /** Opening a file for writing empties it, so that a write that breaks off leaves the beginning of the new text. */
  function Saved(before: string, after: string, disk: Disk): Outcome {
    match disk
    case Writable => Outcome(0, after)
    case NotWritable => Outcome(-1, before)
    case Full(room) => if room < |after| then Outcome(-1, after[..room]) else Outcome(0, after)
  }

  /** The whole run on a disk that may fail. */
  function UpdateOn(flagType: string, text: string, disk: Disk): Outcome {
    var run := Update(flagType, text);
    if run.code == 0 then Saved(text, run.text, disk) else run
  }

  /** `None` stands for a file that cannot be opened. */
  method UpdateK8sDeploymentFile(flagType: string, file: Option<string>, disk: Disk)
    returns (code: int, after: Option<string>)
    ensures file == None ==> code == -1 && after == None
    ensures file.Some? ==>
              var run := UpdateOn(flagType, file.value, disk);
              after == Some(run.text) && code == run.code
  {
    if file == None {
      return -1, None;
    }
    var lines, found, policyFound := EditLines(flagType, ReadLines(Translate(file.value)));
    if !found {
      return -1, file;
    }
    if !policyFound && flagType == "revert" {
      return -1, file;
    }
    if disk.NotWritable? {
      return -1, file;
    }
    var text := "";
    for i := 0 to |lines|
      invariant text + Concat(lines[i..]) == Concat(lines)
      invariant disk.Full? ==> |text| <= disk.room
    {
      assert lines[i..][1..] == lines[i + 1..];
      Assoc(text, lines[i], Concat(lines[i + 1..]));
      var longer := text + lines[i];
      if disk.Full? && disk.room < |longer| {
        assert longer + Concat(lines[i + 1..]) == Concat(lines);
        assert (longer + Concat(lines[i + 1..]))[..disk.room] == longer[..disk.room];
        return -1, Some(longer[..disk.room]);
      }
      text := longer;
    }
    assert lines[|lines|..] == [] && text + "" == text;
    return 0, Some(text);
  }
}
