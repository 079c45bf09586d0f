/** Lexical path cleaning and joining, as `path.Clean` and `path.Join` define them. */
module Paths {
  import opened Sequences
  import opened Strings
  import opened Sorting

  /** One component applied to the components kept so far. */
  function Push(rooted: bool, kept: seq<string>, part: string): seq<string> {
    if part == "" || part == "." then kept
    else if part != ".." then kept + [part]
    else if kept != [] && kept[|kept| - 1] != ".." then kept[..|kept| - 1]
    else if rooted then kept
    else kept + [".."]
  }

  function PushAll(rooted: bool, kept: seq<string>, parts: seq<string>): seq<string>
    decreases |parts|
  {
    if parts == [] then kept else PushAll(rooted, Push(rooted, kept, parts[0]), parts[1..])
  }

  predicate Rooted(path: string) {
    path != "" && path[0] == '/'
  }

  /** The components that are left of a path. */
  function Kept(path: string): seq<string> {
    PushAll(Rooted(path), [], Split(path, '/'))
  }

  function Clean(path: string): string {
    var kept := Kept(path);
    if Rooted(path) then "/" + Join(kept, "/")
    else if kept == [] then "."
    else Join(kept, "/")
  }

  function JoinPath(a: string, b: string): string {
    if a == "" && b == "" then ""
    else if a == "" then Clean(b)
    else Clean(a + ("/" + b))
  }

  /** A file name as a directory listing gives it. */
  predicate PlainFile(name: string) {
    name != "" && '/' !in name && name != "." && name != ".."
  }

  /** What joining puts in front of a plain file name. */
  function DirPrefix(dir: string): string {
    var kept := Kept(dir);
    (if Rooted(dir) then "/" else "") + if kept == [] then "" else Join(kept, "/") + "/"
  }

  lemma {:induction false} PushAllConcat(rooted: bool, kept: seq<string>, a: seq<string>, b: seq<string>)
    ensures PushAll(rooted, kept, a + b) == PushAll(rooted, PushAll(rooted, kept, a), b)
    decreases |a|
  {
    if a == [] {
      assert a + b == b;
    } else {
      assert (a + b)[1..] == a[1..] + b;
      PushAllConcat(rooted, Push(rooted, kept, a[0]), a[1..], b);
    }
  }

  lemma {:induction false} SplitLast(s: string, name: string, c: char)
    requires c !in name
    ensures Split(s + ([c] + name), c) == Split(s, c) + [name]
    decreases |s|
  {
    if c in s {
      var h, t := Head(s, c), Tail(s, c);
      SplitLast(t, name, c);
      HeadTail(s, c);
      Assoc(h, [c] + t, [c] + name);
      Assoc([c], t, [c] + name);
      SplitCons(h, c, t + ([c] + name));
    } else {
      SplitCons(s, c, name);
    }
  }

  lemma {:induction false} JoinLast(parts: seq<string>, last: string, sep: string)
    ensures Join(parts + [last], sep) == (if parts == [] then "" else Join(parts, sep) + sep) + last
  {
    if |parts| == 0 {
    } else {
      var first, others := parts[0], parts[1..];
      assert parts == [first] + others;
      assert parts + [last] == [first] + (others + [last]);
      JoinCons(first, others + [last], sep);
      JoinLast(others, last, sep);
      if others == [] {
        assert Join(parts, sep) == first;
        Assoc(first, sep, last);
      } else {
        JoinCons(first, others, sep);
        JoinLastStep(first, sep, Join(others, sep), last);
      }
    }
  }

  lemma JoinLastStep(first: string, sep: string, mid: string, last: string)
    ensures first + (sep + ((mid + sep) + last)) == ((first + (sep + mid)) + sep) + last
  {
    Assoc(sep, mid + sep, last);
    Assoc(sep, mid, sep);
    Assoc(first, sep + mid, sep);
    Assoc(first, (sep + mid) + sep, last);
  }

  lemma PushPlain(rooted: bool, kept: seq<string>, name: string)
    requires PlainFile(name)
    ensures PushAll(rooted, kept, [name]) == kept + [name]
  {
    assert [name][1..] == [];
    assert PushAll(rooted, kept, [name]) == PushAll(rooted, kept + [name], []);
  }

  lemma CleanPlain(name: string)
    requires PlainFile(name)
    ensures Clean(name) == name && DirPrefix("") == ""
  {
    assert Split(name, '/') == [name];
    PushPlain(false, [], name);
    assert [] + [name] == [name];
    assert Split("", '/') == [""] && [""][1..] == [];
    assert PushAll(false, [], [""]) == PushAll(false, [], []) == [];
  }

  lemma KeptOfFile(dir: string, name: string)
    requires dir != "" && PlainFile(name)
    ensures Rooted(dir + ("/" + name)) == Rooted(dir)
    ensures Kept(dir + ("/" + name)) == Kept(dir) + [name]
  {
    SplitLast(dir, name, '/');
    PushAllConcat(Rooted(dir), [], Split(dir, '/'), [name]);
    PushPlain(Rooted(dir), Kept(dir), name);
  }

  lemma JoinedFile(kept: seq<string>, name: string)
    ensures var front := if kept == [] then "" else Join(kept, "/") + "/";
            Join(kept + [name], "/") == front + name && "/" + (front + name) == ("/" + front) + name
  {
    JoinLast(kept, name, "/");
    Assoc("/", if kept == [] then "" else Join(kept, "/") + "/", name);
  }

  /** Joining a plain file name puts one and the same prefix in front of every name. */
  lemma JoinPlain(dir: string, name: string)
    requires PlainFile(name)
    ensures JoinPath(dir, name) == DirPrefix(dir) + name
  {
    if dir == "" {
      CleanPlain(name);
    } else {
      KeptOfFile(dir, name);
      JoinedFile(Kept(dir), name);
    }
  }

  /* ---------- what cleaning does ---------- */

  /** The absolute path of these components. */
  function Abs(parts: seq<string>): string {
    "/" + Join(parts, "/")
  }

  ghost predicate NoSlashes(parts: seq<string>) {
    forall k :: 0 <= k < |parts| ==> '/' !in parts[k]
  }

  ghost predicate AllPlain(parts: seq<string>) {
    forall k :: 0 <= k < |parts| ==> PlainFile(parts[k])
  }

  /** The path, absolute or relative, of these components. */
  function PathOf(rooted: bool, parts: seq<string>): string {
    if rooted then Abs(parts) else Join(parts, "/")
  }

  /** The components spell such a path. */
  ghost predicate Spells(rooted: bool, parts: seq<string>) {
    NoSlashes(parts) && (rooted || parts == [] || parts[0] != "")
  }

  lemma KeptOfAbs(parts: seq<string>)
    requires NoSlashes(parts)
    ensures Rooted(Abs(parts)) && Kept(Abs(parts)) == PushAll(true, [], parts)
  {
    SplitCons("", '/', Join(parts, "/"));
    assert "" + (['/'] + Join(parts, "/")) == Abs(parts);
    if parts == [] {
      assert Split("", '/') == [""] && [""] + [""] == ["", ""] && ["", ""][1..] == [""] && [""][1..] == [];
    } else {
      JoinSplit(parts, '/');
      assert ([""] + parts)[1..] == parts;
    }
  }

  lemma KeptOfPath(rooted: bool, parts: seq<string>)
    requires Spells(rooted, parts)
    ensures Rooted(PathOf(rooted, parts)) == rooted
    ensures Kept(PathOf(rooted, parts)) == PushAll(rooted, [], parts)
  {
    if rooted {
      KeptOfAbs(parts);
    } else if parts == [] {
      assert Split("", '/') == [""] && [""][1..] == [];
    } else {
      JoinStart(parts);
      JoinSplit(parts, '/');
      assert parts[0][0] in parts[0];
    }
  }

  /** An absolute path of plain components is clean. */
  lemma CleanKeepsPlain(parts: seq<string>)
    requires AllPlain(parts)
    ensures Clean(Abs(parts)) == Abs(parts)
  {
    KeptOfAbs(parts);
    PushAllPlain(true, [], parts);
    assert [] + parts == parts;
  }

  lemma {:induction false} PushAllPlain(rooted: bool, kept: seq<string>, parts: seq<string>)
    requires AllPlain(parts)
    ensures PushAll(rooted, kept, parts) == kept + parts
    decreases |parts|
  {
    if parts == [] {
    } else {
      PushAllPlain(rooted, kept + [parts[0]], parts[1..]);
      assert (kept + [parts[0]]) + parts[1..] == kept + parts;
    }
  }

  /** Empty and `.` components are left out, wherever they are. */
  lemma CleanSkips(rooted: bool, a: seq<string>, part: string, b: seq<string>)
    requires part == "" || part == "."
    requires Spells(rooted, a + ([part] + b)) && Spells(rooted, a + b)
    ensures Clean(PathOf(rooted, a + ([part] + b))) == Clean(PathOf(rooted, a + b))
  {
    KeptOfPath(rooted, a + ([part] + b));
    KeptOfPath(rooted, a + b);
    PushAllConcat(rooted, [], a, [part] + b);
    PushAllConcat(rooted, [], a, b);
    assert ([part] + b)[1..] == b;
  }

  lemma PushBack(rooted: bool, kept: seq<string>, part: string, b: seq<string>)
    requires PlainFile(part)
    ensures PushAll(rooted, kept, [part, ".."] + b) == PushAll(rooted, kept, b)
  {
    assert ([part, ".."] + b)[1..] == [".."] + b && ([".."] + b)[1..] == b;
    assert (kept + [part])[..|kept|] == kept;
  }

  /** A component and a `..` behind it cancel out. */
  lemma CleanBacktracks(rooted: bool, a: seq<string>, part: string, b: seq<string>)
    requires PlainFile(part)
    requires Spells(rooted, a + ([part, ".."] + b)) && Spells(rooted, a + b)
    ensures Clean(PathOf(rooted, a + ([part, ".."] + b))) == Clean(PathOf(rooted, a + b))
  {
    KeptOfPath(rooted, a + ([part, ".."] + b));
    KeptOfPath(rooted, a + b);
    PushAllConcat(rooted, [], a, [part, ".."] + b);
    PushAllConcat(rooted, [], a, b);
    PushBack(rooted, PushAll(rooted, [], a), part, b);
  }

  /** There is nothing above the root. */
  lemma CleanAtRoot(b: seq<string>)
    requires NoSlashes(b)
    ensures Clean(Abs([".."] + b)) == Clean(Abs(b))
  {
    KeptOfAbs([".."] + b);
    KeptOfAbs(b);
    assert ([".."] + b)[1..] == b;
  }

  /** A relative path keeps the `..` that it starts with. */
  lemma CleanKeepsParents(ups: seq<string>, parts: seq<string>)
    requires (forall k :: 0 <= k < |ups| ==> ups[k] == "..") && AllPlain(parts) && ups + parts != []
    ensures Clean(Join(ups + parts, "/")) == Join(ups + parts, "/")
  {
    var all := ups + parts;
    JoinSplit(all, '/');
    JoinStart(all);
    PushUps([], ups);
    PushAllConcat(false, [], ups, parts);
    PushAllPlain(false, ups, parts);
    assert [] + ups == ups;
  }

  /** A relative path of which nothing is left is `.`. */
  lemma CleanNothing()
    ensures Clean("") == "."
  {
    KeptOfPath(false, []);
  }

  lemma JoinStart(parts: seq<string>)
    requires parts != [] && parts[0] != ""
    ensures Join(parts, "/") != "" && Join(parts, "/")[0] == parts[0][0]
  {
    if |parts| > 1 {
      assert parts == [parts[0]] + parts[1..];
      JoinCons(parts[0], parts[1..], "/");
    }
  }

  lemma {:induction false} PushUps(kept: seq<string>, ups: seq<string>)
    requires forall k :: 0 <= k < |ups| ==> ups[k] == ".."
    requires kept == [] || kept[|kept| - 1] == ".."
    ensures PushAll(false, kept, ups) == kept + ups
    decreases |ups|
  {
    if ups == [] {
    } else {
      PushUps(kept + [".."], ups[1..]);
      assert (kept + [".."]) + ups[1..] == kept + ups;
    }
  }

  /** Joining two absolute paths puts one behind the other. */
  lemma JoinAbs(a: seq<string>, b: seq<string>)
    requires AllPlain(a) && a != [] && AllPlain(b) && b != []
    ensures JoinPath(Abs(a), Abs(b)) == Abs(a + b)
  {
    JoinTwo(a, b);
    assert forall k :: 0 <= k < |a| ==> (a + b)[k] == a[k] && (a + ([""] + b))[k] == a[k];
    CleanSkips(true, a, "", b);
    CleanKeepsPlain(a + b);
  }

  lemma {:induction false} JoinTwo(a: seq<string>, b: seq<string>)
    requires a != [] && b != []
    ensures Abs(a) + ("/" + Abs(b)) == Abs(a + ([""] + b))
  {
    JoinMiddle(a, [""] + b);
    JoinCons("", b, "/");
    Assoc("/", Join(a, "/"), "/" + ("" + ("/" + Join(b, "/"))));
  }

  lemma {:induction false} JoinMiddle(a: seq<string>, b: seq<string>)
    requires a != [] && b != []
    ensures Join(a + b, "/") == Join(a, "/") + ("/" + Join(b, "/"))
  {
    if |a| == 1 {
      assert a == [a[0]];
      JoinCons(a[0], b, "/");
    } else {
      assert a == [a[0]] + a[1..] && a + b == [a[0]] + (a[1..] + b);
      JoinMiddle(a[1..], b);
      JoinCons(a[0], a[1..], "/");
      JoinCons(a[0], a[1..] + b, "/");
      Assoc("/", Join(a[1..], "/"), "/" + Join(b, "/"));
      Assoc(a[0], "/" + Join(a[1..], "/"), "/" + Join(b, "/"));
    }
  }

  /* ---------- sorting full paths ---------- */

  function Prefixed(prefix: string, names: seq<string>): seq<string> {
    if names == [] then [] else [prefix + names[0]] + Prefixed(prefix, names[1..])
  }

  lemma {:induction false} InsertPrefixed(prefix: string, x: string, names: seq<string>)
    ensures Insert(prefix + x, Prefixed(prefix, names)) == Prefixed(prefix, Insert(x, names))
  {
    if names != [] {
      LeqPrefixed(prefix, x, names[0]);
      var rest := Prefixed(prefix, names[1..]);
      assert Prefixed(prefix, names)[1..] == rest;
      if Leq(x, names[0]) {
        assert ([x] + names)[1..] == names;
      } else {
        InsertPrefixed(prefix, x, names[1..]);
        assert ([names[0]] + Insert(x, names[1..]))[1..] == Insert(x, names[1..]);
      }
    } else {
      assert Prefixed(prefix, [x]) == [prefix + x];
    }
  }

  /** Sorting paths that share their directory is sorting the names. */
  lemma {:induction false} SortPrefixed(prefix: string, names: seq<string>)
    ensures Sort(Prefixed(prefix, names)) == Prefixed(prefix, Sort(names))
  {
    if names == [] {
    } else {
      SortPrefixed(prefix, names[1..]);
      assert Prefixed(prefix, names)[1..] == Prefixed(prefix, names[1..]);
      InsertPrefixed(prefix, names[0], Sort(names[1..]));
    }
  }
}
