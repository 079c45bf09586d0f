/** Hiding the secrets of an encryption provider configuration, as a transformation of values. */
module Redaction {
  import opened Wrappers
  import opened Strings

  /** A decoded YAML or JSON document. */
  datatype Tree = Scalar(text: string) | Object(entries: map<string, Tree>) | List(items: seq<Tree>)

  /** One level of the way to the key maps: a named field, every element of a list, or every field. */
  datatype Leg = Field(name: string) | Elements | Fields

  type Route = seq<Leg>

  /** resources[i].providers[j][*].keys[k] */
  const ROUTE: Route :=
    [Field("resources"), Elements, Field("providers"), Elements, Fields, Field("keys"), Elements]

  const REDACTED := Scalar("<REDACTED>")

  /** What is done to a key map: hide its secret, or leave it out altogether. */
  datatype Edit = Redact | Strip

  function EditKeyMap(e: Edit, m: map<string, Tree>): map<string, Tree> {
    match e
    case Redact => m["secret" := REDACTED]
    case Strip => m - {"secret"}
  }

  /** The edit applied to every map at the end of the route; whatever has another shape is left alone. */
  function Apply(e: Edit, route: Route, t: Tree): Tree
    decreases |route|
  {
    if route == [] then
      if t.Object? then Object(EditKeyMap(e, t.entries)) else t
    else match route[0]
      case Field(name) =>
        if t.Object? && name in t.entries
        then Object(t.entries[name := Apply(e, route[1..], t.entries[name])]) else t
      case Elements =>
        if t.List? then List(seq(|t.items|, i requires 0 <= i < |t.items| => Apply(e, route[1..], t.items[i])))
        else t
      case Fields =>
        if t.Object? then Object(map k | k in t.entries :: Apply(e, route[1..], t.entries[k])) else t
  }

  function Redacted(t: Tree): Tree {
    Apply(Redact, ROUTE, t)
  }

  function Stripped(t: Tree): Tree {
    Apply(Strip, ROUTE, t)
  }

  /* ---------- redaction forgets the secrets and nothing else ---------- */

  /** Of two edits made one after the other only the last one shows. */
  lemma {:induction false} LastEditWins(d: Edit, e: Edit, route: Route, t: Tree)
    ensures Apply(e, route, Apply(d, route, t)) == Apply(e, route, t)
    decreases |route|
  {
    if route == [] {
      if t.Object? {
        assert EditKeyMap(e, EditKeyMap(d, t.entries)) == EditKeyMap(e, t.entries);
      }
    } else {
      var rest := route[1..];
      match route[0]
      case Field(name) =>
        if t.Object? && name in t.entries {
          LastEditWins(d, e, rest, t.entries[name]);
          assert Apply(e, route, Apply(d, route, t)).entries == Apply(e, route, t).entries;
        }
      case Elements =>
        if t.List? {
          forall i | 0 <= i < |t.items|
            ensures Apply(e, rest, Apply(d, rest, t.items[i])) == Apply(e, rest, t.items[i])
          {
            LastEditWins(d, e, rest, t.items[i]);
          }
          assert Apply(e, route, Apply(d, route, t)).items == Apply(e, route, t).items;
        }
      case Fields =>
        if t.Object? {
          forall k | k in t.entries
            ensures Apply(e, rest, Apply(d, rest, t.entries[k])) == Apply(e, rest, t.entries[k])
          {
            LastEditWins(d, e, rest, t.entries[k]);
          }
          assert Apply(e, route, Apply(d, route, t)).entries == Apply(e, route, t).entries;
        }
    }
  }

  /** Redacting twice is redacting once. */
  lemma RedactionIdempotent(t: Tree)
    ensures Redacted(Redacted(t)) == Redacted(t)
  {
    LastEditWins(Redact, Redact, ROUTE, t);
  }

  /** Two configurations become the same document exactly when they differ in nothing but the value
      or presence of `secret` in the key maps. */
  lemma RedactionForgetsExactlySecrets(s: Tree, t: Tree)
    ensures Redacted(s) == Redacted(t) <==> Stripped(s) == Stripped(t)
  {
    LastEditWins(Redact, Strip, ROUTE, s);
    LastEditWins(Redact, Strip, ROUTE, t);
    LastEditWins(Strip, Redact, ROUTE, s);
    LastEditWins(Strip, Redact, ROUTE, t);
  }

  /* ---------- what is at each place of the result ---------- */

  datatype Hop = Key(name: string) | At(index: nat)
  type Path = seq<Hop>

  function Child(t: Tree, h: Hop): Option<Tree> {
    match h
    case Key(k) => if t.Object? && k in t.entries then Some(t.entries[k]) else None
    case At(i) => if t.List? && i < |t.items| then Some(t.items[i]) else None
  }

  function NodeAt(t: Tree, p: Path): Option<Tree> {
    if p == [] then Some(t)
    else match Child(t, p[0])
      case None => None
      case Some(c) => NodeAt(c, p[1..])
  }

  /** What a place shows by itself: its text, the names of its fields, or its length. */
  datatype Label = Text(text: string) | Names(names: set<string>) | Length(length: nat)

  function Show(t: Tree): Label {
    match t
    case Scalar(s) => Text(s)
    case Object(m) => Names(m.Keys)
    case List(s) => Length(|s|)
  }

  function LabelAt(t: Tree, p: Path): Option<Label> {
    match NodeAt(t, p)
    case None => None
    case Some(n) => Some(Show(n))
  }

  predicate Fits(leg: Leg, h: Hop) {
    match leg
    case Field(name) => h == Key(name)
    case Elements => h.At?
    case Fields => h.Key?
  }

  /** The path follows the route to its end, and perhaps further. */
  predicate Follows(route: Route, p: Path) {
    |p| >= |route| && forall i :: 0 <= i < |route| ==> Fits(route[i], p[i])
  }

  /** The path leads to or through a key map of the document. */
  predicate ReachesKeyMap(route: Route, t: Tree, p: Path) {
    Follows(route, p) && NodeAt(t, p[..|route|]).Some? && NodeAt(t, p[..|route|]).value.Object?
  }

  /** What redaction leaves at a place: a key map gains the field `secret`; that field holds the marker and
      has nothing below it; every other place shows what it showed. */
  function ExpectedLabel(route: Route, t: Tree, p: Path): Option<Label> {
    var n := |route|;
    if ReachesKeyMap(route, t, p) && |p| == n then
      Some(Names(NodeAt(t, p[..n]).value.entries.Keys + {"secret"}))
    else if ReachesKeyMap(route, t, p) && p[n] == Key("secret") then
      if |p| == n + 1 then Some(Text("<REDACTED>")) else None
    else LabelAt(t, p)
  }

  lemma {:induction false} ApplyLabels(route: Route, t: Tree, p: Path)
    ensures LabelAt(Apply(Redact, route, t), p) == ExpectedLabel(route, t, p)
    decreases |route|
  {
    if route == [] {
      KeyMapLabels(t, p);
    } else if p == [] {
      ShapeKept(route, t);
    } else {
      var rest, leg, h, q := route[1..], route[0], p[0], p[1..];
      FollowsStep(route, p);
      match Child(t, h)
      case None => ChildOfApply(route, t, h);
      case Some(c) =>
        ChildOfApply(route, t, h);
        assert |p| >= |route| ==> p[..|route|][1..] == q[..|rest|];
        if Fits(leg, h) {
          ApplyLabels(rest, c, q);
          assert ReachesKeyMap(route, t, p) <==> ReachesKeyMap(rest, c, q);
        } else {
          assert !Follows(route, p);
        }
    }
  }

  lemma FollowsStep(route: Route, p: Path)
    requires route != [] && p != []
    ensures Follows(route, p) <==> Fits(route[0], p[0]) && Follows(route[1..], p[1..])
  {
    if Fits(route[0], p[0]) && Follows(route[1..], p[1..]) {
      forall i | 0 <= i < |route| ensures Fits(route[i], p[i]) {
        if i > 0 {
          assert Fits(route[1..][i - 1], p[1..][i - 1]);
        }
      }
    }
    if Follows(route, p) {
      forall i | 0 <= i < |route[1..]| ensures Fits(route[1..][i], p[1..][i]) {
        assert Fits(route[i + 1], p[i + 1]);
      }
    }
  }

  /** An edit along a route goes into the children that the first leg names and leaves the others. */
  lemma ChildOfApply(route: Route, t: Tree, h: Hop)
    requires route != []
    ensures Child(Apply(Redact, route, t), h) ==
            match Child(t, h)
            case None => None
            case Some(c) => Some(if Fits(route[0], h) then Apply(Redact, route[1..], c) else c)
  {}

  lemma ShapeKept(route: Route, t: Tree)
    requires route != []
    ensures Show(Apply(Redact, route, t)) == Show(t)
  {
    if route[0].Field? && t.Object? && route[0].name in t.entries {
      assert t.entries.Keys + {route[0].name} == t.entries.Keys;
    }
  }

  lemma KeyMapLabels(t: Tree, p: Path)
    ensures LabelAt(Apply(Redact, [], t), p) == ExpectedLabel([], t, p)
  {
    assert p[..0] == [] && NodeAt(t, []) == Some(t);
    if t.Object? {
      var m := t.entries;
      assert m["secret" := REDACTED].Keys == m.Keys + {"secret"};
      if p != [] && p[0] == Key("secret") {
        assert NodeAt(Apply(Redact, [], t), p) == NodeAt(REDACTED, p[1..]);
        assert |p| > 1 ==> Child(REDACTED, p[1..][0]) == None;
      }
    }
  }

  /** Main result, for a document of any shape and every place in it. */
  lemma RedactionExactEverywhere(t: Tree, p: Path)
    ensures LabelAt(Redacted(t), p) == ExpectedLabel(ROUTE, t, p)
  {
    ApplyLabels(ROUTE, t, p);
  }

  /** The key maps are the maps at `resources[i].providers[j][x].keys[k]`. */
  lemma KeyMapPaths(p: Path)
    ensures |p| == 7 ==>
              (Follows(ROUTE, p) <==>
                p[0] == Key("resources") && p[1].At? && p[2] == Key("providers") && p[3].At?
                && p[4].Key? && p[5] == Key("keys") && p[6].At?)
  {
    if |p| == 7 {
      assert ROUTE[0] == Field("resources") && ROUTE[1] == Elements && ROUTE[2] == Field("providers");
      assert ROUTE[3] == Elements && ROUTE[4] == Fields && ROUTE[5] == Field("keys") && ROUTE[6] == Elements;
      if Follows(ROUTE, p) {
        assert Fits(ROUTE[0], p[0]) && Fits(ROUTE[1], p[1]) && Fits(ROUTE[2], p[2]) && Fits(ROUTE[3], p[3]);
        assert Fits(ROUTE[4], p[4]) && Fits(ROUTE[5], p[5]) && Fits(ROUTE[6], p[6]);
      }
    }
  }
}
