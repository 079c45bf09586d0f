/** The same redaction done in place on the decoded document: maps and slices that are shared by reference. */
module RedactionHeap {
  import opened Redaction

  /** A decoded mapping; updating it is seen through every reference to it. */
  class Mapping {
    var entries: map<string, Value>

    constructor (entries: map<string, Value>)
      ensures this.entries == entries
    {
      this.entries := entries;
    }
  }

  /** What an `interface{}` of the document may hold; a slice is its backing array. */
  datatype Value = Plain(text: string) | Map(m: Mapping) | Slice(a: array<Value>)

  /** The document as a tree of values together with the objects that hold them. */
  datatype Own = Leaf(text: string) | Dict(m: Mapping, kids: map<string, Own>) | Arr(a: array<Value>, list: seq<Own>)

  ghost function Root(o: Own): Value {
    match o
    case Leaf(s) => Plain(s)
    case Dict(m, _) => Map(m)
    case Arr(a, _) => Slice(a)
  }

  /** The document without its objects. */
  ghost function Erase(o: Own): Tree {
    match o
    case Leaf(s) => Scalar(s)
    case Dict(_, kids) => Object(map k | k in kids :: Erase(kids[k]))
    case Arr(_, list) => List(seq(|list|, i requires 0 <= i < |list| => Erase(list[i])))
  }

  ghost function MapUnion<T>(parts: map<string, set<T>>): set<T> {
    set k, x | k in parts && x in parts[k] :: x
  }

  ghost function ListUnion<T>(parts: seq<set<T>>): set<T> {
    set i, x | 0 <= i < |parts| && x in parts[i] :: x
  }

  /** Every object of the document. */
  ghost function Objs(o: Own): set<object> {
    match o
    case Leaf(_) => {}
    case Dict(m, kids) => {m} + MapUnion(map k | k in kids :: Objs(kids[k]))
    case Arr(a, list) => {a} + ListUnion(seq(|list|, i requires 0 <= i < |list| => Objs(list[i])))
  }

  lemma FieldOwned(o: Own, k: string)
    requires o.Dict? && k in o.kids
    ensures Objs(o.kids[k]) <= Objs(o)
  {
    var parts := map j | j in o.kids :: Objs(o.kids[j]);
    assert parts[k] <= MapUnion(parts);
  }

  lemma ElementOwned(o: Own, i: nat)
    requires o.Arr? && i < |o.list|
    ensures Objs(o.list[i]) <= Objs(o)
  {
    var parts := seq(|o.list|, j requires 0 <= j < |o.list| => Objs(o.list[j]));
    assert parts[i] <= ListUnion(parts);
  }

  /** The heap holds this document: every object refers to the roots of its children. */
  ghost predicate Holds(o: Own)
    reads Objs(o)
    decreases o
  {
    match o
    case Leaf(_) => true
    case Dict(m, kids) =>
      && m.entries.Keys == kids.Keys
      && forall k | k in kids ::
           m.entries[k] == Root(kids[k]) && (FieldOwned(o, k); Holds(kids[k]))
    case Arr(a, list) =>
      && a.Length == |list|
      && forall i | 0 <= i < |list| ::
           a[i] == Root(list[i]) && (ElementOwned(o, i); Holds(list[i]))
  }

  /** A tree: no object occurs twice. Decoding a document builds no shared parts. */
  ghost predicate Distinct(o: Own)
    decreases o
  {
    match o
    case Leaf(_) => true
    case Dict(m, kids) =>
      && (forall k | k in kids :: m !in Objs(kids[k]) && Distinct(kids[k]))
      && (forall j, k | j in kids && k in kids && j != k :: Objs(kids[j]) !! Objs(kids[k]))
    case Arr(a, list) =>
      && (forall i | 0 <= i < |list| :: a !in Objs(list[i]) && Distinct(list[i]))
      && (forall i, j | 0 <= i < j < |list| :: Objs(list[i]) !! Objs(list[j]))
  }

  /** The document after redaction, in the same objects. */
  ghost function Redo(route: Route, o: Own): Own
    decreases |route|
  {
    if route == [] then
      if o.Dict? then o.(kids := o.kids["secret" := Leaf("<REDACTED>")]) else o
    else match route[0]
      case Field(name) =>
        if o.Dict? && name in o.kids then o.(kids := o.kids[name := Redo(route[1..], o.kids[name])]) else o
      case Elements =>
        if o.Arr? then o.(list := seq(|o.list|, i requires 0 <= i < |o.list| => Redo(route[1..], o.list[i])))
        else o
      case Fields =>
        if o.Dict? then o.(kids := map k | k in o.kids :: Redo(route[1..], o.kids[k])) else o
  }

  /* ---------- what a loop must know of the document ---------- */

  /** A map or slice passed on the way to the key maps, and what it holds. */
  datatype Slot = MapSlot(m: Mapping, fields: map<string, Value>) | ListSlot(a: array<Value>, elements: seq<Value>)

  ghost function Obj(s: Slot): object {
    match s
    case MapSlot(m, _) => m
    case ListSlot(a, _) => a
  }

  ghost predicate Intact(s: Slot)
    reads Obj(s)
  {
    match s
    case MapSlot(m, fields) => m.entries == fields
    case ListSlot(a, elements) => a.Length == |elements| && forall i | 0 <= i < a.Length :: a[i] == elements[i]
  }

  /** One value on the way: the key maps below it, the slots from it on, and where it leads. */
  datatype Plan = Plan(value: Value, maps: set<Mapping>, slots: set<Slot>, step: Step)
  datatype Step =
    | Stop                                                    // a value of another shape
    | Hit                                                     // a key map
    | Miss(fields: map<string, Value>)                        // a map without the field asked for
    | Via(fields: map<string, Value>, next: Plan)             // a map with it
    | Each(elements: seq<Value>, nexts: seq<Plan>)
    | Every(fields: map<string, Value>, named: map<string, Plan>)

  ghost function AllMaps(plans: seq<Plan>): set<Mapping> {
    if plans == [] then {} else AllMaps(plans[..|plans| - 1]) + plans[|plans| - 1].maps
  }

  /** The plan fits the route, and what it sums up is what its parts say. */
  ghost predicate Good(p: Plan, route: Route)
    decreases |route|
  {
    && Shape(p, route)
    && match p.step
      case Via(_, next) => Within(next, p) && Good(next, route[1..])
      case Each(_, nexts) => forall i | 0 <= i < |nexts| :: Within(nexts[i], p) && Good(nexts[i], route[1..])
      case Every(_, named) => forall k | k in named :: Within(named[k], p) && Good(named[k], route[1..])
      case Hit => p.maps == {p.value.m}
      case _ => p.maps == {}
  }

  ghost predicate Within(part: Plan, p: Plan) {
    part.maps <= p.maps && part.slots <= p.slots
  }

  ghost predicate Shape(p: Plan, route: Route) {
    match p.step
    case Stop => if route == [] || !route[0].Elements? then !p.value.Map? else !p.value.Slice?
    case Hit => route == [] && p.value.Map?
    case Miss(fields) =>
      && route != [] && route[0].Field? && p.value.Map? && MapSlot(p.value.m, fields) in p.slots
      && route[0].name !in fields
    case Via(fields, next) =>
      && route != [] && route[0].Field? && p.value.Map? && MapSlot(p.value.m, fields) in p.slots
      && route[0].name in fields && fields[route[0].name] == next.value && p.maps == next.maps
    case Each(elements, nexts) =>
      && route != [] && route[0].Elements? && p.value.Slice? && ListSlot(p.value.a, elements) in p.slots
      && |elements| == |nexts| && (forall i | 0 <= i < |nexts| :: elements[i] == nexts[i].value)
      && p.maps == AllMaps(nexts)
    case Every(fields, named) =>
      && route != [] && route[0].Fields? && p.value.Map? && MapSlot(p.value.m, fields) in p.slots
      && fields.Keys == named.Keys && (forall k | k in named :: fields[k] == named[k].value)
      && (forall m | m in p.maps :: exists k :: k in named && m in named[k].maps)
  }

  /** The heap is as planned along the way, and no key map is passed on the way to another. */
  ghost predicate Ready(p: Plan)
    reads set s | s in p.slots :: Obj(s)
  {
    Apart(p) && forall s | s in p.slots :: Intact(s)
  }

  ghost function AllSlots(plans: seq<Plan>): set<Slot> {
    if plans == [] then {} else AllSlots(plans[..|plans| - 1]) + plans[|plans| - 1].slots
  }

  /** The plan of a document. */
  ghost function PlanOf(route: Route, o: Own): Plan
    decreases |route|
  {
    if route == [] then
      if o.Dict? then Plan(Root(o), {o.m}, {}, Hit) else Plan(Root(o), {}, {}, Stop)
    else match route[0]
      case Field(name) =>
        if !o.Dict? then Plan(Root(o), {}, {}, Stop)
        else
          var fields := map k | k in o.kids :: Root(o.kids[k]);
          var slot := MapSlot(o.m, fields);
          if name !in o.kids then Plan(Root(o), {}, {slot}, Miss(fields))
          else
            var next := PlanOf(route[1..], o.kids[name]);
            Plan(Root(o), next.maps, {slot} + next.slots, Via(fields, next))
      case Elements =>
        if !o.Arr? then Plan(Root(o), {}, {}, Stop)
        else
          var elements := seq(|o.list|, i requires 0 <= i < |o.list| => Root(o.list[i]));
          var nexts := seq(|o.list|, i requires 0 <= i < |o.list| => PlanOf(route[1..], o.list[i]));
          Plan(Root(o), AllMaps(nexts), {ListSlot(o.a, elements)} + AllSlots(nexts), Each(elements, nexts))
      case Fields =>
        if !o.Dict? then Plan(Root(o), {}, {}, Stop)
        else
          var fields := map k | k in o.kids :: Root(o.kids[k]);
          var named := map k | k in o.kids :: PlanOf(route[1..], o.kids[k]);
          Plan(Root(o), MapUnion(map k | k in named :: named[k].maps),
               {MapSlot(o.m, fields)} + MapUnion(map k | k in named :: named[k].slots), Every(fields, named))
  }

  /** What a list of plans sums up is what they have, and no more. */
  lemma {:induction false} SumOfList(plans: seq<Plan>)
    ensures forall i | 0 <= i < |plans| :: plans[i].maps <= AllMaps(plans) && plans[i].slots <= AllSlots(plans)
    ensures forall m | m in AllMaps(plans) :: exists i :: 0 <= i < |plans| && m in plans[i].maps
    ensures forall s | s in AllSlots(plans) :: exists i :: 0 <= i < |plans| && s in plans[i].slots
  {
    if plans == [] {
    } else {
      var n := |plans| - 1;
      SumOfList(plans[..n]);
      assert forall i | 0 <= i < n :: plans[..n][i] == plans[i];
    }
  }

  lemma SumOfMap(named: map<string, Plan>)
    ensures var maps := MapUnion(map k | k in named :: named[k].maps);
            var slots := MapUnion(map k | k in named :: named[k].slots);
            && (forall k | k in named :: named[k].maps <= maps && named[k].slots <= slots)
            && (forall m | m in maps :: exists k :: k in named && m in named[k].maps)
            && (forall s | s in slots :: exists k :: k in named && s in named[k].slots)
  {
    var maps := map k | k in named :: named[k].maps;
    var slots := map k | k in named :: named[k].slots;
    forall k | k in named ensures named[k].maps <= MapUnion(maps) && named[k].slots <= MapUnion(slots) {
      assert maps[k] <= MapUnion(maps) && slots[k] <= MapUnion(slots);
    }
    forall m | m in MapUnion(maps) ensures exists k :: k in named && m in named[k].maps {
      var k :| k in maps && m in maps[k];
    }
    forall s | s in MapUnion(slots) ensures exists k :: k in named && s in named[k].slots {
      var k :| k in slots && s in slots[k];
    }
  }

  lemma {:induction false} PlanIsGood(route: Route, o: Own)
    ensures Good(PlanOf(route, o), route)
    decreases |route|
  {
    if route == [] {
    } else {
      var rest := route[1..];
      if route[0].Field? && o.Dict? && route[0].name in o.kids {
        PlanIsGood(rest, o.kids[route[0].name]);
      } else if route[0].Elements? && o.Arr? {
        forall i | 0 <= i < |o.list| ensures Good(PlanOf(rest, o.list[i]), rest) {
          PlanIsGood(rest, o.list[i]);
        }
        ListPlanIsGood(route, o);
      } else if route[0].Fields? && o.Dict? {
        forall k | k in o.kids ensures Good(PlanOf(rest, o.kids[k]), rest) {
          PlanIsGood(rest, o.kids[k]);
        }
        MapPlanIsGood(route, o);
      }
    }
  }

  lemma ListPlanHasShape(route: Route, o: Own)
    requires route != [] && route[0].Elements? && o.Arr?
    ensures Shape(PlanOf(route, o), route)
  {}

  lemma MapPlanHasShape(route: Route, o: Own)
    requires route != [] && route[0].Fields? && o.Dict?
    ensures Shape(PlanOf(route, o), route)
  {
    SumOfMap(PlanOf(route, o).step.named);
  }

  lemma ListPlanIsGood(route: Route, o: Own)
    requires route != [] && route[0].Elements? && o.Arr?
    requires forall i | 0 <= i < |o.list| :: Good(PlanOf(route[1..], o.list[i]), route[1..])
    ensures Good(PlanOf(route, o), route)
  {
    ListPlanHasShape(route, o);
    var p, rest := PlanOf(route, o), route[1..];
    SumOfList(p.step.nexts);
    forall i | 0 <= i < |o.list| ensures Good(p.step.nexts[i], rest) {
      assert p.step.nexts[i] == PlanOf(rest, o.list[i]);
    }
    GoodList(p, route);
  }

  lemma GoodList(p: Plan, route: Route)
    requires Shape(p, route) && p.step.Each?
    requires forall i | 0 <= i < |p.step.nexts| :: Within(p.step.nexts[i], p) && Good(p.step.nexts[i], route[1..])
    ensures Good(p, route)
  {}

  lemma MapPlanIsGood(route: Route, o: Own)
    requires route != [] && route[0].Fields? && o.Dict?
    requires forall k | k in o.kids :: Good(PlanOf(route[1..], o.kids[k]), route[1..])
    ensures Good(PlanOf(route, o), route)
  {
    MapPlanHasShape(route, o);
    var p, rest := PlanOf(route, o), route[1..];
    SumOfMap(p.step.named);
    forall k | k in o.kids ensures Good(p.step.named[k], rest) {
      assert p.step.named[k] == PlanOf(rest, o.kids[k]);
    }
    GoodMap(p, route);
  }

  lemma GoodMap(p: Plan, route: Route)
    requires Shape(p, route) && p.step.Every?
    requires forall k | k in p.step.named :: Within(p.step.named[k], p) && Good(p.step.named[k], route[1..])
    ensures Good(p, route)
  {}

  ghost predicate Inside(p: Plan, objs: set<object>) {
    p.maps <= objs && forall s | s in p.slots :: Obj(s) in objs
  }

  /** A plan speaks of objects of the document only. */
  lemma {:induction false} PlanInside(route: Route, o: Own)
    ensures Inside(PlanOf(route, o), Objs(o))
    decreases |route|
  {
    if route == [] {
    } else {
      var p, rest := PlanOf(route, o), route[1..];
      if route[0].Field? && o.Dict? && route[0].name in o.kids {
        PlanInside(rest, o.kids[route[0].name]);
        FieldOwned(o, route[0].name);
      } else if route[0].Elements? && o.Arr? {
        SumOfList(p.step.nexts);
        forall i | 0 <= i < |o.list| ensures Inside(p.step.nexts[i], Objs(o)) {
          PlanInside(rest, o.list[i]);
          ElementOwned(o, i);
        }
      } else if route[0].Fields? && o.Dict? {
        SumOfMap(p.step.named);
        forall k | k in o.kids ensures Inside(p.step.named[k], Objs(o)) {
          PlanInside(rest, o.kids[k]);
          FieldOwned(o, k);
        }
      }
    }
  }

  ghost predicate Apart(p: Plan) {
    forall s, m | s in p.slots && m in p.maps :: Obj(s) != m
  }

  /** In a tree no key map is passed on the way to another. */
  lemma {:induction false} PlanApart(route: Route, o: Own)
    requires Distinct(o)
    ensures Apart(PlanOf(route, o))
    decreases |route|
  {
    if route == [] {
    } else {
      var p, rest := PlanOf(route, o), route[1..];
      if route[0].Field? && o.Dict? && route[0].name in o.kids {
        PlanApart(rest, o.kids[route[0].name]);
        PlanInside(rest, o.kids[route[0].name]);
      } else if route[0].Elements? && o.Arr? {
        var nexts := p.step.nexts;
        forall i | 0 <= i < |o.list| ensures Apart(nexts[i]) && Inside(nexts[i], Objs(o.list[i])) {
          PlanApart(rest, o.list[i]);
          PlanInside(rest, o.list[i]);
        }
        PartsApart(o.a, seq(|nexts|, i requires 0 <= i < |nexts| => Objs(o.list[i])), nexts);
      } else if route[0].Fields? && o.Dict? {
        var named := p.step.named;
        forall k | k in o.kids ensures Apart(named[k]) && Inside(named[k], Objs(o.kids[k])) {
          PlanApart(rest, o.kids[k]);
          PlanInside(rest, o.kids[k]);
        }
        NamedPartsApart(o.m, map k | k in named :: Objs(o.kids[k]), named);
      }
    }
  }

  /** Parts in places apart from one another, and from what holds them. */
  lemma PartsApart(holder: object, places: seq<set<object>>, plans: seq<Plan>)
    requires |places| == |plans|
    requires forall i | 0 <= i < |plans| :: Apart(plans[i]) && Inside(plans[i], places[i]) && holder !in places[i]
    requires forall i, j | 0 <= i < j < |plans| :: places[i] !! places[j]
    ensures forall m | m in AllMaps(plans) :: holder != m
    ensures forall s, m | s in AllSlots(plans) && m in AllMaps(plans) :: Obj(s) != m
  {
    SumOfList(plans);
    forall s, m | s in AllSlots(plans) && m in AllMaps(plans) ensures Obj(s) != m {
      var i :| 0 <= i < |plans| && s in plans[i].slots;
      var j :| 0 <= j < |plans| && m in plans[j].maps;
      assert Obj(s) in places[i] && m in places[j];
    }
  }

  lemma NamedPartsApart(holder: object, places: map<string, set<object>>, plans: map<string, Plan>)
    requires places.Keys == plans.Keys
    requires forall k | k in plans :: Apart(plans[k]) && Inside(plans[k], places[k]) && holder !in places[k]
    requires forall j, k | j in plans && k in plans && j != k :: places[j] !! places[k]
    ensures var maps := MapUnion(map k | k in plans :: plans[k].maps);
            var slots := MapUnion(map k | k in plans :: plans[k].slots);
            (forall m | m in maps :: holder != m) && (forall s, m | s in slots && m in maps :: Obj(s) != m)
  {
    SumOfMap(plans);
    var maps, slots := MapUnion(map k | k in plans :: plans[k].maps), MapUnion(map k | k in plans :: plans[k].slots);
    forall s, m | s in slots && m in maps ensures Obj(s) != m {
      var j :| j in plans && s in plans[j].slots;
      var k :| k in plans && m in plans[k].maps;
      assert Obj(s) in places[j] && m in places[k];
    }
  }

  /** A heap that holds the document is as planned. */
  lemma {:induction false} PlanIntact(route: Route, o: Own)
    requires Holds(o)
    ensures forall s | s in PlanOf(route, o).slots :: Intact(s)
    decreases |route|
  {
    if route == [] {
    } else {
      var p, rest := PlanOf(route, o), route[1..];
      if route[0].Field? && o.Dict? && route[0].name in o.kids {
        PlanIntact(rest, o.kids[route[0].name]);
      } else if route[0].Elements? && o.Arr? {
        SumOfList(p.step.nexts);
        forall i | 0 <= i < |o.list| ensures forall s | s in p.step.nexts[i].slots :: Intact(s) {
          PlanIntact(rest, o.list[i]);
        }
      } else if route[0].Fields? && o.Dict? {
        SumOfMap(p.step.named);
        forall k | k in o.kids ensures forall s | s in p.step.named[k].slots :: Intact(s) {
          PlanIntact(rest, o.kids[k]);
        }
      }
    }
  }

  /** Redaction keeps every root and brings in no object. */
  lemma {:induction false} RedoKeepsObjects(route: Route, o: Own)
    ensures Root(Redo(route, o)) == Root(o)
    ensures Objs(Redo(route, o)) <= Objs(o)
    decreases |route|
  {
    var redone := Redo(route, o);
    if o.Dict? && redone != o {
      forall k | k in redone.kids ensures Objs(redone.kids[k]) <= Objs(o) {
        if redone.kids[k] == Leaf("<REDACTED>") {
        } else {
          if route != [] {
            RedoKeepsObjects(route[1..], o.kids[k]);
          }
          FieldOwned(o, k);
        }
      }
      var parts := map j | j in redone.kids :: Objs(redone.kids[j]);
      assert Objs(redone) == {o.m} + MapUnion(parts);
    } else if o.Arr? && redone != o {
      forall i | 0 <= i < |o.list| ensures Objs(redone.list[i]) <= Objs(o) {
        RedoKeepsObjects(route[1..], o.list[i]);
        ElementOwned(o, i);
      }
      var parts := seq(|o.list|, i requires 0 <= i < |o.list| => Objs(redone.list[i]));
      assert Objs(redone) == {o.a} + ListUnion(parts);
    }
  }

  /** Seen as values, it is the redaction of the document. */
  lemma {:induction false} RedoErases(route: Route, o: Own)
    ensures Erase(Redo(route, o)) == Apply(Redact, route, Erase(o))
    decreases |route|
  {
    if route == [] {
      if o.Dict? {
        assert Erase(Redo(route, o)).entries == Apply(Redact, route, Erase(o)).entries;
      }
    } else {
      match route[0]
      case Field(name) =>
        if o.Dict? && name in o.kids {
          RedoErases(route[1..], o.kids[name]);
          assert Erase(Redo(route, o)).entries == Apply(Redact, route, Erase(o)).entries;
        }
      case Elements =>
        if o.Arr? {
          forall i | 0 <= i < |o.list|
            ensures Erase(Redo(route[1..], o.list[i])) == Apply(Redact, route[1..], Erase(o.list[i]))
          {
            RedoErases(route[1..], o.list[i]);
          }
          assert Erase(Redo(route, o)).items == Apply(Redact, route, Erase(o)).items;
        }
      case Fields =>
        if o.Dict? {
          forall k | k in o.kids
            ensures Erase(Redo(route[1..], o.kids[k])) == Apply(Redact, route[1..], Erase(o.kids[k]))
          {
            RedoErases(route[1..], o.kids[k]);
          }
          assert Erase(Redo(route, o)).entries == Apply(Redact, route, Erase(o)).entries;
        }
    }
  }

  /** A document at hand is made of existing objects. */
  lemma {:induction false} Exists(o: Own)
    ensures forall x | x in Objs(o) :: allocated(x)
    decreases o
  {
    match o
    case Leaf(_) =>
    case Dict(m, kids) =>
      forall k | k in kids ensures forall x | x in Objs(kids[k]) :: allocated(x) {
        Exists(kids[k]);
      }
      var parts := map k | k in kids :: Objs(kids[k]);
      assert Objs(o) == {m} + MapUnion(parts);
    case Arr(a, list) =>
      forall i | 0 <= i < |list| ensures forall x | x in Objs(list[i]) :: allocated(x) {
        Exists(list[i]);
      }
      var parts := seq(|list|, i requires 0 <= i < |list| => Objs(list[i]));
      assert Objs(o) == {a} + ListUnion(parts);
  }

  /** The route that is left once `n` legs of the whole route have been taken. */
  ghost predicate From(route: Route, n: nat)
    requires n <= |ROUTE|
    decreases |ROUTE| - n
  {
    if n == |ROUTE| then route == []
    else route != [] && route[0] == ROUTE[n] && From(route[1..], n + 1)
  }

  lemma {:induction false} FromRoute(route: Route, n: nat)
    requires n <= |ROUTE| && route == ROUTE[n..]
    ensures From(route, n)
    decreases |ROUTE| - n
  {
    if n == |ROUTE| {
    } else {
      FromRoute(route[1..], n + 1);
    }
  }

  /* ---------- the nested loops, innermost first ---------- */

  /** What a map holds after its secret has been hidden. */
  ghost function Hidden(entries: map<string, Value>): map<string, Value> {
    entries["secret" := Plain("<REDACTED>")]
  }

  lemma AllMapsStep(parts: seq<Plan>, k: nat)
    requires k < |parts|
    ensures AllMaps(parts[..k + 1]) == AllMaps(parts[..k]) + parts[k].maps
  {
    assert parts[..k + 1][..k] == parts[..k];
  }

  lemma HiddenTwice()
    ensures forall e :: Hidden(Hidden(e)) == Hidden(e)
  {}

  /** `key["secret"] = "<REDACTED>"`, when the element is a map at all. */
  method RedactKey(v: Value, ghost p: Plan, ghost route: Route)
    requires From(route, 7) && Good(p, route) && p.value == v
    requires Ready(p)
    requires (forall s | s in p.slots :: allocated(Obj(s))) && (forall m | m in p.maps :: allocated(m))
    modifies p.maps
    ensures forall m | m in p.maps :: m.entries == Hidden(old(m.entries))
  {
    if v.Map? {
      v.m.entries := v.m.entries["secret" := Plain("<REDACTED>")];
    }
  }

  /** `for k := range keys` */
  method RedactKeys(keys: array<Value>, ghost p: Plan, ghost route: Route)
    requires From(route, 6) && Good(p, route) && p.value == Slice(keys)
    requires Ready(p)
    requires (forall s | s in p.slots :: allocated(Obj(s))) && (forall m | m in p.maps :: allocated(m))
    modifies p.maps
    ensures forall m | m in p.maps :: m.entries == Hidden(old(m.entries))
  {
    ghost var parts, rest, done: set<Mapping> := p.step.nexts, route[1..], {};
    HiddenTwice();
    for k := 0 to keys.Length
      invariant Ready(p) && |parts| == keys.Length
      invariant forall m | m in p.maps :: Hidden(m.entries) == Hidden(old(m.entries))
      invariant done <= p.maps && done == AllMaps(parts[..k])
      invariant forall m | m in done :: m.entries == Hidden(old(m.entries))
    {
      assert Within(parts[k], p);
      assert Intact(ListSlot(keys, p.step.elements));
      RedactKey(keys[k], parts[k], rest);
      AllMapsStep(parts, k);
      done := done + parts[k].maps;
    }
    assert parts[..|parts|] == parts;
  }

  /** One value of a provider: `object["keys"]`. */
  method RedactObject(v: Value, ghost p: Plan, ghost route: Route)
    requires From(route, 5) && Good(p, route) && p.value == v
    requires Ready(p)
    requires (forall s | s in p.slots :: allocated(Obj(s))) && (forall m | m in p.maps :: allocated(m))
    modifies p.maps
    ensures forall m | m in p.maps :: m.entries == Hidden(old(m.entries))
  {
    assert v.Map? ==> Intact(MapSlot(v.m, p.step.fields));
    if v.Map? && "keys" in v.m.entries && v.m.entries["keys"].Slice? {
      RedactKeys(v.m.entries["keys"].a, p.step.next, route[1..]);
    }
  }

  /** `for key := range provider`, in no particular order. */
  method RedactProvider(v: Value, ghost p: Plan, ghost route: Route)
    requires From(route, 4) && Good(p, route) && p.value == v
    requires Ready(p)
    requires (forall s | s in p.slots :: allocated(Obj(s))) && (forall m | m in p.maps :: allocated(m))
    modifies p.maps
    ensures forall m | m in p.maps :: m.entries == Hidden(old(m.entries))
  {
    if !v.Map? {
      return;
    }
    var provider := v.m;
    ghost var parts, rest := p.step.named, route[1..];
    HiddenTwice();
    assert Intact(MapSlot(provider, p.step.fields));
    var todo := provider.entries.Keys;
    while todo != {}
      invariant Ready(p) && todo <= parts.Keys
      invariant forall m | m in p.maps :: Hidden(m.entries) == Hidden(old(m.entries))
      invariant forall m, k | m in p.maps && k in parts && k !in todo && m in parts[k].maps ::
                  m.entries == Hidden(old(m.entries))
      decreases todo
    {
      var key :| key in todo;
      assert Within(parts[key], p);
      assert Intact(MapSlot(provider, p.step.fields));
      RedactObject(provider.entries[key], parts[key], rest);
      assert forall m | m in parts[key].maps :: m.entries == Hidden(old(m.entries));
      todo := todo - {key};
    }
  }

  /** `for j := range providers` */
  method RedactProviders(providers: array<Value>, ghost p: Plan, ghost route: Route)
    requires From(route, 3) && Good(p, route) && p.value == Slice(providers)
    requires Ready(p)
    requires (forall s | s in p.slots :: allocated(Obj(s))) && (forall m | m in p.maps :: allocated(m))
    modifies p.maps
    ensures forall m | m in p.maps :: m.entries == Hidden(old(m.entries))
  {
    ghost var parts, rest, done: set<Mapping> := p.step.nexts, route[1..], {};
    HiddenTwice();
    for j := 0 to providers.Length
      invariant Ready(p) && |parts| == providers.Length
      invariant forall m | m in p.maps :: Hidden(m.entries) == Hidden(old(m.entries))
      invariant done <= p.maps && done == AllMaps(parts[..j])
      invariant forall m | m in done :: m.entries == Hidden(old(m.entries))
    {
      assert Within(parts[j], p);
      assert Intact(ListSlot(providers, p.step.elements));
      RedactProvider(providers[j], parts[j], rest);
      AllMapsStep(parts, j);
      done := done + parts[j].maps;
    }
    assert parts[..|parts|] == parts;
  }

  /** One resource: `resource["providers"]`. */
  method RedactResource(v: Value, ghost p: Plan, ghost route: Route)
    requires From(route, 2) && Good(p, route) && p.value == v
    requires Ready(p)
    requires (forall s | s in p.slots :: allocated(Obj(s))) && (forall m | m in p.maps :: allocated(m))
    modifies p.maps
    ensures forall m | m in p.maps :: m.entries == Hidden(old(m.entries))
  {
    assert v.Map? ==> Intact(MapSlot(v.m, p.step.fields));
    if v.Map? && "providers" in v.m.entries && v.m.entries["providers"].Slice? {
      RedactProviders(v.m.entries["providers"].a, p.step.next, route[1..]);
    }
  }

  /** `for i := range resources` */
  method RedactResources(resources: array<Value>, ghost p: Plan, ghost route: Route)
    requires From(route, 1) && Good(p, route) && p.value == Slice(resources)
    requires Ready(p)
    requires (forall s | s in p.slots :: allocated(Obj(s))) && (forall m | m in p.maps :: allocated(m))
    modifies p.maps
    ensures forall m | m in p.maps :: m.entries == Hidden(old(m.entries))
  {
    ghost var parts, rest, done: set<Mapping> := p.step.nexts, route[1..], {};
    HiddenTwice();
    for i := 0 to resources.Length
      invariant Ready(p) && |parts| == resources.Length
      invariant forall m | m in p.maps :: Hidden(m.entries) == Hidden(old(m.entries))
      invariant done <= p.maps && done == AllMaps(parts[..i])
      invariant forall m | m in done :: m.entries == Hidden(old(m.entries))
    {
      assert Within(parts[i], p);
      assert Intact(ListSlot(resources, p.step.elements));
      RedactResource(resources[i], parts[i], rest);
      AllMapsStep(parts, i);
      done := done + parts[i].maps;
    }
    assert parts[..|parts|] == parts;
  }

  /** The configuration itself: `data["resources"]`. */
  method RedactDocument(data: Mapping, ghost p: Plan, ghost route: Route, ghost cells: set<Slot>)
    requires From(route, 0) && Good(p, route) && p.value == Map(data)
    requires forall s | s in cells :: allocated(Obj(s)) && Intact(s)
    requires Ready(p)
    requires (forall s | s in p.slots :: allocated(Obj(s))) && (forall m | m in p.maps :: allocated(m))
    modifies p.maps
    ensures forall m | m in p.maps :: m.entries == Hidden(old(m.entries))
    ensures forall s | s in cells :: Now(s, p.maps)
  {
    assert Intact(MapSlot(data, p.step.fields));
    if "resources" in data.entries && data.entries["resources"].Slice? {
      RedactResources(data.entries["resources"].a, p.step.next, route[1..]);
    }
    forall s | s in cells ensures Now(s, p.maps) {
      assert old(Intact(s));
    }
  }

  /* ---------- from what was written to what the heap holds ---------- */

  /** What the document says of each of its maps and slices. */
  ghost function Cells(o: Own): set<Slot> {
    match o
    case Leaf(_) => {}
    case Dict(m, kids) =>
      {MapSlot(m, map k | k in kids :: Root(kids[k]))} + MapUnion(map k | k in kids :: Cells(kids[k]))
    case Arr(a, list) =>
      {ListSlot(a, seq(|list|, i requires 0 <= i < |list| => Root(list[i])))}
      + ListUnion(seq(|list|, i requires 0 <= i < |list| => Cells(list[i])))
  }

  lemma FieldCells(o: Own, k: string)
    requires o.Dict? && k in o.kids
    ensures Cells(o.kids[k]) <= Cells(o)
  {
    var parts := map j | j in o.kids :: Cells(o.kids[j]);
    assert parts[k] <= MapUnion(parts);
  }

  lemma ElementCells(o: Own, i: nat)
    requires o.Arr? && i < |o.list|
    ensures Cells(o.list[i]) <= Cells(o)
  {
    var parts := seq(|o.list|, j requires 0 <= j < |o.list| => Cells(o.list[j]));
    assert parts[i] <= ListUnion(parts);
  }

  lemma {:induction false} CellsOwned(o: Own)
    ensures forall s | s in Cells(o) :: Obj(s) in Objs(o)
    decreases o
  {
    match o
    case Leaf(_) =>
    case Dict(m, kids) =>
      var parts := map k | k in kids :: Cells(kids[k]);
      forall s | s in MapUnion(parts) ensures Obj(s) in Objs(o) {
        var k :| k in parts && s in parts[k];
        CellsOwned(kids[k]);
        FieldOwned(o, k);
      }
    case Arr(a, list) =>
      var parts := seq(|list|, i requires 0 <= i < |list| => Cells(list[i]));
      assert Cells(o) == {ListSlot(a, seq(|list|, i requires 0 <= i < |list| => Root(list[i])))} + ListUnion(parts);
      forall s | s in ListUnion(parts) ensures Obj(s) in Objs(o) {
        var i :| 0 <= i < |parts| && s in parts[i];
        CellsOwned(list[i]);
        ElementOwned(o, i);
      }
  }

  lemma {:induction false} HoldsThenIntact(o: Own)
    requires Holds(o)
    ensures forall s | s in Cells(o) :: Intact(s)
    decreases o
  {
    match o
    case Leaf(_) =>
    case Dict(m, kids) =>
      var parts := map k | k in kids :: Cells(kids[k]);
      forall s | s in MapUnion(parts) ensures Intact(s) {
        var k :| k in parts && s in parts[k];
        HoldsThenIntact(kids[k]);
      }
      assert Cells(o) == {MapSlot(m, map k | k in kids :: Root(kids[k]))} + MapUnion(parts);
    case Arr(a, list) =>
      var parts := seq(|list|, i requires 0 <= i < |list| => Cells(list[i]));
      forall s | s in ListUnion(parts) ensures Intact(s) {
        var i :| 0 <= i < |parts| && s in parts[i];
        HoldsThenIntact(list[i]);
      }
      assert Cells(o) == {ListSlot(a, seq(|list|, i requires 0 <= i < |list| => Root(list[i])))} + ListUnion(parts);
  }

  lemma {:induction false} IntactThenHolds(o: Own)
    requires forall s | s in Cells(o) :: Intact(s)
    ensures Holds(o)
    decreases o
  {
    match o
    case Leaf(_) =>
    case Dict(m, kids) =>
      assert Intact(MapSlot(m, map k | k in kids :: Root(kids[k])));
      forall k | k in kids ensures Holds(kids[k]) {
        FieldCells(o, k);
        IntactThenHolds(kids[k]);
      }
    case Arr(a, list) =>
      assert Intact(ListSlot(a, seq(|list|, i requires 0 <= i < |list| => Root(list[i]))));
      forall i | 0 <= i < |list| ensures Holds(list[i]) {
        ElementCells(o, i);
        IntactThenHolds(list[i]);
      }
  }

  /** After the run: a key map holds what the document says of it with the secret hidden, all else is as it says. */
  ghost predicate Now(s: Slot, maps: set<Mapping>)
    reads Obj(s)
  {
    if s.MapSlot? && s.m in maps then s.m.entries == Hidden(s.fields) else Intact(s)
  }

  /** Nothing has happened to a part without key maps. */
  lemma Untouched(o: Own, maps: set<Mapping>)
    requires forall s | s in Cells(o) :: Now(s, maps)
    requires forall m | m in maps :: m !in Objs(o)
    ensures Holds(o)
  {
    CellsOwned(o);
    forall s | s in Cells(o) ensures Intact(s) {
      assert Now(s, maps);
    }
    IntactThenHolds(o);
  }

  /** A part sees its own key maps only. */
  lemma PartNow(o: Own, part: set<Mapping>, maps: set<Mapping>)
    requires forall s | s in Cells(o) :: Now(s, maps)
    requires part <= maps && forall m | m in maps && m in Objs(o) :: m in part
    ensures forall s | s in Cells(o) :: Now(s, part)
  {
    CellsOwned(o);
    forall s | s in Cells(o) ensures Now(s, part) {
      assert Now(s, maps);
    }
  }

  /** Hiding the secrets of the planned key maps, and doing nothing else, leaves the redacted document in the heap. */
  lemma {:induction false} HiddenIsRedone(route: Route, o: Own)
    requires Distinct(o)
    requires forall s | s in Cells(o) :: Now(s, PlanOf(route, o).maps)
    ensures Holds(Redo(route, o))
    decreases |route|
  {
    if route == [] {
      KeyMapRedone(o);
    } else if route[0].Field? && o.Dict? && route[0].name in o.kids {
      FieldRedone(route, o);
    } else if route[0].Elements? && o.Arr? {
      ElementsRedone(route, o);
    } else if route[0].Fields? && o.Dict? {
      FieldsRedone(route, o);
    } else {
      Untouched(o, {});
    }
  }

  lemma KeyMapRedone(o: Own)
    requires Distinct(o) && forall s | s in Cells(o) :: Now(s, PlanOf([], o).maps)
    ensures Holds(Redo([], o))
  {
    if !o.Dict? {
      Untouched(o, {});
    } else {
      assert PlanOf([], o).maps == {o.m};
      assert Now(MapSlot(o.m, map k | k in o.kids :: Root(o.kids[k])), {o.m});
      forall k | k in o.kids ensures Holds(o.kids[k]) {
        FieldCells(o, k);
        Untouched(o.kids[k], {o.m});
      }
    }
  }

  lemma {:induction false} FieldRedone(route: Route, o: Own)
    requires route != [] && route[0].Field? && o.Dict? && route[0].name in o.kids
    requires Distinct(o)
    requires forall s | s in Cells(o) :: Now(s, PlanOf(route, o).maps)
    ensures Holds(Redo(route, o))
    decreases |route|, 0
  {
    var name, rest, maps := route[0].name, route[1..], PlanOf(route, o).maps;
    PlanInside(rest, o.kids[name]);
    assert Now(MapSlot(o.m, map k | k in o.kids :: Root(o.kids[k])), maps);
    FieldCells(o, name);
    HiddenIsRedone(rest, o.kids[name]);
    RedoKeepsObjects(rest, o.kids[name]);
    forall k | k in o.kids && k != name ensures Holds(o.kids[k]) {
      FieldCells(o, k);
      Untouched(o.kids[k], maps);
    }
  }

  /** The key maps of the whole that an element, or a field, owns are its own key maps. */
  lemma ElementOwnsItsMaps(route: Route, o: Own, i: nat)
    requires route != [] && route[0].Elements? && o.Arr? && i < |o.list| && Distinct(o)
    ensures PlanOf(route[1..], o.list[i]).maps <= PlanOf(route, o).maps
    ensures forall m | m in PlanOf(route, o).maps && m in Objs(o.list[i]) :: m in PlanOf(route[1..], o.list[i]).maps
  {
    var rest, list, nexts := route[1..], o.list, PlanOf(route, o).step.nexts;
    SumOfList(nexts);
    forall j | 0 <= j < |list| ensures nexts[j].maps <= Objs(list[j]) {
      PlanInside(rest, list[j]);
    }
    assert forall j | 0 <= j < |list| && j != i :: Objs(list[j]) !! Objs(list[i]);
    forall m | m in AllMaps(nexts) && m in Objs(list[i]) ensures m in nexts[i].maps {
      var j :| 0 <= j < |nexts| && m in nexts[j].maps;
      assert m in Objs(list[j]);
    }
  }

  lemma FieldOwnsItsMaps(route: Route, o: Own, k: string)
    requires route != [] && route[0].Fields? && o.Dict? && k in o.kids && Distinct(o)
    ensures PlanOf(route[1..], o.kids[k]).maps <= PlanOf(route, o).maps
    ensures forall m | m in PlanOf(route, o).maps && m in Objs(o.kids[k]) :: m in PlanOf(route[1..], o.kids[k]).maps
  {
    var rest, named := route[1..], PlanOf(route, o).step.named;
    SumOfMap(named);
    assert named[k] == PlanOf(rest, o.kids[k]);
    forall m | m in PlanOf(route, o).maps && m in Objs(o.kids[k]) ensures m in named[k].maps {
      var j :| j in named && m in named[j].maps;
      PlanInside(rest, o.kids[j]);
    }
  }

  /** What passes a value on the way is not a key map itself. */
  lemma HolderIsNoKeyMap(route: Route, o: Own)
    requires route != [] && Distinct(o)
    ensures o.Dict? ==> o.m !in PlanOf(route, o).maps
  {
    var rest, p := route[1..], PlanOf(route, o);
    if o.Dict? && route[0].Fields? {
      SumOfMap(p.step.named);
      forall k | k in o.kids ensures p.step.named[k].maps <= Objs(o.kids[k]) {
        PlanInside(rest, o.kids[k]);
      }
    } else if o.Dict? && route[0].Field? && route[0].name in o.kids {
      PlanInside(rest, o.kids[route[0].name]);
    }
  }

  lemma {:induction false} ElementsRedone(route: Route, o: Own)
    requires route != [] && route[0].Elements? && o.Arr?
    requires Distinct(o)
    requires forall s | s in Cells(o) :: Now(s, PlanOf(route, o).maps)
    ensures Holds(Redo(route, o))
    decreases |route|, 0
  {
    var rest, maps, list := route[1..], PlanOf(route, o).maps, o.list;
    forall i | 0 <= i < |list| ensures Holds(Redo(rest, list[i])) {
      ElementCells(o, i);
      ElementOwnsItsMaps(route, o, i);
      PartNow(list[i], PlanOf(rest, list[i]).maps, maps);
      HiddenIsRedone(rest, list[i]);
    }
    assert Now(ListSlot(o.a, seq(|list|, i requires 0 <= i < |list| => Root(list[i]))), maps);
    ListHolds(route, o);
  }

  lemma ListHolds(route: Route, o: Own)
    requires route != [] && route[0].Elements? && o.Arr? && o.a.Length == |o.list|
    requires forall i | 0 <= i < |o.list| :: o.a[i] == Root(o.list[i])
    requires forall i | 0 <= i < |o.list| :: Holds(Redo(route[1..], o.list[i]))
    ensures Holds(Redo(route, o))
  {
    forall i | 0 <= i < |o.list| ensures Root(Redo(route[1..], o.list[i])) == Root(o.list[i]) {
      RedoKeepsObjects(route[1..], o.list[i]);
    }
  }

  lemma {:induction false} FieldsRedone(route: Route, o: Own)
    requires route != [] && route[0].Fields? && o.Dict?
    requires Distinct(o)
    requires forall s | s in Cells(o) :: Now(s, PlanOf(route, o).maps)
    ensures Holds(Redo(route, o))
    decreases |route|, 0
  {
    var rest, maps, kids := route[1..], PlanOf(route, o).maps, o.kids;
    forall k | k in kids ensures Holds(Redo(rest, kids[k])) {
      FieldCells(o, k);
      FieldOwnsItsMaps(route, o, k);
      PartNow(kids[k], PlanOf(rest, kids[k]).maps, maps);
      HiddenIsRedone(rest, kids[k]);
    }
    HolderIsNoKeyMap(route, o);
    assert Now(MapSlot(o.m, map k | k in kids :: Root(kids[k])), maps);
    MapHolds(route, o);
  }

  lemma MapHolds(route: Route, o: Own)
    requires route != [] && route[0].Fields? && o.Dict? && o.m.entries.Keys == o.kids.Keys
    requires forall k | k in o.kids :: o.m.entries[k] == Root(o.kids[k])
    requires forall k | k in o.kids :: Holds(Redo(route[1..], o.kids[k]))
    ensures Holds(Redo(route, o))
  {
    forall k | k in o.kids ensures Root(Redo(route[1..], o.kids[k])) == Root(o.kids[k]) {
      RedoKeepsObjects(route[1..], o.kids[k]);
    }
  }

  /** The whole redaction, on a document of any shape that is a tree. Nothing but the planned key maps is written
      to, and the heap then holds, in the same objects, the redaction of the document it held. */
  method RemoveEncryptionProviderConfigSecrets(data: Mapping, ghost o: Own)
    requires o.Dict? && o.m == data && Holds(o) && Distinct(o)
    modifies PlanOf(ROUTE, o).maps
    ensures Holds(Redo(ROUTE, o))
    ensures Erase(Redo(ROUTE, o)) == Redacted(Erase(o))
    ensures Root(Redo(ROUTE, o)) == Root(o) && Objs(Redo(ROUTE, o)) <= Objs(o)
  {
    ghost var route := ROUTE;
    ghost var p, cells := PlanOf(route, o), Cells(o);
    PrepareRun(route, o, p, cells);
    RedactDocument(data, p, route, cells);
    FinishRun(route, o, p, cells);
  }

  lemma PrepareRun(route: Route, o: Own, p: Plan, cells: set<Slot>)
    requires route == ROUTE && Holds(o) && Distinct(o) && p == PlanOf(route, o) && cells == Cells(o)
    ensures From(route, 0) && Good(p, route) && Ready(p) && p.value == Root(o)
    ensures forall m | m in p.maps :: allocated(m)
    ensures forall s | s in p.slots :: allocated(Obj(s))
    ensures forall s | s in cells :: allocated(Obj(s)) && Intact(s)
  {
    FromRoute(route, 0);
    PlanIsGood(route, o);
    PlanInside(route, o);
    PlanApart(route, o);
    PlanIntact(route, o);
    HoldsThenIntact(o);
    CellsOwned(o);
    Exists(o);
  }

  lemma FinishRun(route: Route, o: Own, p: Plan, cells: set<Slot>)
    requires route == ROUTE && Distinct(o) && p == PlanOf(route, o) && cells == Cells(o)
    requires forall s | s in cells :: Now(s, p.maps)
    ensures Holds(Redo(ROUTE, o)) && Erase(Redo(ROUTE, o)) == Redacted(Erase(o))
    ensures Root(Redo(ROUTE, o)) == Root(o) && Objs(Redo(ROUTE, o)) <= Objs(o)
  {
    HiddenIsRedone(route, o);
    RedoErases(route, o);
    RedoKeepsObjects(route, o);
  }
}
