/** Looking up flags among others that share a prefix. */
module Flags {
  import opened Wrappers
  import opened Process

  datatype Setting = Setting(name: string, value: string)

  /** `name=value` */
  function Render(o: Setting): string {
    o.name + ("=" + o.value)
  }

  function RenderAll(opts: seq<Setting>): seq<string> {
    seq(|opts|, i requires 0 <= i < |opts| => Render(opts[i]))
  }

  /** The value of the first setting with this name. */
  function FirstValue(opts: seq<Setting>, name: string): Option<string> {
    if opts == [] then None
    else if opts[0].name == name then Some(opts[0].value)
    else FirstValue(opts[1..], name)
  }

  predicate PlainName(name: string) {
    name != "" && '=' !in name
  }

  /** A rendered setting answers for its own name only, whatever prefixes the names share. */
  lemma RenderDecides(o: Setting, name: string)
    requires PlainName(o.name) && PlainName(name)
    ensures Decides(Render(o), name) <==> o.name == name
    ensures Render(o) != name
  {
    var arg := Render(o);
    assert arg[|o.name|] == '=' && arg[..|o.name|] == o.name;
    assert forall j :: 0 <= j < |o.name| ==> arg[j] == o.name[j];
    assert arg == (o.name + "=") + o.value;
    if name + "=" <= arg {
      assert name == arg[..|name|] && arg[|name|] == '=';
      assert forall j :: 0 <= j < |name| ==> arg[j] == name[j];
      assert |name| == |o.name|;
    }
  }

  /** Main result: on a line of rendered settings a lookup gives the first value for its name, or nothing. */
  lemma {:induction false} LookupIsFirstValue(opts: seq<Setting>, name: string)
    requires PlainName(name) && forall o :: o in opts ==> PlainName(o.name)
    ensures Arg(RenderAll(opts), name) == FirstValue(opts, name)
  {
    if opts == [] {
    } else {
      var cmd := RenderAll(opts);
      RenderDecides(opts[0], name);
      assert cmd[1..] == RenderAll(opts[1..]);
      LookupIsFirstValue(opts[1..], name);
      if opts[0].name == name {
        assert cmd[0][|name| + 1..] == opts[0].value;
      } else {
        ArgOfTail(cmd, name);
        var k := Deciding(cmd[1..], name);
        assert k < |cmd[1..]| ==> cmd[1..][k] == Render(opts[1..][k]);
        assert k < |cmd[1..]| ==> opts[1..][k] in opts;
      }
    }
  }

  lemma ArgOfTail(cmd: seq<string>, name: string)
    requires cmd != [] && !Decides(cmd[0], name)
    ensures Arg(cmd, name) == Arg(cmd[1..], name)
  {
    var k := Deciding(cmd[1..], name);
    assert k < |cmd[1..]| ==> cmd[k + 1] == cmd[1..][k];
    assert k + 1 < |cmd[1..]| ==> cmd[k + 2] == cmd[1..][k + 1];
  }

  function InsertAt(cmd: seq<string>, k: nat, arg: string): seq<string>
    requires k <= |cmd|
  {
    cmd[..k] + [arg] + cmd[k..]
  }

  lemma DecidingAfterInsertion(cmd: seq<string>, k: nat, arg: string, name: string)
    requires k <= |cmd| && !Decides(arg, name)
    ensures Deciding(InsertAt(cmd, k, arg), name) == Deciding(cmd, name) + if Deciding(cmd, name) < k then 0 else 1
  {
    var longer, d := InsertAt(cmd, k, arg), Deciding(cmd, name);
    assert forall j :: 0 <= j < k ==> longer[j] == cmd[j];
    assert longer[k] == arg;
    assert forall j :: k < j < |longer| ==> longer[j] == cmd[j - 1];
    if d < k {
      DecidingUnique(longer, name, d);
    } else {
      forall j | 0 <= j < d + 1 && j < |longer| ensures !Decides(longer[j], name) {
        assert j > k ==> longer[j] == cmd[j - 1];
      }
      if d < |cmd| {
        DecidingUnique(longer, name, d + 1);
      }
    }
  }

  /** Inserting a setting of another name changes a lookup in one case only: the setting comes between the bare
      flag that decides the lookup and the value that follows it. */
  lemma InsertionExact(cmd: seq<string>, k: nat, o: Setting, name: string)
    requires k <= |cmd| && PlainName(o.name) && PlainName(name) && o.name != name
    ensures Arg(InsertAt(cmd, k, Render(o)), name) == Arg(cmd, name) <==>
            !(k > 0 && Deciding(cmd, name) == k - 1 && cmd[k - 1] == name && ValueAt(cmd, name, k - 1) != Render(o))
  {
    RenderDecides(o, name);
    var longer, d := InsertAt(cmd, k, Render(o)), Deciding(cmd, name);
    DecidingAfterInsertion(cmd, k, Render(o), name);
    assert d < k ==> longer[d] == cmd[d];
    assert k <= d < |cmd| ==> longer[d + 1] == cmd[d];
    assert d + 1 < k ==> longer[d + 1] == cmd[d + 1];
    assert d + 1 == k ==> longer[d + 1] == Render(o);
    assert k <= d && d + 1 < |cmd| ==> longer[d + 2] == cmd[d + 1];
  }

  /** In particular it never changes one on a line of rendered settings. */
  lemma RenderedInsertion(opts: seq<Setting>, k: nat, o: Setting, name: string)
    requires k <= |opts| && PlainName(name) && PlainName(o.name) && o.name != name
    requires forall p :: p in opts ==> PlainName(p.name)
    ensures Arg(InsertAt(RenderAll(opts), k, Render(o)), name) == Arg(RenderAll(opts), name)
  {
    var cmd := RenderAll(opts);
    if k > 0 {
      assert opts[k - 1] in opts;
      RenderDecides(opts[k - 1], name);
      assert cmd[k - 1] == Render(opts[k - 1]);
    }
    InsertionExact(cmd, k, o, name);
  }

  /** With an empty name, as it is asked for when a runtime has no such flag, only an empty argument or one
      that starts with `=` counts. */
  lemma EmptyNameLookup(cmd: seq<string>)
    ensures forall k :: 0 <= k < |cmd| ==> (Decides(cmd[k], "") <==> cmd[k] == "" || "=" <= cmd[k])
    ensures ArgOrEmpty(cmd, "") == "" <==>
            var k := Deciding(cmd, "");
            k == |cmd| || cmd[k] == "=" || (cmd[k] == "" && (k + 1 == |cmd| || cmd[k + 1] == ""))
  {
    assert "" + "=" == "=";
    var k := Deciding(cmd, "");
    assert k < |cmd| && "=" <= cmd[k] ==> (cmd[k][1..] == "" <==> cmd[k] == "=");
  }

  /** So on a line where no argument starts with `=` and none but the last is empty, such a lookup gives nothing. */
  lemma EmptyNameGivesNothing(cmd: seq<string>)
    requires forall k :: 0 <= k < |cmd| ==> !("=" <= cmd[k]) && (cmd[k] == "" ==> k == |cmd| - 1)
    ensures ArgOrEmpty(cmd, "") == ""
  {
    EmptyNameLookup(cmd);
  }
}
