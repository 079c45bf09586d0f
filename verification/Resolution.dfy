/** What the chain that resolves the CNI configuration directory comes to. */
module Resolution {
  import opened Wrappers
  import opened Sequences
  import opened Strings
  import opened Decimal
  import opened Sorting
  import opened Paths
  import opened Process
  import opened Flags
  import opened ContainerRuntime

  /* ---------- the overlay ---------- */

  lemma {:induction false} ValuesAt(parse: string -> Option<string>, paths: seq<string>)
    ensures |ValuesIn(parse, paths)| == |paths|
    ensures forall k :: 0 <= k < |paths| ==> ValuesIn(parse, paths)[k] == ValueIn(parse, paths[k])
  {
    if paths == [] {
    } else {
      ValuesAt(parse, paths[1..]);
    }
  }

  /** The last non-empty value wins, and the base is left only when there is none. */
  lemma {:induction false} LastWins(base: string, values: seq<string>, k: nat)
    requires forall j :: k <= j < |values| ==> values[j] == ""
    requires k <= |values|
    ensures k == 0 ==> Overlay(base, values) == base
    ensures k > 0 && values[k - 1] != "" ==> Overlay(base, values) == values[k - 1]
    decreases |values|
  {
    if values == [] {
    } else {
      LastWins(if values[0] != "" then values[0] else base, values[1..], if k == 0 then 0 else k - 1);
    }
  }

  lemma {:induction false} OverlayEmptyExactly(base: string, values: seq<string>)
    ensures Overlay(base, values) == "" <==> base == "" && forall k :: 0 <= k < |values| ==> values[k] == ""
    decreases |values|
  {
    if values == [] {
    } else {
      var next := if values[0] != "" then values[0] else base;
      OverlayEmptyExactly(next, values[1..]);
      assert forall k :: 0 < k < |values| ==> values[k] == values[1..][k - 1];
      if next == "" && forall k :: 0 <= k < |values[1..]| ==> values[1..][k] == "" {
        assert values[0] == "";
      }
    }
  }

  /** The names in the drop-in directory, if it can be listed. */
  function Listed(h: Host, r: Runtime): seq<string> {
    match h.readDir(ConfigDirOf(r))
    case None => []
    case Some(names) => names
  }

  /** No configuration file of this runtime, in the order listed or any other, names a directory. */
  ghost predicate ConfigsNameNothing(h: Host, r: Runtime) {
    && (ConfigPathOf(r) != "" ==> ValueIn(r.properties.parse, ConfigPathOf(r)) == "")
    && forall name :: name in Listed(h, r) ==> ValueIn(r.properties.parse, DirPrefix(ConfigDirOf(r)) + name) == ""
  }

  lemma SortedMembers(names: seq<string>)
    ensures |Sort(names)| == |names| && forall name :: name in Sort(names) <==> name in names
  {
    SortSorts(names);
    forall name ensures name in Sort(names) <==> name in names {
      assert name in multiset(Sort(names)) <==> name in multiset(names);
    }
  }

  lemma DropInsEmptyExactly(parse: string -> Option<string>, prefix: string, names: seq<string>)
    ensures Overlay("", ValuesIn(parse, Prefixed(prefix, Sort(names)))) == "" <==>
            forall name :: name in names ==> ValueIn(parse, prefix + name) == ""
  {
    var sorted := Sort(names);
    var paths := Prefixed(prefix, sorted);
    OverlayEmptyExactly("", ValuesIn(parse, paths));
    ValuesAt(parse, paths);
    PrefixedAt(prefix, sorted);
    SortedMembers(names);
    forall k | 0 <= k < |sorted| ensures ValuesIn(parse, paths)[k] == ValueIn(parse, prefix + sorted[k]) {}
  }

  lemma ConfiguredDirEmptyExactly(h: Host, r: Runtime)
    ensures ConfiguredDir(h, r) == "" <==> ConfigsNameNothing(h, r)
  {
    var parse, prefix, names := r.properties.parse, DirPrefix(ConfigDirOf(r)), Listed(h, r);
    assert DropIns(h, r) == Prefixed(prefix, Sort(names));
    DropInsEmptyExactly(parse, prefix, names);
    OverlayBase(if ConfigPathOf(r) == "" then "" else ValueIn(parse, ConfigPathOf(r)), ValuesIn(parse, DropIns(h, r)));
  }

  lemma SortedTail(names: seq<string>, name: string) returns (k: nat)
    requires name in names
    ensures k < |Sort(names)| && Sort(names)[k] == name
    ensures forall j :: k < j < |Sort(names)| ==>
              Sort(names)[j] in names && Sort(names)[j] != name && AtMost(name, Sort(names)[j])
  {
    var sorted := Sort(names);
    SortedMembers(names);
    SortSorts(names);
    k := |sorted| - 1;
    while sorted[k] != name
      invariant k < |sorted|
      invariant forall j :: k < j < |sorted| ==> sorted[j] != name
      invariant exists j :: 0 <= j <= k && sorted[j] == name
      decreases k
    {
      k := k - 1;
    }
    forall j | k < j < |sorted| ensures AtMost(name, sorted[j]) {
      LeqExactly(name, sorted[j]);
    }
  }

  lemma LastNameWins(
      parse: string -> Option<string>, prefix: string, names: seq<string>, name: string, base: string)
    requires name in names && ValueIn(parse, prefix + name) != ""
    requires forall other :: other in names && other != name && AtMost(name, other) ==>
               ValueIn(parse, prefix + other) == ""
    ensures Overlay(base, ValuesIn(parse, Prefixed(prefix, Sort(names)))) == ValueIn(parse, prefix + name)
  {
    var sorted := Sort(names);
    var paths := Prefixed(prefix, sorted);
    var values := ValuesIn(parse, paths);
    ValuesAt(parse, paths);
    PrefixedAt(prefix, sorted);
    var k := SortedTail(names, name);
    forall j | k < j < |values| ensures values[j] == "" {
      assert values[j] == ValueIn(parse, prefix + sorted[j]);
    }
    assert values[k] == ValueIn(parse, prefix + name);
    LastWins(base, values, k + 1);
  }

  /** The drop-in that comes last by name, of those that name a directory, decides, whatever the main config says. */
  lemma LastDropInWins(h: Host, r: Runtime, name: string)
    requires FlaggedDir(r) == "" && name in Listed(h, r)
    requires var prefix := DirPrefix(ConfigDirOf(r));
             && ValueIn(r.properties.parse, prefix + name) != ""
             && forall other :: other in Listed(h, r) && other != name && AtMost(name, other) ==>
                  ValueIn(r.properties.parse, prefix + other) == ""
    ensures RuntimeDir(h, r) == ValueIn(r.properties.parse, DirPrefix(ConfigDirOf(r)) + name)
  {
    var parse, prefix, names := r.properties.parse, DirPrefix(ConfigDirOf(r)), Listed(h, r);
    assert DropIns(h, r) == Prefixed(prefix, Sort(names));
    LastNameWins(parse, prefix, names, name, if ConfigPathOf(r) == "" then "" else ValueIn(parse, ConfigPathOf(r)));
  }

  /* ---------- what the endpoint selects ---------- */

  ghost predicate Runs(h: Host, suffix: string) {
    Locate(h.proc, suffix).Located?
  }

  /** The endpoint selects containerd only as one of two literal texts or through cri-dockerd's socket, and cri-o
      only as one of two literal texts; and the process must run. */
  lemma SelectedExactly(h: Host, endpoint: string)
    ensures RuntimeOf(h, EndpointKind(endpoint)).Some? <==>
            || ((endpoint == CONTAINERD || endpoint == CONTAINERD_SOCK || HasSuffix(endpoint, CRIDOCKERD_SOCK))
                && Runs(h, "/containerd"))
            || ((endpoint == CRIO || endpoint == CRIO_SOCK) && Runs(h, "/crio"))
  {
    assert !HasSuffix(CRIO, CRIDOCKERD_SOCK);
    assert !HasSuffix(CRIO_SOCK, CRIDOCKERD_SOCK);
  }

  lemma LongSocketIsNoKind(dir: string, sock: string)
    requires dir != "" && (sock == CONTAINERD_SOCK || sock == CRIO_SOCK)
    ensures dir + sock !in {CONTAINERD, CONTAINERD_SOCK, CRIO, CRIO_SOCK} && !HasSuffix(dir + sock, CRIDOCKERD_SOCK)
  {
    var e := dir + sock;
    assert e[|dir|] == '/' && |e| == |dir| + |sock|;
    if sock == CONTAINERD_SOCK {
      assert |e| > 16 && e[|e| - 16] == '/' && CRIDOCKERD_SOCK[1] == 'c';
    } else {
      assert |e| > 10 && e[|e| - 10] == '/' && CRIDOCKERD_SOCK[7] == 'c' && CONTAINERD_SOCK[6] == 'i';
    }
  }

  /** A socket given by its full path, as kubelets are started, therefore selects nothing but through cri-dockerd. */
  lemma FullSocketPathSelectsNothing(h: Host, kubelet: ProcessDetails, dir: string)
    requires dir != ""
    requires ArgOrEmpty(kubelet.cmdLine, CNI_CONF_DIR) == ""
    requires var e := ArgOrEmpty(kubelet.cmdLine, RUNTIME_ENDPOINT);
             e == dir + CONTAINERD_SOCK || e == dir + CRIO_SOCK
    ensures KubeletDir(h, kubelet) == NotRunning(ArgOrEmpty(kubelet.cmdLine, RUNTIME_ENDPOINT))
  {
    LongSocketIsNoKind(dir, CONTAINERD_SOCK);
    LongSocketIsNoKind(dir, CRIO_SOCK);
    SelectedExactly(h, ArgOrEmpty(kubelet.cmdLine, RUNTIME_ENDPOINT));
  }

  /* ---------- when the result is empty ---------- */

  /** Main result: the chain gives no directory exactly when the kubelet has no non-empty directory flag and its
      endpoint selects a running runtime whose flag and files name none. In every other case the default stands in. */
  lemma EmptyExactly(h: Host, kubelet: ProcessDetails)
    ensures Resolve(h, kubelet) == "" <==>
            var endpoint := ArgOrEmpty(kubelet.cmdLine, RUNTIME_ENDPOINT);
            && ArgOrEmpty(kubelet.cmdLine, CNI_CONF_DIR) == ""
            && endpoint != ""
            && var selected := RuntimeOf(h, EndpointKind(endpoint));
               selected.Some? && FlaggedDir(selected.value) == "" && ConfigsNameNothing(h, selected.value)
  {
    var endpoint := ArgOrEmpty(kubelet.cmdLine, RUNTIME_ENDPOINT);
    var selected := RuntimeOf(h, EndpointKind(endpoint));
    if selected.Some? {
      ConfiguredDirEmptyExactly(h, selected.value);
    }
  }

  /** A host where only containerd runs and no configuration can be read. */
  const BARE_HOST := Host(
    ProcDir([["1"]], true, map["1" := "/usr/bin/containerd"]), _ => None, _ => None, _ => None)

  lemma BareHostRunsContainerd()
    ensures RuntimeOf(BARE_HOST, CONTAINERD_SOCK).Some? && FlaggedDir(RuntimeOf(BARE_HOST, CONTAINERD_SOCK).value) == ""
  {
    var proc, exec := BARE_HOST.proc, "/usr/bin/containerd";
    OneDigit("1");
    assert NUL !in exec;
    assert Split(exec, NUL) == [exec];
    assert exec == "/usr/bin" + "/containerd";
    assert HasExec(proc, "1", "/containerd");
    var names := ["1"];
    assert Flatten(proc.batches) == names + Flatten(proc.batches[1..]) && proc.batches[1..] == [];
    assert names + [] == names;
    assert FirstExec(proc, names, "/containerd") == Some(DetailsOf(proc, "1"));
  }

  /** The default that is promised can be missing: containerd runs, the kubelet's endpoint names its socket, and
      nothing is configured. */
  lemma DefaultMissing()
    ensures var kubelet := ProcessDetails(RenderAll([Setting(RUNTIME_ENDPOINT, CONTAINERD_SOCK)]), 2);
            SaneHost(BARE_HOST) && Resolve(BARE_HOST, kubelet) == ""
  {
    var opts := [Setting(RUNTIME_ENDPOINT, CONTAINERD_SOCK)];
    var kubelet := ProcessDetails(RenderAll(opts), 2);
    KubeletFlagsPlain();
    LookupIsFirstValue(opts, CNI_CONF_DIR);
    LookupIsFirstValue(opts, RUNTIME_ENDPOINT);
    assert opts[1..] == [] && CNI_CONF_DIR != RUNTIME_ENDPOINT;
    assert !HasSuffix(CONTAINERD_SOCK, CRIDOCKERD_SOCK);
    BareHostRunsContainerd();
    EmptyExactly(BARE_HOST, kubelet);
  }

  /* ---------- what the result does not depend on ---------- */

  ghost predicate SameListings(a: string -> Option<seq<string>>, b: string -> Option<seq<string>>) {
    forall dir :: (a(dir).Some? <==> b(dir).Some?)
                  && (a(dir).Some? ==> multiset(a(dir).value) == multiset(b(dir).value))
  }

  lemma DirIgnoresListingOrder(h: Host, readDir: string -> Option<seq<string>>, r: Runtime)
    requires SameListings(h.readDir, readDir)
    ensures RuntimeDir(h.(readDir := readDir), r) == RuntimeDir(h, r)
  {
    var dir := ConfigDirOf(r);
    if h.readDir(dir).Some? {
      SortIgnoresOrder(h.readDir(dir).value, readDir(dir).value);
    }
  }

  /** The order in which a directory is listed is of no consequence. */
  lemma ResolutionIgnoresListingOrder(h: Host, readDir: string -> Option<seq<string>>, kubelet: ProcessDetails)
    requires SameListings(h.readDir, readDir)
    ensures Resolve(h.(readDir := readDir), kubelet) == Resolve(h, kubelet)
  {
    var other := h.(readDir := readDir);
    var kind := EndpointKind(ArgOrEmpty(kubelet.cmdLine, RUNTIME_ENDPOINT));
    SameRuntime(h, readDir, kind);
    SameRuntime(h, readDir, CONTAINERD);
    SameRuntime(h, readDir, CRIO);
    if RuntimeOf(h, kind).Some? {
      DirIgnoresListingOrder(h, readDir, RuntimeOf(h, kind).value);
    }
    if RunningRuntime(h).Some? {
      DirIgnoresListingOrder(h, readDir, RunningRuntime(h).value);
    }
  }

  lemma SameRuntime(h: Host, readDir: string -> Option<seq<string>>, kind: string)
    ensures RuntimeOf(h.(readDir := readDir), kind) == RuntimeOf(h, kind)
  {}

  /** While containerd runs, and unless the endpoint is one of the two texts for cri-o, nothing about cri-o's
      configuration matters. */
  lemma ContainerdHidesCrio(h: Host, parseCrio: string -> Option<string>, kubelet: ProcessDetails)
    requires Runs(h, "/containerd")
    requires var e := ArgOrEmpty(kubelet.cmdLine, RUNTIME_ENDPOINT); e != CRIO && e != CRIO_SOCK
    ensures Resolve(h.(parseCrio := parseCrio), kubelet) == Resolve(h, kubelet)
  {
    var other := h.(parseCrio := parseCrio);
    var e := ArgOrEmpty(kubelet.cmdLine, RUNTIME_ENDPOINT);
    SelectedExactly(h, e);
    SelectedExactly(other, e);
    assert RunningRuntime(other) == RunningRuntime(h) && RunningRuntime(h).Some?;
    SameDir(h, parseCrio, RunningRuntime(h).value);
  }

  lemma SameDir(h: Host, parseCrio: string -> Option<string>, r: Runtime)
    ensures RuntimeDir(h.(parseCrio := parseCrio), r) == RuntimeDir(h, r)
  {}

  lemma KubeletFlagsPlain()
    ensures PlainName(CNI_CONF_DIR) && PlainName(RUNTIME_ENDPOINT) && PlainName(RUNTIME)
  {}

  /** Only the first value of each of the three kubelet flags counts, on lines of rendered settings. */
  lemma OnlyThreeFlagsCount(h: Host, pid: int, a: seq<Setting>, b: seq<Setting>)
    requires forall o :: o in a || o in b ==> PlainName(o.name)
    requires forall name :: name in {CNI_CONF_DIR, RUNTIME_ENDPOINT, RUNTIME} ==>
               FirstValue(a, name) == FirstValue(b, name)
    ensures Resolve(h, ProcessDetails(RenderAll(a), pid)) == Resolve(h, ProcessDetails(RenderAll(b), pid))
  {
    forall name | name in {CNI_CONF_DIR, RUNTIME_ENDPOINT, RUNTIME}
      ensures Arg(RenderAll(a), name) == Arg(RenderAll(b), name)
    {
      KubeletFlagsPlain();
      LookupIsFirstValue(a, name);
      LookupIsFirstValue(b, name);
    }
    SameLookups(h, ProcessDetails(RenderAll(a), pid), ProcessDetails(RenderAll(b), pid));
  }

  lemma SameLookups(h: Host, p: ProcessDetails, q: ProcessDetails)
    requires Arg(p.cmdLine, CNI_CONF_DIR) == Arg(q.cmdLine, CNI_CONF_DIR)
    requires Arg(p.cmdLine, RUNTIME_ENDPOINT) == Arg(q.cmdLine, RUNTIME_ENDPOINT)
    requires Arg(p.cmdLine, RUNTIME) == Arg(q.cmdLine, RUNTIME)
    ensures Resolve(h, p) == Resolve(h, q)
  {}

  /** containerd has no flag for the drop-in directory, yet its command line is searched for the empty name. Where no
      argument starts with `=` and none but the last is empty, the default directory is used. */
  lemma ContainerdUsesDefaultDir(h: Host)
    requires RuntimeOf(h, CONTAINERD).Some?
    requires var cmd := RuntimeOf(h, CONTAINERD).value.process.cmdLine;
             forall k :: 0 <= k < |cmd| ==> !("=" <= cmd[k]) && (cmd[k] == "" ==> k == |cmd| - 1)
    ensures ConfigDirOf(RuntimeOf(h, CONTAINERD).value) == JoinPath(HOST_ROOT, "/etc/containerd/containerd.conf.d")
  {
    EmptyNameGivesNothing(RuntimeOf(h, CONTAINERD).value.process.cmdLine);
  }
}
