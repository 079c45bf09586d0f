/** Working out the CNI configuration directory from the kubelet and the container runtime. */
module ContainerRuntime {
  import opened Wrappers
  import opened Strings
  import opened Sorting
  import opened Paths
  import opened Process

  const CNI_DEFAULT_CONFIG_DIR := "/etc/cni/"
  const HOST_ROOT := "/host_fs"

  const CNI_CONF_DIR := "--cni-conf-dir"
  const RUNTIME_ENDPOINT := "--container-runtime-endpoint"
  const RUNTIME := "--container-runtime"

  const CONTAINERD := "containerd"
  const CRIO := "crio"
  const CONTAINERD_SOCK := "/containerd.sock"
  const CRIO_SOCK := "/crio.sock"
  const CRIDOCKERD_SOCK := "/cri-dockerd.sock"

  /** What the host offers: its processes, its directories, and the value each parser finds in a file
      (nothing when the file cannot be parsed). */
  datatype Host = Host(
    proc: ProcDir,
    readDir: string -> Option<seq<string>>,
    parseContainerd: string -> Option<string>,
    parseCrio: string -> Option<string>)

  /** Listing a directory gives plain file names. */
  ghost predicate SaneHost(h: Host) {
    forall dir, name :: h.readDir(dir).Some? && name in h.readDir(dir).value ==> PlainFile(name)
  }

  datatype Properties = Properties(
    name: string, defaultConfigPath: string, processSuffix: string, configArgName: string, configDirArgName: string,
    defaultConfigDir: string, cniConfigDirArgName: string, parse: string -> Option<string>)

  function ContainerdProps(h: Host): Properties {
    Properties(CONTAINERD, "/etc/containerd/config.toml", "/containerd", "--config", "",
               "/etc/containerd/containerd.conf.d", "", h.parseContainerd)
  }

  function CrioProps(h: Host): Properties {
    Properties(CRIO, "/etc/crio/crio.conf", "/crio", "--config", "--config-dir",
               "/etc/crio/crio.conf.d", "--cni-config-dir", h.parseCrio)
  }

  datatype Runtime = Runtime(properties: Properties, process: ProcessDetails, rootDir: string)

  /* ---------- the configured directory, as an overlay ---------- */

  /** The value a file sets; empty when it cannot be parsed. */
  function ValueIn(parse: string -> Option<string>, path: string): string {
    match parse(path)
    case Some(v) => v
    case None => ""
  }

  function ValuesIn(parse: string -> Option<string>, paths: seq<string>): seq<string> {
    if paths == [] then [] else [ValueIn(parse, paths[0])] + ValuesIn(parse, paths[1..])
  }

  /** Each non-empty value overrides what came before. */
  function Overlay(base: string, values: seq<string>): string
    decreases |values|
  {
    if values == [] then base else Overlay(if values[0] != "" then values[0] else base, values[1..])
  }

  function ConfigDirOf(r: Runtime): string {
    var dir := ArgOrEmpty(r.process.cmdLine, r.properties.configDirArgName);
    if dir == "" then JoinPath(r.rootDir, r.properties.defaultConfigDir) else dir
  }

  function ConfigPathOf(r: Runtime): string {
    var path := ArgOrEmpty(r.process.cmdLine, r.properties.configArgName);
    JoinPath(r.rootDir, if path == "" then r.properties.defaultConfigPath else path)
  }

  /** The drop-in files, by ascending name. */
  function DropIns(h: Host, r: Runtime): seq<string> {
    match h.readDir(ConfigDirOf(r))
    case None => []
    case Some(names) => Prefixed(DirPrefix(ConfigDirOf(r)), Sort(names))
  }

  /** What the main config says, overlaid with the drop-ins in ascending order of name. */
  function ConfiguredDir(h: Host, r: Runtime): string {
    Overlay(if ConfigPathOf(r) == "" then "" else ValueIn(r.properties.parse, ConfigPathOf(r)),
            ValuesIn(r.properties.parse, DropIns(h, r)))
  }

  /** What its own flag says, when it has one. */
  function FlaggedDir(r: Runtime): string {
    if r.properties.cniConfigDirArgName != "" then ArgOrEmpty(r.process.cmdLine, r.properties.cniConfigDirArgName)
    else ""
  }

  function RuntimeDir(h: Host, r: Runtime): string {
    if FlaggedDir(r) != "" then FlaggedDir(r) else ConfiguredDir(h, r)
  }

  /** The first value in a list of files that is not empty. */
  function FirstHit(parse: string -> Option<string>, paths: seq<string>): string {
    if paths == [] then ""
    else if ValueIn(parse, paths[0]) != "" then ValueIn(parse, paths[0])
    else FirstHit(parse, paths[1..])
  }

  function Reverse(s: seq<string>): seq<string> {
    if s == [] then [] else Reverse(s[1..]) + [s[0]]
  }

  lemma {:induction false} FirstHitConcat(parse: string -> Option<string>, a: seq<string>, b: seq<string>)
    ensures FirstHit(parse, a + b) == if FirstHit(parse, a) != "" then FirstHit(parse, a) else FirstHit(parse, b)
  {
    if a == [] {
      assert a + b == b;
    } else {
      assert (a + b)[1..] == a[1..] + b;
      FirstHitConcat(parse, a[1..], b);
    }
  }

  lemma {:induction false} OverlayBase(base: string, values: seq<string>)
    ensures Overlay(base, values) == if Overlay("", values) != "" then Overlay("", values) else base
    decreases |values|
  {
    if values == [] {
    } else {
      OverlayBase(if values[0] != "" then values[0] else base, values[1..]);
      OverlayBase(if values[0] != "" then values[0] else "", values[1..]);
    }
  }

  /** Taking the first hit from the end is letting later files override earlier ones. */
  lemma {:induction false} ReverseScanIsOverlay(parse: string -> Option<string>, paths: seq<string>)
    ensures FirstHit(parse, Reverse(paths)) == Overlay("", ValuesIn(parse, paths))
  {
    if paths == [] {
    } else {
      ReverseScanIsOverlay(parse, paths[1..]);
      FirstHitConcat(parse, Reverse(paths[1..]), [paths[0]]);
      assert [paths[0]][1..] == [];
      assert ValuesIn(parse, paths)[1..] == ValuesIn(parse, paths[1..]);
      OverlayBase(ValueIn(parse, paths[0]), ValuesIn(parse, paths[1..]));
    }
  }

  /** A prefix of the filled paths is the prefixed names. */
  lemma {:induction false} PrefixedAt(prefix: string, names: seq<string>)
    ensures |Prefixed(prefix, names)| == |names|
    ensures forall i :: 0 <= i < |names| ==> Prefixed(prefix, names)[i] == prefix + names[i]
  {
    if names == [] {
    } else {
      PrefixedAt(prefix, names[1..]);
    }
  }

  /* ---------- the runtime object ---------- */

  class ContainerRuntimeInfo {
    var properties: Properties
    var process: ProcessDetails
    var rootDir: string

    constructor (properties: Properties, process: ProcessDetails)
      ensures Value() == Runtime(properties, process, HOST_ROOT)
    {
      this.properties := properties;
      this.process := process;
      this.rootDir := HOST_ROOT;
    }

    ghost function Value(): Runtime
      reads this
    {
      Runtime(properties, process, rootDir)
    }

    method GetConfigDirPath() returns (configDirPath: string)
      ensures configDirPath == ConfigDirOf(Value())
    {
      var ok;
      configDirPath, ok := GetArg(process, properties.configDirArgName);
      if configDirPath == "" {
        configDirPath := JoinPath(rootDir, properties.defaultConfigDir);
      }
    }

    method GetConfigPath() returns (configPath: string)
      ensures configPath == ConfigPathOf(Value())
    {
      var ok;
      configPath, ok := GetArg(process, properties.configArgName);
      if configPath == "" {
        configPath := properties.defaultConfigPath;
      }
      configPath := JoinPath(rootDir, configPath);
    }

    method GetCNIConfigDirFromConfigPaths(configPaths: seq<string>) returns (dir: string)
      ensures dir == FirstHit(properties.parse, configPaths)
    {
      for i := 0 to |configPaths|
        invariant FirstHit(properties.parse, configPaths) == FirstHit(properties.parse, configPaths[i..])
      {
        assert configPaths[i..][1..] == configPaths[i + 1..];
        var parsed := properties.parse(configPaths[i]);
        if parsed == None {
          continue;
        }
        if parsed.value != "" {
          return parsed.value;
        }
      }
      return "";
    }

    /** Full paths of the listed files, sorted in reverse, the main config last; then the first hit. */
    method GetCNIConfigDirFromConfig(h: Host) returns (dir: string)
      requires SaneHost(h)
      ensures dir == ConfiguredDir(h, Value())
    {
      var paths: seq<string> := [];
      var configDirPath := GetConfigDirPath();
      var files := h.readDir(configDirPath);
      ghost var prefix := DirPrefix(configDirPath);
      if files.Some? {
        var names := files.value;
        paths := seq(|names|, _ => "");
        for i := 0 to |names|
          invariant |paths| == |names|
          invariant forall k :: 0 <= k < i ==> paths[k] == prefix + names[k]
        {
          JoinPlain(configDirPath, names[i]);
          paths := paths[i := JoinPath(configDirPath, names[i])];
        }
        PrefixedAt(prefix, names);
        assert paths == Prefixed(prefix, names);
        SortPrefixed(prefix, names);
        paths := Reverse(Sort(paths));
      }
      assert paths == Reverse(DropIns(h, Value()));
      ReverseScanIsOverlay(properties.parse, DropIns(h, Value()));
      var configPath := GetConfigPath();
      OverlayBase(if configPath == "" then "" else ValueIn(properties.parse, configPath),
                  ValuesIn(properties.parse, DropIns(h, Value())));
      if configPath != "" {
        FirstHitConcat(properties.parse, paths, [configPath]);
        assert [configPath][1..] == [];
        paths := paths + [configPath];
      }
      dir := GetCNIConfigDirFromConfigPaths(paths);
    }

    method GetCNIConfigDirFromProcess() returns (dir: string)
      ensures dir == FlaggedDir(Value())
    {
      if properties.cniConfigDirArgName != "" {
        var ok;
        dir, ok := GetArg(process, properties.cniConfigDirArgName);
        return dir;
      }
      return "";
    }

    method GetCNIConfigDir(h: Host) returns (dir: string)
      requires SaneHost(h)
      ensures dir == RuntimeDir(h, Value())
    {
      dir := GetCNIConfigDirFromProcess();
      if dir != "" {
        return;
      }
      dir := GetCNIConfigDirFromConfig(h);
    }
  }

  /* ---------- which runtime ---------- */

  /** The runtime that a kind stands for, when its process runs. */
  function RuntimeOf(h: Host, kind: string): Option<Runtime> {
    if kind != CONTAINERD && kind != CONTAINERD_SOCK && kind != CRIO && kind != CRIO_SOCK then None
    else
      var props := if kind == CONTAINERD || kind == CONTAINERD_SOCK then ContainerdProps(h) else CrioProps(h);
      match Locate(h.proc, props.processSuffix)
      case Located(p) => Some(Runtime(props, p, HOST_ROOT))
      case _ => None
  }

  method NewContainerRuntime(h: Host, kind: string) returns (cr: ContainerRuntimeInfo?)
    ensures cr == null <==> RuntimeOf(h, kind) == None
    ensures cr != null ==> fresh(cr) && RuntimeOf(h, kind) == Some(cr.Value())
  {
    var properties: Properties;
    if kind == CONTAINERD || kind == CONTAINERD_SOCK {
      properties := ContainerdProps(h);
    } else if kind == CRIO || kind == CRIO_SOCK {
      properties := CrioProps(h);
    } else {
      return null;
    }
    var p := LocateProcessByExecSuffix(h.proc, properties.processSuffix);
    if !p.Located? {
      return null;
    }
    cr := new ContainerRuntimeInfo(properties, p.process);
  }

  /** The running runtime: containerd before cri-o. */
  function RunningRuntime(h: Host): Option<Runtime> {
    if RuntimeOf(h, CONTAINERD).Some? then RuntimeOf(h, CONTAINERD) else RuntimeOf(h, CRIO)
  }

  method GetContainerRuntimeFromProcess(h: Host) returns (cr: ContainerRuntimeInfo?)
    ensures cr == null <==> RunningRuntime(h) == None
    ensures cr != null ==> RunningRuntime(h) == Some(cr.Value())
  {
    cr := NewContainerRuntime(h, CONTAINERD);
    if cr == null {
      cr := NewContainerRuntime(h, CRIO);
    }
  }

  /* ---------- the resolution chain ---------- */

  /** What the kubelet's flags lead to. */
  datatype FromKubelet =
    | Dir(dir: string)
    | Dockershim                        // no endpoint, and the runtime is not "remote"
    | NoRuntime                         // no endpoint, remote runtime
    | NotRunning(kind: string)          // an endpoint that names no supported runtime that runs

  /** The kind of runtime that the endpoint selects. */
  function EndpointKind(endpoint: string): string {
    if HasSuffix(endpoint, CRIDOCKERD_SOCK) then CONTAINERD_SOCK else endpoint
  }

  function KubeletDir(h: Host, kubelet: ProcessDetails): FromKubelet {
    var flag := ArgOrEmpty(kubelet.cmdLine, CNI_CONF_DIR);
    var endpoint := ArgOrEmpty(kubelet.cmdLine, RUNTIME_ENDPOINT);
    if flag != "" then Dir(flag)
    else if endpoint == "" then
      if ArgOrEmpty(kubelet.cmdLine, RUNTIME) == "remote" then NoRuntime else Dockershim
    else match RuntimeOf(h, EndpointKind(endpoint))
      case Some(r) => Dir(RuntimeDir(h, r))
      case None => NotRunning(EndpointKind(endpoint))
  }

  method CNIConfigDirFromKubelet(h: Host, kubelet: ProcessDetails) returns (r: FromKubelet)
    requires SaneHost(h)
    ensures r == KubeletDir(h, kubelet)
  {
    var dir, ok := GetArg(kubelet, CNI_CONF_DIR);
    if dir != "" {
      return Dir(dir);
    }
    var crEndpoint, crEndPointOK := GetArg(kubelet, RUNTIME_ENDPOINT);
    if crEndpoint == "" {
      var cr, crOK := GetArg(kubelet, RUNTIME);
      if (!crEndPointOK && !crOK) || cr != "remote" {
        return Dockershim;
      }
      return NoRuntime;
    }
    var containerProcessSock := crEndpoint;
    if HasSuffix(crEndpoint, CRIDOCKERD_SOCK) {
      containerProcessSock := CONTAINERD_SOCK;
    }
    var crObj := NewContainerRuntime(h, containerProcessSock);
    if crObj == null {
      return NotRunning(containerProcessSock);
    }
    dir := crObj.GetCNIConfigDir(h);
    return Dir(dir);
  }

  function Resolve(h: Host, kubelet: ProcessDetails): string {
    match KubeletDir(h, kubelet)
    case Dir(dir) => dir
    case _ =>
      match RunningRuntime(h)
      case None => CNI_DEFAULT_CONFIG_DIR
      case Some(r) => if RuntimeDir(h, r) == "" then CNI_DEFAULT_CONFIG_DIR else RuntimeDir(h, r)
  }

  method GetCNIConfigPath(h: Host, kubelet: ProcessDetails) returns (dir: string)
    requires SaneHost(h)
    ensures dir == Resolve(h, kubelet)
  {
    var fromKubelet := CNIConfigDirFromKubelet(h, kubelet);
    if fromKubelet.Dir? {
      return fromKubelet.dir;
    }
    var cr := GetContainerRuntimeFromProcess(h);
    if cr == null {
      return CNI_DEFAULT_CONFIG_DIR;
    }
    dir := cr.GetCNIConfigDir(h);
    if dir == "" {
      return CNI_DEFAULT_CONFIG_DIR;
    }
  }
}
