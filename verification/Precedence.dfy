/** Which source decides the CNI configuration directory, flag by flag and file by file. */
module Precedence {
  import opened Wrappers
  import opened Sequences
  import opened Strings
  import opened Sorting
  import opened Paths
  import opened Process
  import opened Flags
  import opened ContainerRuntime
  import opened Resolution

  /** The value that a process was given for a flag; empty without one. */
  function FlagOf(p: ProcessDetails, name: string): string {
    ArgOrEmpty(p.cmdLine, name)
  }

  function Containerd(h: Host, p: ProcessDetails): Runtime {
    Runtime(ContainerdProps(h), p, "/host_fs")
  }

  function Crio(h: Host, p: ProcessDetails): Runtime {
    Runtime(CrioProps(h), p, "/host_fs")
  }

  /* ---------- one runtime ---------- */

  /** cri-o's own flag comes before all its files. */
  lemma OwnFlagWins(h: Host, p: ProcessDetails)
    requires FlagOf(p, "--cni-config-dir") != ""
    ensures RuntimeDir(h, Crio(h, p)) == FlagOf(p, "--cni-config-dir")
  {}

  /** Without it, and always for containerd, the files decide. */
  lemma FilesWithoutFlag(h: Host, p: ProcessDetails)
    ensures FlagOf(p, "--cni-config-dir") == "" ==> RuntimeDir(h, Crio(h, p)) == ConfiguredDir(h, Crio(h, p))
    ensures RuntimeDir(h, Containerd(h, p)) == ConfiguredDir(h, Containerd(h, p))
  {}

  /** A path of three plain components is put behind the host's root as it is. */
  lemma JoinThree(x: string, y: string, z: string, path: string)
    requires PlainFile(x) && PlainFile(y) && PlainFile(z) && path == "/" + (x + ("/" + (y + ("/" + z))))
    ensures JoinPath("/host_fs", path) == "/host_fs" + path
  {
    var a, b := ["host_fs"], [x, y, z];
    HostRoot();
    JoinAbs(a, b);
    assert b == [x] + [y, z] && [y, z] == [y] + [z];
    JoinCons(x, [y, z], "/");
    JoinCons(y, [z], "/");
    JoinCons("host_fs", b, "/");
    assert Abs(b) == path;
    Assoc("/", "host_fs", "/" + Join(b, "/"));
  }

  lemma HostRoot()
    ensures PlainFile("host_fs") && "/host_fs" == "/" + "host_fs" == Abs(["host_fs"])
  {
    assert Join(["host_fs"], "/") == "host_fs";
  }

  lemma ContainerdConfig()
    ensures JoinPath("/host_fs", "/etc/containerd/config.toml") == "/host_fs" + "/etc/containerd/config.toml"
  {
    assert "/etc/containerd/config.toml" == "/" + ("etc" + ("/" + ("containerd" + ("/" + "config.toml"))));
    JoinThree("etc", "containerd", "config.toml", "/etc/containerd/config.toml");
  }

  lemma ContainerdDropIns()
    ensures JoinPath("/host_fs", "/etc/containerd/containerd.conf.d")
         == "/host_fs" + "/etc/containerd/containerd.conf.d"
  {
    assert "/etc/containerd/containerd.conf.d" == "/" + ("etc" + ("/" + ("containerd" + ("/" + "containerd.conf.d"))));
    JoinThree("etc", "containerd", "containerd.conf.d", "/etc/containerd/containerd.conf.d");
  }

  lemma CrioConfig()
    ensures JoinPath("/host_fs", "/etc/crio/crio.conf") == "/host_fs" + "/etc/crio/crio.conf"
  {
    assert "/etc/crio/crio.conf" == "/" + ("etc" + ("/" + ("crio" + ("/" + "crio.conf"))));
    JoinThree("etc", "crio", "crio.conf", "/etc/crio/crio.conf");
  }

  lemma CrioDropIns()
    ensures JoinPath("/host_fs", "/etc/crio/crio.conf.d") == "/host_fs" + "/etc/crio/crio.conf.d"
  {
    assert "/etc/crio/crio.conf.d" == "/" + ("etc" + ("/" + ("crio" + ("/" + "crio.conf.d"))));
    JoinThree("etc", "crio", "crio.conf.d", "/etc/crio/crio.conf.d");
  }

  /** The main config: the file given with `--config`, below the host's root, or the default one. */
  lemma MainConfig(h: Host, p: ProcessDetails)
    ensures FlagOf(p, "--config") != "" ==>
              ConfigPathOf(Containerd(h, p)) == ConfigPathOf(Crio(h, p)) == JoinPath("/host_fs", FlagOf(p, "--config"))
    ensures FlagOf(p, "--config") == "" ==>
              && ConfigPathOf(Containerd(h, p)) == "/host_fs" + "/etc/containerd/config.toml"
              && ConfigPathOf(Crio(h, p)) == "/host_fs" + "/etc/crio/crio.conf"
  {
    ContainerdConfig();
    CrioConfig();
  }

  /** The drop-in directory: for cri-o the one given with `--config-dir`, as it is given, or the default one below the
      host's root. */
  lemma DropInDirectory(h: Host, p: ProcessDetails)
    ensures FlagOf(p, "--config-dir") != "" ==> ConfigDirOf(Crio(h, p)) == FlagOf(p, "--config-dir")
    ensures FlagOf(p, "--config-dir") == "" ==> ConfigDirOf(Crio(h, p)) == "/host_fs" + "/etc/crio/crio.conf.d"
    ensures FlagOf(p, "") == "" ==> ConfigDirOf(Containerd(h, p)) == "/host_fs" + "/etc/containerd/containerd.conf.d"
  {
    ContainerdDropIns();
    CrioDropIns();
  }

  /** Below the host's root there is always a main config to look for. */
  lemma AlwaysMainConfig(r: Runtime)
    requires r.rootDir == "/host_fs"
    ensures ConfigPathOf(r) != ""
  {
    var path := FlagOf(r.process, r.properties.configArgName);
    var joined := "/host_fs" + ("/" + if path == "" then r.properties.defaultConfigPath else path);
    assert Rooted(joined);
  }

  /** The main config decides where no drop-in that parses names a directory. */
  lemma MainConfigDecides(h: Host, r: Runtime)
    requires FlaggedDir(r) == "" && r.rootDir == "/host_fs"
    requires forall name :: name in Listed(h, r) ==>
               ValueIn(r.properties.parse, DirPrefix(ConfigDirOf(r)) + name) == ""
    ensures RuntimeDir(h, r) == match r.properties.parse(ConfigPathOf(r)) case Some(dir) => dir case None => ""
  {
    AlwaysMainConfig(r);
    var parse, prefix, names := r.properties.parse, DirPrefix(ConfigDirOf(r)), Listed(h, r);
    assert DropIns(h, r) == Prefixed(prefix, Sort(names));
    DropInsEmptyExactly(parse, prefix, names);
    OverlayBase(ValueIn(parse, ConfigPathOf(r)), ValuesIn(parse, DropIns(h, r)));
  }

  /** Each runtime's files are read by its own parser: with no flag and no drop-in that says otherwise, the directory is
      the one that this parser finds in the main config. */
  lemma OwnParser(h: Host, p: ProcessDetails)
    ensures var r := Containerd(h, p);
            (forall name :: name in Listed(h, r) ==> ValueIn(h.parseContainerd, DirPrefix(ConfigDirOf(r)) + name) == "")
            ==> RuntimeDir(h, r) == match h.parseContainerd(ConfigPathOf(r)) case Some(dir) => dir case None => ""
    ensures var r := Crio(h, p);
            FlagOf(p, "--cni-config-dir") == ""
            && (forall name :: name in Listed(h, r) ==> ValueIn(h.parseCrio, DirPrefix(ConfigDirOf(r)) + name) == "")
            ==> RuntimeDir(h, r) == match h.parseCrio(ConfigPathOf(r)) case Some(dir) => dir case None => ""
  {
    var c, d := Containerd(h, p), Crio(h, p);
    if forall name :: name in Listed(h, c) ==> ValueIn(h.parseContainerd, DirPrefix(ConfigDirOf(c)) + name) == "" {
      MainConfigDecides(h, c);
    }
    if FlagOf(p, "--cni-config-dir") == ""
       && forall name :: name in Listed(h, d) ==> ValueIn(h.parseCrio, DirPrefix(ConfigDirOf(d)) + name) == "" {
      MainConfigDecides(h, d);
    }
  }

  /* ---------- the chain ---------- */

  /** The kubelet's own flag comes before everything else. */
  lemma KubeletFlagWins(h: Host, kubelet: ProcessDetails)
    requires FlagOf(kubelet, "--cni-conf-dir") != ""
    ensures Resolve(h, kubelet) == FlagOf(kubelet, "--cni-conf-dir")
  {}

  /** Then the runtime that the endpoint selects, with no default in its place. */
  lemma EndpointDecides(h: Host, kubelet: ProcessDetails, p: ProcessDetails)
    requires FlagOf(kubelet, "--cni-conf-dir") == ""
    ensures var e := FlagOf(kubelet, "--container-runtime-endpoint");
            (e == "containerd" || e == "/containerd.sock" || HasSuffix(e, "/cri-dockerd.sock"))
            && Locate(h.proc, "/containerd") == Located(p) ==>
              Resolve(h, kubelet) == RuntimeDir(h, Containerd(h, p))
    ensures var e := FlagOf(kubelet, "--container-runtime-endpoint");
            (e == "crio" || e == "/crio.sock") && Locate(h.proc, "/crio") == Located(p) ==>
              Resolve(h, kubelet) == RuntimeDir(h, Crio(h, p))
  {
    assert !HasSuffix("crio", CRIDOCKERD_SOCK) && !HasSuffix("/crio.sock", CRIDOCKERD_SOCK);
  }

  /** The endpoint selects no runtime that runs. */
  ghost predicate NothingSelected(h: Host, kubelet: ProcessDetails) {
    RuntimeOf(h, EndpointKind(FlagOf(kubelet, "--container-runtime-endpoint"))) == None
  }

  function OrDefault(dir: string): string {
    if dir == "" then "/etc/cni/" else dir
  }

  /** Without either, containerd if it runs, then cri-o, then the default, which also stands in for no directory. */
  lemma ProcessesDecide(h: Host, kubelet: ProcessDetails)
    requires FlagOf(kubelet, "--cni-conf-dir") == "" && NothingSelected(h, kubelet)
    ensures Resolve(h, kubelet) ==
            match Locate(h.proc, "/containerd")
            case Located(p) => OrDefault(RuntimeDir(h, Containerd(h, p)))
            case _ =>
              match Locate(h.proc, "/crio")
              case Located(p) => OrDefault(RuntimeDir(h, Crio(h, p)))
              case _ => "/etc/cni/"
  {}

  /** What the kubelet's flags come to when no directory is found through them. */
  lemma KubeletErrors(h: Host, kubelet: ProcessDetails)
    requires FlagOf(kubelet, "--cni-conf-dir") == ""
    ensures var e := FlagOf(kubelet, "--container-runtime-endpoint");
            var remote := FlagOf(kubelet, "--container-runtime") == "remote";
            && (KubeletDir(h, kubelet) == NoRuntime <==> e == "" && remote)
            && (KubeletDir(h, kubelet) == Dockershim <==> e == "" && !remote)
            && (KubeletDir(h, kubelet).NotRunning? <==> e != "" && NothingSelected(h, kubelet))
  {}

  /** The whole way for cri-o: with no flag of the kubelet's and cri-o's socket as endpoint, the first value of cri-o's
      own flag is the result, whatever its files say. */
  lemma CrioFlagReaches(h: Host, kubelet: ProcessDetails, opts: seq<Setting>, pid: int, dir: string)
    requires FlagOf(kubelet, "--cni-conf-dir") == ""
    requires FlagOf(kubelet, "--container-runtime-endpoint") in {"crio", "/crio.sock"}
    requires Locate(h.proc, "/crio") == Located(ProcessDetails(RenderAll(opts), pid))
    requires (forall o :: o in opts ==> PlainName(o.name)) && FirstValue(opts, "--cni-config-dir") == Some(dir)
    requires dir != ""
    ensures RuntimeDir(h, Crio(h, ProcessDetails(RenderAll(opts), pid))) == dir
    ensures Resolve(h, kubelet) == dir
  {
    var p := ProcessDetails(RenderAll(opts), pid);
    CrioFlagPlain();
    LookupIsFirstValue(opts, "--cni-config-dir");
    OwnFlagWins(h, p);
    EndpointDecides(h, kubelet, p);
  }

  lemma CrioFlagPlain()
    ensures PlainName("--cni-config-dir")
  {}
}
