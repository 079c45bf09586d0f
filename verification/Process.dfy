/** Finding a process by the name of its executable, and reading its command line. */
module Process {
  import opened Wrappers
  import opened Sequences
  import opened Strings
  import opened Decimal

  const NUL: char := '\0'

  datatype ProcessDetails = ProcessDetails(cmdLine: seq<string>, pid: int)

  /** The process table: directory names as they are handed out, whether they were all read, and the raw
      command lines that can be read, by directory name. */
  datatype ProcDir = Unavailable | ProcDir(batches: seq<seq<string>>, complete: bool, cmdlines: map<string, string>)

  datatype LocateResult = Located(process: ProcessDetails) | NotOpened | ReadFailed | NotFound

  /** Conversion to 32 bits. */
  function ToInt32(x: int): (r: int)
    ensures -0x8000_0000 <= r < 0x8000_0000
    ensures -0x8000_0000 <= x < 0x8000_0000 ==> r == x
    ensures (x - r) % 0x1_0000_0000 == 0
  {
    (x + 0x8000_0000) % 0x1_0000_0000 - 0x8000_0000
  }

  /** The name compared with the suffix: a slash is put in front of a relative name. */
  function MatchName(exec: string): string
    requires exec != ""
  {
    if exec[0] != '/' && exec[0] != '[' then "/" + exec else exec
  }

  /** This entry of the process table is a process whose executable has the suffix. */
  predicate HasExec(proc: ProcDir, name: string, suffix: string)
    requires proc.ProcDir?
  {
    && Atoi(name).Some? && name in proc.cmdlines
    && var exec := Split(proc.cmdlines[name], NUL)[0];
       exec != "" && HasSuffix(MatchName(exec), suffix)
  }

  function DetailsOf(proc: ProcDir, name: string): ProcessDetails
    requires proc.ProcDir? && name in proc.cmdlines && Atoi(name).Some?
  {
    ProcessDetails(Split(proc.cmdlines[name], NUL), ToInt32(Atoi(name).value))
  }

  function FirstExec(proc: ProcDir, names: seq<string>, suffix: string): (r: Option<ProcessDetails>)
    requires proc.ProcDir?
  {
    if names == [] then None
    else if HasExec(proc, names[0], suffix) then Some(DetailsOf(proc, names[0]))
    else FirstExec(proc, names[1..], suffix)
  }

  function Locate(proc: ProcDir, suffix: string): LocateResult {
    if proc.Unavailable? then NotOpened
    else match FirstExec(proc, Flatten(proc.batches), suffix)
         case Some(p) => Located(p)
         case None => if proc.complete then NotFound else ReadFailed
  }

  lemma {:induction false} FirstExecConcat(proc: ProcDir, a: seq<string>, b: seq<string>, suffix: string)
    requires proc.ProcDir?
    ensures FirstExec(proc, a + b, suffix)
         == if FirstExec(proc, a, suffix).Some? then FirstExec(proc, a, suffix) else FirstExec(proc, b, suffix)
  {
    if a == [] {
      assert a + b == b;
    } else {
      assert (a + b)[1..] == a[1..] + b;
      FirstExecConcat(proc, a[1..], b, suffix);
    }
  }

  /** The loop that appends the arguments one by one. */
  method CopyArgs(parts: seq<string>) returns (cmdLine: seq<string>)
    ensures cmdLine == parts
  {
    cmdLine := [];
    for k := 0 to |parts|
      invariant cmdLine == parts[..k]
    {
      cmdLine := cmdLine + [parts[k]];
    }
  }

  method LocateProcessByExecSuffix(proc: ProcDir, processSuffix: string) returns (r: LocateResult)
    ensures r == Locate(proc, processSuffix)
  {
    if proc.Unavailable? {
      return NotOpened;
    }
    var b := 0;
    while b < |proc.batches|
      invariant b <= |proc.batches|
      invariant FirstExec(proc, Flatten(proc.batches), processSuffix)
             == FirstExec(proc, Flatten(proc.batches[b..]), processSuffix)
    {
      var pidDirs := proc.batches[b];
      assert proc.batches[b..][1..] == proc.batches[b + 1..];
      FirstExecConcat(proc, pidDirs, Flatten(proc.batches[b + 1..]), processSuffix);
      var i := 0;
      while i < |pidDirs|
        invariant i <= |pidDirs|
        invariant FirstExec(proc, pidDirs, processSuffix) == FirstExec(proc, pidDirs[i..], processSuffix)
      {
        var pidDir := pidDirs[i];
        assert pidDirs[i..][1..] == pidDirs[i + 1..];
        i := i + 1;
        var pid := Atoi(pidDir);
        if pid == None || pidDir !in proc.cmdlines {
          continue;
        }
        var cmdLineSplitted := Split(proc.cmdlines[pidDir], NUL);
        var processNameFromCMD := cmdLineSplitted[0];
        if |processNameFromCMD| == 0 {
          continue;
        }
        if processNameFromCMD[0] != '/' && processNameFromCMD[0] != '[' {
          processNameFromCMD := "/" + processNameFromCMD;
        }
        if HasSuffix(processNameFromCMD, processSuffix) {
          var cmdLine := CopyArgs(cmdLineSplitted);
          return Located(ProcessDetails(cmdLine, ToInt32(pid.value)));
        }
      }
      b := b + 1;
    }
    if !proc.complete {
      return ReadFailed;
    }
    return NotFound;
  }

  /** The process found is the first in listing order with that executable, and its command line is kept byte for
      byte: joined with NUL bytes again it is what the kernel gave, and the slash added for matching is not in it. */
  lemma {:induction false} FirstExecMeaning(proc: ProcDir, names: seq<string>, suffix: string)
    requires proc.ProcDir?
    ensures match FirstExec(proc, names, suffix)
            case None => forall k :: 0 <= k < |names| ==> !HasExec(proc, names[k], suffix)
            case Some(p) => exists k :: 0 <= k < |names| && IsFirst(proc, names, suffix, k)
                                        && Join(p.cmdLine, [NUL]) == proc.cmdlines[names[k]]
                                        && p.pid == ToInt32(Atoi(names[k]).value)
  {
    if names == [] {
    } else {
      if HasExec(proc, names[0], suffix) {
        SplitJoin(proc.cmdlines[names[0]], NUL);
        assert IsFirst(proc, names, suffix, 0);
      } else {
        FirstExecMeaning(proc, names[1..], suffix);
        if FirstExec(proc, names, suffix).Some? {
          var k :| 0 <= k < |names[1..]| && IsFirst(proc, names[1..], suffix, k)
                   && Join(FirstExec(proc, names, suffix).value.cmdLine, [NUL]) == proc.cmdlines[names[1..][k]]
                   && FirstExec(proc, names, suffix).value.pid == ToInt32(Atoi(names[1..][k]).value);
          assert names[1..][k] == names[k + 1];
          forall j | 0 <= j < k + 1 ensures !HasExec(proc, names[j], suffix) {
            assert j > 0 ==> names[j] == names[1..][j - 1];
          }
          assert IsFirst(proc, names, suffix, k + 1);
        } else {
          forall k | 0 <= k < |names| ensures !HasExec(proc, names[k], suffix) {
            assert k > 0 ==> names[k] == names[1..][k - 1];
          }
        }
      }
    }
  }

  ghost predicate IsFirst(proc: ProcDir, names: seq<string>, suffix: string, k: nat)
    requires proc.ProcDir? && k < |names|
  {
    HasExec(proc, names[k], suffix) && forall j :: 0 <= j < k ==> !HasExec(proc, names[j], suffix)
  }

  /** The command line with these arguments, as the kernel gives it. */
  ghost predicate HasArguments(proc: ProcDir, name: string, args: seq<string>)
    requires proc.ProcDir?
  {
    && name in proc.cmdlines && args != [] && (forall k :: 0 <= k < |args| ==> NUL !in args[k])
    && proc.cmdlines[name] == Join(args, [NUL])
  }

  /** What is compared is the first argument: as it is if it starts with a slash or a bracket, behind a slash
      otherwise. */
  lemma ExecExactly(proc: ProcDir, name: string, args: seq<string>, suffix: string)
    requires proc.ProcDir? && HasArguments(proc, name, args)
    ensures HasExec(proc, name, suffix) <==>
            Atoi(name) != None && args[0] != ""
            && if args[0][0] == '/' || args[0][0] == '[' then HasSuffix(args[0], suffix)
               else HasSuffix("/" + args[0], suffix)
    ensures Atoi(name) != None ==> DetailsOf(proc, name).cmdLine == args
  {
    JoinSplit(args, NUL);
  }

  /** An entry that is no number, or whose command line cannot be read, is passed over. */
  lemma NoProcess(proc: ProcDir, name: string, suffix: string)
    requires proc.ProcDir? && (Atoi(name) == None || name !in proc.cmdlines)
    ensures !HasExec(proc, name, suffix)
  {}

  lemma {:induction false} FirstExecAt(
      proc: ProcDir, before: seq<string>, name: string, after: seq<string>, suffix: string)
    requires proc.ProcDir? && HasExec(proc, name, suffix)
    requires forall k :: 0 <= k < |before| ==> !HasExec(proc, before[k], suffix)
    ensures FirstExec(proc, before + ([name] + after), suffix) == Some(DetailsOf(proc, name))
  {
    if before == [] {
      assert before + ([name] + after) == [name] + after;
    } else {
      assert (before + ([name] + after))[1..] == before[1..] + ([name] + after);
      FirstExecAt(proc, before[1..], name, after, suffix);
    }
  }

  /** The first process with the executable is found, with its number and with its arguments one by one. */
  lemma LocatedFirst(
      proc: ProcDir, before: seq<string>, pid: int, args: seq<string>, after: seq<string>, suffix: string)
    requires proc.ProcDir? && Flatten(proc.batches) == before + ([Itoa(pid)] + after)
    requires 0 <= pid < 0x8000_0000 && HasArguments(proc, Itoa(pid), args)
    requires args[0] != ""
    requires if args[0][0] == '/' || args[0][0] == '[' then HasSuffix(args[0], suffix)
             else HasSuffix("/" + args[0], suffix)
    requires forall k :: 0 <= k < |before| ==> !HasExec(proc, before[k], suffix)
    ensures Locate(proc, suffix) == Located(ProcessDetails(args, pid))
  {
    AtoiItoa(pid);
    ExecExactly(proc, Itoa(pid), args, suffix);
    FirstExecAt(proc, before, Itoa(pid), after, suffix);
  }

  /** Which of the four results a lookup has. */
  lemma LocateMeaning(proc: ProcDir, suffix: string)
    ensures Locate(proc, suffix).NotOpened? <==> proc.Unavailable?
    ensures proc.ProcDir? ==>
              var names := Flatten(proc.batches);
              var runs := exists k :: 0 <= k < |names| && HasExec(proc, names[k], suffix);
              && (Locate(proc, suffix).Located? <==> runs)
              && (Locate(proc, suffix).ReadFailed? <==> !runs && !proc.complete)
              && (Locate(proc, suffix).NotFound? <==> !runs && proc.complete)
  {
    if proc.ProcDir? {
      FirstExecMeaning(proc, Flatten(proc.batches), suffix);
    }
  }

  /** An executable given without its directory is matched by its whole name; kernel threads never are. */
  lemma MatchedByName(exec: string, name: string)
    requires exec != "" && '/' !in name && name != "" && ']' !in name
    ensures exec[0] != '/' && exec[0] != '[' ==>
              (HasSuffix(MatchName(exec), "/" + name) <==> exec == name || HasSuffix(exec, "/" + name))
    ensures exec[0] == '[' && exec[|exec| - 1] == ']' ==> !HasSuffix(MatchName(exec), "/" + name)
  {
    var longer, suffix := "/" + exec, "/" + name;
    if |suffix| <= |exec| {
      assert longer[|longer| - |suffix|..] == exec[|exec| - |suffix|..];
    }
    assert longer[1..] == exec && suffix[1..] == name;
    assert name[|name| - 1] in name;
    if HasSuffix(exec, suffix) {
      assert exec[|exec| - 1] == suffix[|suffix| - 1] == name[|name| - 1];
    }
  }

  /* ---------- the raw command ---------- */

  function RawCmd(p: ProcessDetails): string {
    Join(p.cmdLine, " ")
  }

  /** Each `c` replaced by `d`. */
  function Substitute(s: string, c: char, d: char): string {
    seq(|s|, i requires 0 <= i < |s| => if s[i] == c then d else s[i])
  }

  lemma SubstituteConcat(a: string, b: string, c: char, d: char)
    ensures Substitute(a + b, c, d) == Substitute(a, c, d) + Substitute(b, c, d)
  {}

  lemma SubstituteAbsent(a: string, c: char, d: char)
    requires c !in a
    ensures Substitute(a, c, d) == a
  {}

  lemma SubstituteCut(h: string, t: string, c: char, d: char)
    requires c !in h
    ensures Substitute(h + ([c] + t), c, d) == h + ([d] + Substitute(t, c, d))
  {
    SubstituteConcat(h, [c] + t, c, d);
    SubstituteConcat([c], t, c, d);
    SubstituteAbsent(h, c, d);
  }

  lemma {:induction false} SplitJoinOther(s: string, c: char, d: char)
    ensures Join(Split(s, c), [d]) == Substitute(s, c, d)
    decreases |s|
  {
    if c in s {
      var h, t := Head(s, c), Tail(s, c);
      HeadTail(s, c);
      SplitJoinOther(t, c, d);
      JoinCons(h, Split(t, c), [d]);
      SubstituteCut(h, t, c, d);
    } else {
      SubstituteAbsent(s, c, d);
    }
  }

  /** The raw command of a located process is its command line with spaces for the NUL bytes. */
  lemma RawCmdOfLocated(proc: ProcDir, name: string)
    requires proc.ProcDir? && name in proc.cmdlines && Atoi(name).Some?
    ensures RawCmd(DetailsOf(proc, name)) == Substitute(proc.cmdlines[name], NUL, ' ')
  {
    SplitJoinOther(proc.cmdlines[name], NUL, ' ');
  }

  /* ---------- arguments ---------- */

  /** The argument settles the question for this name: it is the flag itself, or the flag with a value. */
  predicate Decides(arg: string, name: string) {
    arg == name || name + "=" <= arg
  }

  /** Position of the first argument that settles it; the length of the line if none does. */
  function Deciding(cmd: seq<string>, name: string): (k: nat)
    ensures k <= |cmd|
    ensures k < |cmd| ==> Decides(cmd[k], name)
    ensures forall j :: 0 <= j < k ==> !Decides(cmd[j], name)
  {
    if cmd == [] then 0
    else if Decides(cmd[0], name) then 0
    else
      var k := Deciding(cmd[1..], name);
      assert forall j :: 0 < j < k + 1 ==> cmd[j] == cmd[1..][j - 1];
      k + 1
  }

  /** The value that the argument at position `k` gives. */
  function ValueAt(cmd: seq<string>, name: string, k: nat): string
    requires k < |cmd| && Decides(cmd[k], name)
  {
    if cmd[k] == name then (if k + 1 < |cmd| then cmd[k + 1] else "") else cmd[k][|name| + 1..]
  }

  /** The value of an argument, if it is there at all. */
  function Arg(cmd: seq<string>, name: string): Option<string> {
    var k := Deciding(cmd, name);
    if k < |cmd| then Some(ValueAt(cmd, name, k)) else None
  }

  /** The value, or the empty string. */
  function ArgOrEmpty(cmd: seq<string>, name: string): string {
    match Arg(cmd, name)
    case Some(v) => v
    case None => ""
  }

  lemma DecidingUnique(cmd: seq<string>, name: string, k: nat)
    requires k < |cmd| && Decides(cmd[k], name) && forall j :: 0 <= j < k ==> !Decides(cmd[j], name)
    ensures Deciding(cmd, name) == k
  {}

  /** No argument is the flag, alone or with a value. */
  ghost predicate WithoutFlag(args: seq<string>, name: string) {
    forall k :: 0 <= k < |args| ==> args[k] != name && !(name + "=" <= args[k])
  }

  lemma DecidingAt(before: seq<string>, arg: string, after: seq<string>, name: string)
    requires WithoutFlag(before, name) && Decides(arg, name)
    ensures Deciding(before + ([arg] + after), name) == |before| && (before + ([arg] + after))[|before|] == arg
  {
    var cmd := before + ([arg] + after);
    assert forall k :: 0 <= k < |before| ==> cmd[k] == before[k];
    DecidingUnique(cmd, name, |before|);
  }

  /** A bare flag takes the next argument as its value, whatever that is. */
  lemma BareFlag(before: seq<string>, name: string, value: string, after: seq<string>)
    requires WithoutFlag(before, name)
    ensures Arg(before + ([name] + ([value] + after)), name) == Some(value)
  {
    DecidingAt(before, name, [value] + after, name);
    assert (before + ([name] + ([value] + after)))[|before| + 1] == value;
  }

  /** At the end of the line it is there, with no value. */
  lemma LastFlag(before: seq<string>, name: string)
    requires WithoutFlag(before, name)
    ensures Arg(before + ([name] + []), name) == Some("")
  {
    DecidingAt(before, name, [], name);
  }

  /** A flag with a value has that value. */
  lemma FlagWithValue(before: seq<string>, name: string, value: string, after: seq<string>)
    requires WithoutFlag(before, name)
    ensures Arg(before + ([name + ("=" + value)] + after), name) == Some(value)
  {
    var arg := name + ("=" + value);
    assert arg == (name + "=") + value && |arg| > |name|;
    DecidingAt(before, arg, after, name);
    assert arg[|name| + 1..] == value;
  }

  /** Where neither occurs the flag is not found. */
  lemma NoFlag(args: seq<string>, name: string)
    requires WithoutFlag(args, name)
    ensures Arg(args, name) == None
  {
    assert forall k :: 0 <= k < |args| ==> !Decides(args[k], name);
  }

  method GetArg(p: ProcessDetails, argName: string) returns (val: string, ok: bool)
    ensures ok == Arg(p.cmdLine, argName).Some?
    ensures val == ArgOrEmpty(p.cmdLine, argName)
  {
    var idx := 0;
    while idx < |p.cmdLine|
      invariant idx <= |p.cmdLine|
      invariant forall j :: 0 <= j < idx ==> !Decides(p.cmdLine[j], argName)
    {
      var arg := p.cmdLine[idx];
      if !(argName <= arg) {
        idx := idx + 1;
        continue;
      }
      val := arg[|argName|..];
      assert argName + "=" <= arg <==> "=" <= val;
      if val != "" {
        if "=" <= val {
          val := val[1..];
          DecidingUnique(p.cmdLine, argName, idx);
          return val, true;
        }
        idx := idx + 1;
        continue;
      }
      DecidingUnique(p.cmdLine, argName, idx);
      var next := idx + 1;
      if next < |p.cmdLine| {
        val := p.cmdLine[next];
        return val, true;
      }
      return "", true;
    }
    return "", false;
  }
}
