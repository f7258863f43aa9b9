/** The profiling driver that runs on a node: for each bcc tool of the
    catalog it builds the tool's command line (with the workload's pid when
    the tool can profile by pid), runs it under a timeout, and uploads its
    output under a dated raw key. Threads, processes, signals, sleeping,
    the clock and S3 are not modelled: what they did is given per tool as a
    `ToolEnv`, and the model decides what is run, what is raised, and what
    is uploaded. */
module ExecuteEbpf {
  import opened Errors
  import opened Text
  import Transform
  import LambdaTransform

  /** The bcc tools directory, prefixed to each tool's file name. */
  const EBPF_PATH: string := "my_bcc_path"

  /** The prefix of every raw object key. */
  const KEY: string := "raw_key"

  /** A tool's fixed arguments and whether it accepts `-p <pid>`. */
  datatype EbpfCommand = EbpfCommand(defaultArgs: seq<string>, pidArg: bool)

  /** `ebpf_args`, in its declaration order (lines 152-160). */
  const EBPF_ARGS: seq<(string, EbpfCommand)> := [
    ("execsnoop", EbpfCommand(["-x", "-T", "-U"], false)),
    ("syscount", EbpfCommand(["-L", "-d", "25"], true)),
    ("runqlat", EbpfCommand(["25", "1"], false)),
    ("biosnoop", EbpfCommand([], false)),
    ("biolatency", EbpfCommand(["25", "1", "-j"], false))
  ]

  /** `WORKLOADS`: the workload commands a node can run beside the tools. */
  const WORKLOADS: seq<(string, seq<string>)> := [
    ("DISKIO", ["my_diskio_gcc_path", "&"]),
    ("MATRIX", ["my_matmul_gcc_path", "-l", "2", "-m", "3000", "-p", "1500", "-n", "1500", "&"]),
    ("IDLE", [])
  ]

  function Names<T>(catalog: seq<(string, T)>): (r: seq<string>)
    ensures |r| == |catalog|
    ensures forall k :: 0 <= k < |r| ==> r[k] == catalog[k].0
  {
    seq(|catalog|, k requires 0 <= k < |catalog| => catalog[k].0)
  }

  /** The tools profiled are exactly the five tools the decoders know, in
      the same order, and only syscount is given the workload's pid. */
  lemma CatalogMatchesDecoders()
    ensures Names(EBPF_ARGS) == Transform.SCRIPTS
    ensures forall k :: 0 <= k < |EBPF_ARGS| ==> (EBPF_ARGS[k].1.pidArg <==> EBPF_ARGS[k].0 == "syscount")
    ensures forall k :: 0 <= k < |EBPF_ARGS| ==> "-p" !in EBPF_ARGS[k].1.defaultArgs
  {
  }

  // ---------------------------------------------------------------------
  // Raw result paths

  /** A calendar date as `datetime.now()` gives it. */
  datatype Date = Date(year: nat, month: nat, day: nat)

  predicate ValidDate(d: Date)
  {
    1 <= d.year && 1 <= d.month <= 12 && 1 <= d.day <= 31
  }

  /** `%02d`. */
  function Pad2(n: nat): (s: string)
    requires n < 100
    ensures |s| == 2 && AllDigits(s)
  {
    [Digit(n / 10), Digit(n % 10)]
  }

  /** `strftime("%m-%d-%Y")`: zero-padded month and day, then the year as
      glibc writes it (no padding). */
  function DateString(d: Date): (s: string)
    requires ValidDate(d)
    ensures forall k :: 0 <= k < |s| ==> IsDigit(s[k]) || s[k] == '-'
  {
    Pad2(d.month) + "-" + Pad2(d.day) + "-" + NatToString(d.year)
  }

  /** Reading a `mm-dd-yyyy` string back. */
  function ParseDate(s: string): Option<Date>
  {
    var parts := Split(s, '-');
    if |parts| != 3 then None
    else
      match (Digits(parts[0]), Digits(parts[1]), Digits(parts[2]))
      case (Some(m), Some(d), Some(y)) => Some(Date(y, m, d))
      case _ => None
  }

  lemma Pad2Digits(n: nat)
    requires n < 100
    ensures Digits(Pad2(n)) == Some(n)
  {
    assert Pad2(n)[..1] == [Digit(n / 10)];
  }

  /** The three `-`-pieces of a date string. */
  lemma DatePieces(d: Date)
    requires ValidDate(d)
    ensures Split(DateString(d), '-') == [Pad2(d.month), Pad2(d.day), NatToString(d.year)]
  {
    var m := Pad2(d.month);
    var dd := Pad2(d.day);
    var y := NatToString(d.year);
    assert '-' !in m && '-' !in dd && '-' !in y;
    assert DateString(d) == m + ['-'] + (dd + ['-'] + y);
    SplitAtFirst(m, '-', dd + ['-'] + y);
    SplitAtFirst(dd, '-', y);
  }

  /** The date string determines the date. */
  lemma DateRoundTrip(d: Date)
    requires ValidDate(d)
    ensures ParseDate(DateString(d)) == Some(d)
  {
    DatePieces(d);
    Pad2Digits(d.month);
    Pad2Digits(d.day);
    NatToStringDigits(d.year);
  }

  /** `generate_filepath` with the clock reading `date`. */
  function GenerateFilepath(node: string, scriptName: string, date: Date): (path: string)
    requires ValidDate(date)
    ensures EndsWith(path, ".txt")
  {
    RawPath(KEY, node, scriptName, date)
  }

  /** The raw path under an arbitrary key prefix. */
  function RawPath(key: string, node: string, scriptName: string, date: Date): (path: string)
    requires ValidDate(date)
    ensures EndsWith(path, ".txt")
  {
    key + DateString(date) + "/" + node + "_" + scriptName + ".txt"
  }

  /** Under a prefix that ends a directory (`dir/`), the transformation
      reads the date, node and tool back from the raw path. */
  lemma RawPathRoundTrip(dir: string, node: string, scriptName: string, date: Date)
    requires ValidDate(date) && '/' !in dir
    requires '/' !in node && '.' !in node && '/' !in scriptName && '.' !in scriptName && '_' !in scriptName
    ensures LambdaTransform.ParseKey(RawPath(dir + "/", node, scriptName, date)) ==
      Ok(LambdaTransform.KeyParts(DateString(date), node, scriptName))
  {
    var ds := DateString(date);
    assert '/' !in ds;
    LambdaTransform.ParseKeyRoundTrip(dir, ds, node, scriptName, ".txt");
    assert RawPath(dir + "/", node, scriptName, date) == dir + "/" + ds + "/" + node + "_" + scriptName + ".txt";
  }

  /** With the prefix as configured (`raw_key`, no `/`), a raw path has only
      two `/`-segments, so the transformation's key parsing rejects it. */
  lemma RawPathAsConfigured(node: string, scriptName: string, date: Date)
    requires ValidDate(date) && '/' !in node && '/' !in scriptName
    ensures LambdaTransform.ParseKey(GenerateFilepath(node, scriptName, date)) == Err(IndexError)
  {
    var path := GenerateFilepath(node, scriptName, date);
    var head := KEY + DateString(date);
    var file := node + "_" + scriptName + ".txt";
    assert '/' !in head && '/' !in file;
    assert path == head + ['/'] + file;
    SplitAtFirst(head, '/', file);
  }

  // ---------------------------------------------------------------------
  // Tool commands

  /** `["python", EBPF_PATH + name + ".py"] + default_args`. */
  function BaseCommand(name: string, c: EbpfCommand): (cmd: seq<string>)
    ensures |cmd| == 2 + |c.defaultArgs| && cmd[2..] == c.defaultArgs
  {
    ["python", EBPF_PATH + name + ".py"] + c.defaultArgs
  }

  /** The command after the optional `-p <pid>` extension. */
  function ToolCommand(name: string, c: EbpfCommand, pid: Option<nat>): seq<string>
  {
    BaseCommand(name, c) + (if pid.Some? && c.pidArg then ["-p", NatToString(pid.value)] else [])
  }

  /** The command is the base command, followed by `-p` and the pid exactly
      when there is a workload pid and the tool profiles by pid; `-p`
      occurs once more than in the tool's own arguments in that case and
      never otherwise, and the tool reads the workload's pid back. */
  lemma ToolCommandPid(name: string, c: EbpfCommand, pid: Option<nat>)
    ensures var cmd := ToolCommand(name, c, pid);
      var base := BaseCommand(name, c);
      cmd[..|base|] == base &&
      (pid.Some? && c.pidArg ==>
         |cmd| == |base| + 2 && cmd[|base|] == "-p" && ParseInt(cmd[|base| + 1]) == Ok(pid.value as int)) &&
      (!(pid.Some? && c.pidArg) ==> cmd == base) &&
      multiset(cmd)["-p"] == multiset(c.defaultArgs)["-p"] + (if pid.Some? && c.pidArg then 1 else 0)
  {
    var base := BaseCommand(name, c);
    assert base == ["python", EBPF_PATH + name + ".py"] + c.defaultArgs;
    assert multiset(base)["-p"] == multiset(c.defaultArgs)["-p"];
    if pid.Some? && c.pidArg {
      var n := NatToString(pid.value);
      IntRoundTrip(pid.value);
      assert IsDigit(n[0]);
      assert n != "-p";
    }
  }

  // ---------------------------------------------------------------------
  // ThreadedExecution

  /** The tool process as the thread left it: its return code, which stays
      None unless `communicate()` ran — the thread's target can raise after
      `Popen` succeeded (a `decode("utf-8")` of output that is not UTF-8). */
  datatype Process = Process(returnCode: Option<int>)

  /** What the tool's thread did by the time `join(execution_timeout)`
      returned: whether `Popen` started the tool, whether the thread is still
      running, the return code, the text the thread wrote to the output
      buffer, and whether `os.kill` raised. */
  datatype Observation = Observation(spawned: bool, alive: bool, returnCode: Option<int>,
                                     written: string, signalFails: bool)

  /** The end of `run` (lines 88-104). A thread still running is stopped and
      its buffered output returned — unless there is no process to signal
      (AttributeError on `None.pid`) or `os.kill` raises. A thread that
      finished raises CalledProcessError for a positive return code,
      TypeError when its process has no return code (`None > 0`), and
      otherwise returns the output, also for a zero or a negative (signal)
      return code, and also when the tool never started. */
  function Classify(alive: bool, process: Option<Process>, signalFails: bool, buffer: string): (r: Result<string>)
    ensures r.Ok? ==> r.value == buffer
    ensures alive ==> (r.Ok? <==> process.Some? && !signalFails)
    ensures alive && process.None? ==> r == Err(AttributeError)
    ensures alive && process.Some? && signalFails ==> r == Err(SignalError)
    ensures !alive ==>
      (r.Err? <==> process.Some? &&
                   (process.value.returnCode.None? || process.value.returnCode.value > 0))
    ensures !alive && process.Some? && process.value.returnCode.None? ==> r == Err(TypeError)
    ensures !alive && process.Some? && process.value.returnCode.Some? && r.Err? ==>
      r.error == CalledProcessError(process.value.returnCode.value)
  {
    if alive then
      if process.None? then Err(AttributeError)
      else if signalFails then Err(SignalError)
      else Ok(buffer)
    else if process.Some? && process.value.returnCode.None? then Err(TypeError)
    else if process.Some? && process.value.returnCode.value > 0 then
      Err(CalledProcessError(process.value.returnCode.value))
    else Ok(buffer)
  }

  /** Runs one command on a thread with a timeout. */
  class ThreadedExecution {
    var cmd: seq<string>
    var process: Option<Process>
    var output: string

    constructor (cmd: seq<string>)
      ensures this.cmd == cmd && process == None && output == ""
    {
      this.cmd := cmd;
      process := None;
      output := "";
    }

    /** The thread stores the process it started and the text it read;
        then the result is classified. */
    method Run(obs: Observation) returns (r: Result<string>)
      modifies this
      ensures cmd == old(cmd)
      ensures process == (if obs.spawned then Some(Process(obs.returnCode)) else old(process))
      ensures output == (if obs.spawned then obs.written else old(output))
      ensures r == Classify(obs.alive, process, obs.signalFails, output)
    {
      if obs.spawned {
        process := Some(Process(obs.returnCode));
        output := obs.written;
      }
      if obs.alive {
        if process.None? {
          return Err(AttributeError);
        }
        if obs.signalFails {
          return Err(SignalError);
        }
        return Ok(output);
      }
      if process.Some? && process.value.returnCode.None? {
        return Err(TypeError);
      }
      if process.Some? && process.value.returnCode.value > 0 {
        return Err(CalledProcessError(process.value.returnCode.value));
      }
      return Ok(output);
    }
  }

  /** A fresh execution run once: the result the tool's iteration sees. */
  function RunOnce(obs: Observation): Result<string>
  {
    Classify(obs.alive, if obs.spawned then Some(Process(obs.returnCode)) else None,
             obs.signalFails, if obs.spawned then obs.written else "")
  }

  /** A tool that never started and whose thread ended returns the empty
      output without error; a finished tool's output is returned exactly
      when it has a return code and that code is not positive. */
  lemma RunOnceCases(obs: Observation)
    ensures !obs.spawned && !obs.alive ==> RunOnce(obs) == Ok("")
    ensures obs.spawned && !obs.alive ==>
      (RunOnce(obs) == Ok(obs.written) <==> obs.returnCode.Some? && obs.returnCode.value <= 0)
    ensures obs.spawned && !obs.alive && obs.returnCode.None? ==> RunOnce(obs) == Err(TypeError)
    ensures obs.spawned && obs.alive && !obs.signalFails ==> RunOnce(obs) == Ok(obs.written)
    ensures !obs.spawned && obs.alive ==> RunOnce(obs) == Err(AttributeError)
  {
  }

  // ---------------------------------------------------------------------
  // ebpf_execution

  /** What the environment did in one tool's iteration: the clock reading,
      whether the workload was started and its pid, the tool thread's
      observation, whether the workload cleanup (`os.kill`) raised, and
      whether `put_object` raised. */
  datatype ToolEnv = ToolEnv(date: Date, workloadSpawns: bool, workloadPid: nat,
                             run: Observation, killFails: bool, uploadFails: bool)

  /** One `put_object`: the raw key and the tool's output. */
  datatype RawUpload = RawUpload(path: string, body: string)

  /** One iteration: the command the tool was given (as far as it was
      built), whether a workload was started, and the upload or the
      exception that was printed instead. */
  datatype Outcome = Outcome(command: seq<string>, workloadStarted: bool, result: Result<RawUpload>)

  /** `program_cmd`, with `None` meaning no workload. */
  function ProgramOf(programCmd: Option<seq<string>>): seq<string>
  {
    if programCmd.Some? then programCmd.value else []
  }

  /** One iteration of the tool loop (lines 122-149). */
  function Iteration(node: string, name: string, c: EbpfCommand, program: seq<string>, env: ToolEnv): Outcome
    requires ValidDate(env.date)
  {
    var path := GenerateFilepath(node, name, env.date);
    if program != [] && !env.workloadSpawns then Outcome(BaseCommand(name, c), false, Err(SpawnError))
    else
      var pid := if program != [] then Some(env.workloadPid) else None;
      var cmd := ToolCommand(name, c, pid);
      match RunOnce(env.run)
      case Err(e) => Outcome(cmd, pid.Some?, Err(e))
      case Ok(output) =>
        if pid.Some? && env.killFails then Outcome(cmd, true, Err(SignalError))
        else if env.uploadFails then Outcome(cmd, pid.Some?, Err(UploadError))
        else Outcome(cmd, pid.Some?, Ok(RawUpload(path, output)))
  }

  method RunTool(node: string, name: string, c: EbpfCommand, program: seq<string>, env: ToolEnv) returns (o: Outcome)
    requires ValidDate(env.date)
    ensures o == Iteration(node, name, c, program, env)
  {
    var resultPath := GenerateFilepath(node, name, env.date);
    var cmd := ["python", EBPF_PATH + name + ".py"] + c.defaultArgs;
    var programPid: Option<nat> := None;
    if program != [] {
      if !env.workloadSpawns {
        return Outcome(cmd, false, Err(SpawnError));
      }
      programPid := Some(env.workloadPid);
      if c.pidArg {
        cmd := cmd + ["-p", NatToString(env.workloadPid)];
      }
    }
    var execution := new ThreadedExecution(cmd);
    var output := execution.Run(env.run);
    if output.Err? {
      return Outcome(cmd, programPid.Some?, Err(output.error));
    }
    if programPid.Some? && env.killFails {
      return Outcome(cmd, true, Err(SignalError));
    }
    if env.uploadFails {
      return Outcome(cmd, programPid.Some?, Err(UploadError));
    }
    return Outcome(cmd, programPid.Some?, Ok(RawUpload(resultPath, output.value)));
  }

  predicate ValidEnvs(envs: seq<ToolEnv>)
  {
    |envs| == |EBPF_ARGS| && forall k :: 0 <= k < |envs| ==> ValidDate(envs[k].date)
  }

  /** The iterations over the whole catalog. */
  function ExecutionSpec(node: string, programCmd: Option<seq<string>>, envs: seq<ToolEnv>): (r: seq<Outcome>)
    requires ValidEnvs(envs)
    ensures |r| == |EBPF_ARGS|
  {
    seq(|EBPF_ARGS|, k requires 0 <= k < |EBPF_ARGS| =>
      Iteration(node, EBPF_ARGS[k].0, EBPF_ARGS[k].1, ProgramOf(programCmd), envs[k]))
  }

  /** `ebpf_execution`: every tool's iteration runs, whatever the earlier ones
      raised. */
  method EbpfExecution(node: string, programCmd: Option<seq<string>>, envs: seq<ToolEnv>) returns (outcomes: seq<Outcome>)
    requires ValidEnvs(envs)
    ensures outcomes == ExecutionSpec(node, programCmd, envs)
  {
    var program := if programCmd.None? then [] else programCmd.value;
    outcomes := [];
    for i := 0 to |EBPF_ARGS|
      invariant |outcomes| == i
      invariant forall k :: 0 <= k < i ==>
        outcomes[k] == Iteration(node, EBPF_ARGS[k].0, EBPF_ARGS[k].1, program, envs[k])
    {
      var o := RunTool(node, EBPF_ARGS[i].0, EBPF_ARGS[i].1, program, envs[i]);
      outcomes := outcomes + [o];
    }
  }

  /** The uploads of a run, in catalog order. */
  function Uploads(outcomes: seq<Outcome>): (r: seq<RawUpload>)
    ensures |r| <= |outcomes|
  {
    if outcomes == [] then []
    else
      Uploads(Init(outcomes)) +
        (if Last(outcomes).result.Ok? then [Last(outcomes).result.value] else [])
  }

  /** An iteration uploads exactly when nothing in it raised, and then under
      the tool's raw path with the tool's output; a workload is started in
      the iteration exactly when there is one to start and it started. */
  lemma IterationOutcome(node: string, name: string, c: EbpfCommand, program: seq<string>, env: ToolEnv)
    requires ValidDate(env.date)
    ensures var o := Iteration(node, name, c, program, env);
      var started := program != [] && env.workloadSpawns;
      (o.workloadStarted <==> started) &&
      (o.result.Ok? <==>
         (program == [] || env.workloadSpawns) && RunOnce(env.run).Ok? &&
         !(started && env.killFails) && !env.uploadFails) &&
      (o.result.Ok? ==> o.result.value == RawUpload(GenerateFilepath(node, name, env.date), RunOnce(env.run).value)) &&
      o.command == ToolCommand(name, c, if started then Some(env.workloadPid) else None)
  {
  }

  /** The workload's pid goes to a tool exactly when that iteration started
      a workload, and only to syscount. */
  lemma IterationPidFlag(node: string, k: nat, program: seq<string>, env: ToolEnv)
    requires k < |EBPF_ARGS| && ValidDate(env.date)
    ensures var name := EBPF_ARGS[k].0;
      var o := Iteration(node, name, EBPF_ARGS[k].1, program, env);
      multiset(o.command)["-p"] == (if program != [] && env.workloadSpawns && name == "syscount" then 1 else 0)
  {
    CatalogEntry(k);
    var c := EBPF_ARGS[k].1;
    var started := program != [] && env.workloadSpawns;
    IterationOutcome(node, EBPF_ARGS[k].0, c, program, env);
    ToolCommandPid(EBPF_ARGS[k].0, c, if started then Some(env.workloadPid) else None);
  }

  /** One catalog entry: pid profiling exactly for syscount, and no `-p`
      among the fixed arguments. */
  lemma CatalogEntry(k: nat)
    requires k < |EBPF_ARGS|
    ensures EBPF_ARGS[k].1.pidArg == (EBPF_ARGS[k].0 == "syscount")
    ensures multiset(EBPF_ARGS[k].1.defaultArgs)["-p"] == 0
  {
    CatalogMatchesDecoders();
  }

  /** Without a workload (`None` or the empty IDLE command) no iteration
      starts one and no tool gets `-p`. */
  lemma IdleRunsAlone(node: string, programCmd: Option<seq<string>>, envs: seq<ToolEnv>)
    requires ValidEnvs(envs) && ProgramOf(programCmd) == []
    ensures forall k :: 0 <= k < |EBPF_ARGS| ==>
      !ExecutionSpec(node, programCmd, envs)[k].workloadStarted &&
      multiset(ExecutionSpec(node, programCmd, envs)[k].command)["-p"] == 0
  {
    forall k | 0 <= k < |EBPF_ARGS|
      ensures !ExecutionSpec(node, programCmd, envs)[k].workloadStarted &&
        multiset(ExecutionSpec(node, programCmd, envs)[k].command)["-p"] == 0
    {
      IterationOutcome(node, EBPF_ARGS[k].0, EBPF_ARGS[k].1, [], envs[k]);
      IterationPidFlag(node, k, [], envs[k]);
    }
  }

  /** The indices of the iterations that uploaded. */
  function Uploaded(outcomes: seq<Outcome>): set<nat>
  {
    set k: nat | k < |outcomes| && outcomes[k].result.Ok?
  }

  /** One upload per iteration that raised nothing. */
  lemma {:induction false} UploadsCount(outcomes: seq<Outcome>)
    ensures |Uploads(outcomes)| == |Uploaded(outcomes)|
    decreases |outcomes|
  {
    if outcomes != [] {
      var init := Init(outcomes);
      UploadsCount(init);
      var n := |outcomes| - 1;
      if outcomes[n].result.Ok? {
        assert Uploaded(outcomes) == Uploaded(init) + {n};
      } else {
        assert Uploaded(outcomes) == Uploaded(init);
      }
    }
  }

  /** The uploads are the results of the iterations that raised nothing, in
      catalog order: an iteration's upload comes after those of the
      iterations before it. */
  lemma {:induction false} UploadsInOrder(outcomes: seq<Outcome>)
    ensures forall u :: u in Uploads(outcomes) <==> exists k :: 0 <= k < |outcomes| && outcomes[k].result == Ok(u)
    ensures forall k :: 0 <= k < |outcomes| && outcomes[k].result.Ok? ==>
      UploadAt(outcomes, k, |Uploads(outcomes[..k])|)
    decreases |outcomes|
  {
    if outcomes != [] {
      var init := Init(outcomes);
      var n := |outcomes| - 1;
      UploadsInOrder(init);
      assert forall k :: 0 <= k < |init| ==> init[k] == outcomes[k];
      forall k | 0 <= k < |outcomes| && outcomes[k].result.Ok?
        ensures UploadAt(outcomes, k, |Uploads(outcomes[..k])|)
      {
        if k < n {
          assert outcomes[..k] == init[..k];
        } else {
          assert outcomes[..k] == init;
        }
      }
    }
  }

  /** Upload `j` is the result of iteration `k`. */
  predicate UploadAt(outcomes: seq<Outcome>, k: nat, j: nat)
    requires k < |outcomes|
  {
    j < |Uploads(outcomes)| && outcomes[k].result == Ok(Uploads(outcomes)[j])
  }

  // ---------------------------------------------------------------------
  // The entry point

  /** `WORKLOADS[workload]`, or KeyError (lines 187-190). */
  function ResolveWorkload(workload: string): (r: Result<seq<string>>)
    ensures r.Err? <==> workload !in Names(WORKLOADS)
    ensures r.Err? ==> r.error == KeyError
    ensures r.Ok? ==> (workload, r.value) in WORKLOADS
  {
    if workload == "DISKIO" then Ok(WORKLOADS[0].1)
    else if workload == "MATRIX" then Ok(WORKLOADS[1].1)
    else if workload == "IDLE" then Ok(WORKLOADS[2].1)
    else Err(KeyError)
  }

  /** The main block: an unknown workload raises before any tool runs;
      otherwise the catalog is profiled beside the workload. */
  method Profile(node: string, workload: string, envs: seq<ToolEnv>) returns (r: Result<seq<Outcome>>)
    requires ValidEnvs(envs)
    ensures r.Err? <==> workload !in Names(WORKLOADS)
    ensures r.Err? ==> r.error == KeyError
    ensures r.Ok? ==> r.value == ExecutionSpec(node, Some(ResolveWorkload(workload).value), envs)
  {
    var program := ResolveWorkload(workload);
    if program.Err? {
      return Err(program.error);
    }
    var outcomes := EbpfExecution(node, Some(program.value), envs);
    return Ok(outcomes);
  }

  /** The DISKIO and MATRIX workloads start a fresh workload in every
      iteration whose spawn succeeds, not once for the batch. */
  lemma WorkloadPerIteration(node: string, workload: string, envs: seq<ToolEnv>)
    requires ValidEnvs(envs) && (workload == "DISKIO" || workload == "MATRIX")
    ensures var outcomes := ExecutionSpec(node, Some(ResolveWorkload(workload).value), envs);
      forall k :: 0 <= k < |EBPF_ARGS| ==> (outcomes[k].workloadStarted <==> envs[k].workloadSpawns)
  {
    var program := ResolveWorkload(workload).value;
    assert program != [];
    forall k | 0 <= k < |EBPF_ARGS|
      ensures ExecutionSpec(node, Some(program), envs)[k].workloadStarted <==> envs[k].workloadSpawns
    {
      IterationOutcome(node, EBPF_ARGS[k].0, EBPF_ARGS[k].1, program, envs[k]);
    }
  }
}
