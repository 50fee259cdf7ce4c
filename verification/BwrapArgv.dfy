/** The argv that wraps a command in bwrap, as it is built and as bwrap reads it. */
module BwrapArgv {
  import opened Wrappers
  import opened Decimals

  datatype Command = Shell(line: string) | Argv(words: seq<string>)
  datatype Bind = Bind(source: string, destination: string)
  datatype Setting = Setting(key: string, value: string)

  /** The rlimits argument: not given, a flag, or a mapping that overrides defaults. */
  datatype LimitArg = ByGate | Flag(on: bool) | Overrides(values: map<string, int>)

  datatype Request = Request(
    bwrapPath: string, command: Command,
    writableDirs: seq<string>, readonlyBinds: seq<Bind>, maskedDirs: seq<string>, emptyDirs: seq<string>,
    cwd: Option<string>, maskRuntimeSockets: Option<bool>, clearenv: Option<bool>, extraEnv: seq<Setting>,
    rlimits: LimitArg, prlimitPath: Option<string>)

  /** The environment gates an argument of None defers to. */
  datatype Gates = Gates(maskRuntimeSockets: bool, clearenv: bool, rlimits: bool)

  const MINIMAL_JAIL_ENV := [
    Setting("PATH", "/usr/local/bin:/usr/bin:/bin"), Setting("LANG", "C.UTF-8"), Setting("LC_ALL", "C.UTF-8"),
    Setting("HOME", "/tmp"), Setting("TMPDIR", "/tmp"), Setting("PYTHONSAFEPATH", "1")]

  datatype Limits = Limits(asBytes: int, nproc: int, cpuSec: int, fsizeBytes: int)

  function Or(o: Option<bool>, gate: bool): bool { if o.Some? then o.value else gate }

  function Masks(g: Gates, q: Request): bool { Or(q.maskRuntimeSockets, g.maskRuntimeSockets) }

  function Clears(g: Gates, q: Request): bool { Or(q.clearenv, g.clearenv) }

  function Limited(g: Gates, q: Request): bool {
    match q.rlimits case ByGate => g.rlimits case Flag(on) => on case Overrides(m) => m != map[]
  }

  function LimitOf(q: Request, key: string, default: int): int {
    if q.rlimits.Overrides? && key in q.rlimits.values then q.rlimits.values[key] else default
  }

  function LimitsOf(q: Request): Limits {
    Limits(LimitOf(q, "as_bytes", 2 * 1024 * 1024 * 1024), LimitOf(q, "nproc", 256),
           LimitOf(q, "cpu_sec", 600), LimitOf(q, "fsize_bytes", 512 * 1024 * 1024))
  }

  // ------------------------------------------------------------- rendering

  /** One bwrap option with its operands. */
  datatype Opt = Opt(name: string, args: seq<string>)

  function Render(o: Opt): seq<string> { [o.name] + o.args }

  function RenderAll(os: seq<Opt>): seq<string> {
    if os == [] then [] else RenderAll(os[..|os| - 1]) + Render(os[|os| - 1])
  }

  const ISOLATION := [
    Opt("--unshare-net", []), Opt("--unshare-pid", []), Opt("--unshare-ipc", []), Opt("--unshare-uts", []),
    Opt("--unshare-cgroup-try", []), Opt("--die-with-parent", []), Opt("--new-session", []),
    Opt("--ro-bind", ["/", "/"])]

  const KERNEL_DIRS := [Opt("--proc", ["/proc"]), Opt("--dev", ["/dev"]), Opt("--tmpfs", ["/tmp"])]

  function SetEnvs(ss: seq<Setting>): (r: seq<Opt>)
    ensures |r| == |ss|
  {
    seq(|ss|, i requires 0 <= i < |ss| => Opt("--setenv", [ss[i].key, ss[i].value]))
  }

  function Each(name: string, ds: seq<string>): (r: seq<Opt>)
    ensures |r| == |ds|
  {
    seq(|ds|, i requires 0 <= i < |ds| => Opt(name, [ds[i]]))
  }

  function Writables(ds: seq<string>): (r: seq<Opt>)
    ensures |r| == |ds|
  {
    seq(|ds|, i requires 0 <= i < |ds| => Opt("--bind", [ds[i], ds[i]]))
  }

  function Readonlies(bs: seq<Bind>): (r: seq<Opt>)
    ensures |r| == |bs|
  {
    seq(|bs|, i requires 0 <= i < |bs| => Opt("--ro-bind", [bs[i].source, bs[i].destination]))
  }

  function EnvOptions(g: Gates, q: Request): seq<Opt> {
    if Clears(g, q) then [Opt("--clearenv", [])] + SetEnvs(MINIMAL_JAIL_ENV) + SetEnvs(q.extraEnv) else []
  }

  function MaskOptions(g: Gates, q: Request): seq<Opt> {
    (if Masks(g, q) then [Opt("--tmpfs", ["/run"])] else []) + Each("--tmpfs", q.maskedDirs) + KERNEL_DIRS
  }

  function DirOptions(q: Request): seq<Opt> {
    Each("--dir", q.emptyDirs) + Writables(q.writableDirs) + Readonlies(q.readonlyBinds)
  }

  function ChdirOptions(q: Request): seq<Opt> { if q.cwd.Some? then [Opt("--chdir", [q.cwd.value])] else [] }

  /** The options in argv order; a later mount shadows an earlier one. */
  function OptionsOf(g: Gates, q: Request): seq<Opt> {
    ISOLATION + EnvOptions(g, q) + MaskOptions(g, q) + DirOptions(q) + ChdirOptions(q)
  }

  function CommandWords(c: Command): seq<string> {
    match c case Shell(line) => ["sh", "-c", line] case Argv(words) => words
  }

  function LimitWords(prlimit: string, l: Limits): seq<string> {
    [prlimit, "--as=" + Decimal(l.asBytes), "--nproc=" + Decimal(l.nproc),
     "--cpu=" + Decimal(l.cpuSec), "--fsize=" + Decimal(l.fsizeBytes), "--"]
  }

  /** What follows the options: the limit prefix, when there is one, and the command. */
  function TailOf(g: Gates, q: Request): seq<string> {
    (if Limited(g, q) && q.prlimitPath.Some? then LimitWords(q.prlimitPath.value, LimitsOf(q)) else [])
    + CommandWords(q.command)
  }

  function ArgvOf(g: Gates, q: Request): seq<string> {
    [q.bwrapPath] + RenderAll(OptionsOf(g, q)) + TailOf(g, q)
  }

  /** Limits are asked for, but the caller has not resolved prlimit. */
  predicate LacksPrlimit(g: Gates, q: Request) {
    Limited(g, q) && (q.prlimitPath.None? || q.prlimitPath.value == "")
  }

  // ---------------------------------------------------------------- builder

  lemma {:induction false} RenderConcat(a: seq<Opt>, b: seq<Opt>)
    ensures RenderAll(a + b) == RenderAll(a) + RenderAll(b)
  {
    if b == [] {
      assert a + b == a;
    } else {
      assert (a + b)[..|a + b| - 1] == a + b[..|b| - 1];
      RenderConcat(a, b[..|b| - 1]);
    }
  }

  lemma RenderOne(a: seq<Opt>, o: Opt)
    ensures RenderAll(a + [o]) == RenderAll(a) + Render(o)
  {
    assert (a + [o])[..|a + [o]| - 1] == a;
  }

  lemma RenderNext(sofar: seq<Opt>, more: seq<Opt>, i: nat, words: seq<string>)
    requires i < |more| && words == RenderAll(sofar + more[..i])
    ensures words + [more[i].name] + more[i].args == RenderAll(sofar + more[..i + 1])
  {
    RenderOne(sofar + more[..i], more[i]);
    assert sofar + more[..i] + [more[i]] == sofar + more[..i + 1];
    assert words + [more[i].name] + more[i].args == words + Render(more[i]);
  }

  /** argv += [name, operands] for every listed option. */
  method Append(argv: seq<string>, ghost sofar: seq<Opt>, more: seq<Opt>) returns (r: seq<string>)
    requires argv == RenderAll(sofar)
    ensures r == RenderAll(sofar + more)
  {
    r := argv;
    assert sofar + more[..0] == sofar;
    for i := 0 to |more|
      invariant r == RenderAll(sofar + more[..i])
    {
      RenderNext(sofar, more, i, r);
      r := r + [more[i].name] + more[i].args;
    }
    assert more[..|more|] == more;
  }

  lemma Regroup(os: seq<Opt>, a: seq<Opt>, b: seq<Opt>, c: seq<Opt>)
    ensures os + (a + b + c) == os + a + b + c
  {
  }

  method AppendEnv(argv: seq<string>, ghost os: seq<Opt>, g: Gates, q: Request) returns (r: seq<string>)
    requires argv == RenderAll(os)
    ensures r == RenderAll(os + EnvOptions(g, q))
  {
    if !Clears(g, q) {
      assert os + [] == os;
      return argv;
    }
    var clear := [Opt("--clearenv", [])];
    r := Append(argv, os, clear);
    r := Append(r, os + clear, SetEnvs(MINIMAL_JAIL_ENV));
    r := Append(r, os + clear + SetEnvs(MINIMAL_JAIL_ENV), SetEnvs(q.extraEnv));
    Regroup(os, clear, SetEnvs(MINIMAL_JAIL_ENV), SetEnvs(q.extraEnv));
  }

  method AppendMasks(argv: seq<string>, ghost os: seq<Opt>, g: Gates, q: Request) returns (r: seq<string>)
    requires argv == RenderAll(os)
    ensures r == RenderAll(os + MaskOptions(g, q))
  {
    r := argv;
    ghost var run := if Masks(g, q) then [Opt("--tmpfs", ["/run"])] else [];
    assert os + [] == os;
    if Masks(g, q) { r := Append(r, os, [Opt("--tmpfs", ["/run"])]); }
    r := Append(r, os + run, Each("--tmpfs", q.maskedDirs));
    r := Append(r, os + run + Each("--tmpfs", q.maskedDirs), KERNEL_DIRS);
    Regroup(os, run, Each("--tmpfs", q.maskedDirs), KERNEL_DIRS);
  }

  method AppendDirs(argv: seq<string>, ghost os: seq<Opt>, q: Request) returns (r: seq<string>)
    requires argv == RenderAll(os)
    ensures r == RenderAll(os + DirOptions(q))
  {
    var empties, binds, ros := Each("--dir", q.emptyDirs), Writables(q.writableDirs), Readonlies(q.readonlyBinds);
    r := Append(argv, os, empties);
    r := Append(r, os + empties, binds);
    r := Append(r, os + empties + binds, ros);
    Regroup(os, empties, binds, ros);
  }

  /** None when limits are asked for without a resolved prlimit. */
  method BuildBwrapArgv(g: Gates, q: Request) returns (r: Option<seq<string>>)
    ensures r == if LacksPrlimit(g, q) then None else Some(ArgvOf(g, q))
  {
    var argv := Append([], [], ISOLATION);
    assert [] + ISOLATION == ISOLATION;
    argv := AppendEnv(argv, ISOLATION, g, q);
    argv := AppendMasks(argv, ISOLATION + EnvOptions(g, q), g, q);
    argv := AppendDirs(argv, ISOLATION + EnvOptions(g, q) + MaskOptions(g, q), q);
    ghost var os := ISOLATION + EnvOptions(g, q) + MaskOptions(g, q) + DirOptions(q);
    assert os + [] == os;
    if q.cwd.Some? { argv := Append(argv, os, [Opt("--chdir", [q.cwd.value])]); }
    argv := [q.bwrapPath] + argv;
    var tail: seq<string> := [];
    if Limited(g, q) {
      if q.prlimitPath.None? || q.prlimitPath.value == "" { return None; }
      tail := LimitWords(q.prlimitPath.value, LimitsOf(q));
    }
    tail := tail + CommandWords(q.command);
    r := Some(argv + tail);
  }

  // ----------------------------------------------------------------- reader

  predicate IsOptionToken(s: string) { s != "" && s[0] == '-' }

  /**
   Left to right: each option takes its operands unread; the first word that is not
   an option starts the command.  `arity` says how many operands an option takes.
   */
  function ReadOptions(arity: string -> Option<nat>, words: seq<string>): Option<(seq<Opt>, seq<string>)> {
    if words == [] || !IsOptionToken(words[0]) then Some(([], words))
    else if IsEndMark(words[0]) then Some(([], words[1..]))
    else match arity(words[0])
         case None => None
         case Some(n) =>
           if |words| < n + 1 then None
           else Prepend([Opt(words[0], words[1..n + 1])], ReadOptions(arity, words[n + 1..]))
  }

  function Prepend(os: seq<Opt>, r: Option<(seq<Opt>, seq<string>)>): Option<(seq<Opt>, seq<string>)> {
    if r.None? then None else Some((os + r.value.0, r.value.1))
  }

  lemma PrependTwice(a: seq<Opt>, b: seq<Opt>, r: Option<(seq<Opt>, seq<string>)>)
    ensures Prepend(a, Prepend(b, r)) == Prepend(a + b, r)
    ensures Prepend([], r) == r
  {
    if r.Some? {
      assert a + (b + r.value.0) == a + b + r.value.0;
      assert [] + r.value.0 == r.value.0;
    }
  }

  predicate IsEndMark(s: string) { |s| == 2 && s[0] == '-' && s[1] == '-' }

  predicate Known(arity: string -> Option<nat>, o: Opt) {
    IsOptionToken(o.name) && !IsEndMark(o.name) && arity(o.name) == Some(|o.args|)
  }

  /** Rendered from the left, as a reader meets them. */
  lemma {:induction false} RenderFirst(os: seq<Opt>)
    requires os != []
    ensures RenderAll(os) == Render(os[0]) + RenderAll(os[1..])
  {
    assert os == [os[0]] + os[1..];
    RenderConcat([os[0]], os[1..]);
    RenderOne([], os[0]);
    assert [] + [os[0]] == [os[0]];
  }

  lemma ReadOne(arity: string -> Option<nat>, o: Opt, after: seq<string>)
    requires Known(arity, o)
    ensures ReadOptions(arity, Render(o) + after) == Prepend([o], ReadOptions(arity, after))
  {
    var words := Render(o) + after;
    assert words[1..|o.args| + 1] == o.args && words[|o.args| + 1..] == after;
  }

  /** No operand, whatever its text, is ever read as an option. */
  lemma {:induction false} ReadBackOptions(arity: string -> Option<nat>, os: seq<Opt>, tail: seq<string>)
    requires forall i :: 0 <= i < |os| ==> Known(arity, os[i])
    ensures ReadOptions(arity, RenderAll(os) + tail) == Prepend(os, ReadOptions(arity, tail))
  {
    if os == [] {
      assert RenderAll(os) + tail == tail;
      PrependTwice(os, os, ReadOptions(arity, tail));
    } else {
      RenderFirst(os);
      assert RenderAll(os) + tail == Render(os[0]) + (RenderAll(os[1..]) + tail);
      ReadOne(arity, os[0], RenderAll(os[1..]) + tail);
      ReadBackOptions(arity, os[1..], tail);
      PrependTwice([os[0]], os[1..], ReadOptions(arity, tail));
      assert [os[0]] + os[1..] == os;
    }
  }

  lemma {:induction false} ReadShrinks(arity: string -> Option<nat>, words: seq<string>)
    ensures match ReadOptions(arity, words)
            case None => true
            case Some((os, rest)) => |rest| <= |words| && (words != [] && IsOptionToken(words[0]) ==> |rest| < |words|)
    decreases |words|
  {
    if words != [] && IsOptionToken(words[0]) && !IsEndMark(words[0]) && arity(words[0]).Some? {
      var n := arity(words[0]).value;
      if |words| >= n + 1 { ReadShrinks(arity, words[n + 1..]); }
    }
  }
}
