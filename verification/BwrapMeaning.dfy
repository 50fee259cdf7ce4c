/** What an argv makes of the jail: mounts, environment, directory, limits, command. */
module BwrapMeaning {
  import opened Wrappers
  import opened Decimals
  import opened PathText
  import opened BwrapArgv

  datatype Mount =
    | HostMount(source: string, destination: string, writable: bool)
    | Fresh(destination: string)

  /** What one option contributes. */
  datatype Effect =
    | Mounts(m: Mount)
    | Sets(s: Setting)
    | ClearsEnv
    | MakesDir(d: string)
    | ChangesDir(d: string)
    | Isolates(flag: string)

  /** bwrap's own reading of an option it knows. */
  function EffectOf(o: Opt): Effect {
    if |o.args| == 2 then
      if o.name == "--setenv" then Sets(Setting(o.args[0], o.args[1]))
      else Mounts(HostMount(o.args[0], o.args[1], o.name == "--bind"))
    else if |o.args| == 1 then
      if o.name == "--dir" then MakesDir(o.args[0])
      else if o.name == "--chdir" then ChangesDir(o.args[0])
      else Mounts(Fresh(o.args[0]))
    else if o.name == "--clearenv" then ClearsEnv
    else Isolates(o.name)
  }

  function BwrapArity(name: string): Option<nat> {
    if name == "--tmpfs" || name == "--proc" || name == "--dev" || name == "--dir" || name == "--chdir" then Some(1)
    else if name == "--ro-bind" || name == "--bind" || name == "--setenv" then Some(2)
    else if || name == "--unshare-net" || name == "--unshare-pid" || name == "--unshare-ipc" || name == "--unshare-uts"
            || name == "--unshare-cgroup-try" || name == "--die-with-parent" || name == "--new-session"
            || name == "--clearenv" then Some(0)
    else None
  }

  function Effects(os: seq<Opt>): (r: seq<Effect>)
    ensures |r| == |os| && forall i :: 0 <= i < |os| ==> r[i] == EffectOf(os[i])
  {
    seq(|os|, i requires 0 <= i < |os| => EffectOf(os[i]))
  }

  /** The argv, read back. */
  datatype Jail = Jail(program: string, effects: seq<Effect>, limits: Option<Limits>, command: seq<string>)

  function After(prefix: string, word: string): Option<int> {
    if prefix <= word then ParseInt(word[|prefix|..]) else None
  }

  /** A prlimit prefix, read back: its four limits and the command it wraps. */
  function ReadLimits(words: seq<string>): Option<(Limits, seq<string>)> {
    if |words| < 6 || words[5] != "--" then None
    else
      var a, n := After("--as=", words[1]), After("--nproc=", words[2]);
      var c, f := After("--cpu=", words[3]), After("--fsize=", words[4]);
      if a.None? || n.None? || c.None? || f.None? then None
      else Some((Limits(a.value, n.value, c.value, f.value), words[6..]))
  }

  /** Read a whole argv; `limited` says whether the command was wrapped in prlimit. */
  function ReadArgv(argv: seq<string>, limited: bool): Option<Jail> {
    if argv == [] then None
    else
      match ReadOptions(BwrapArity, argv[1..])
      case None => None
      case Some((os, rest)) =>
        match ReadTail(rest, limited)
        case None => None
        case Some((limits, command)) => Some(Jail(argv[0], Effects(os), limits, command))
  }

  // ------------------------------------------------------------ what was asked

  function Map<A, B>(f: A -> B, xs: seq<A>): (r: seq<B>)
    ensures |r| == |xs| && forall i :: 0 <= i < |xs| ==> r[i] == f(xs[i])
  {
    seq(|xs|, i requires 0 <= i < |xs| => f(xs[i]))
  }

  const ISOLATED := [
    Isolates("--unshare-net"), Isolates("--unshare-pid"), Isolates("--unshare-ipc"), Isolates("--unshare-uts"),
    Isolates("--unshare-cgroup-try"), Isolates("--die-with-parent"), Isolates("--new-session"),
    Mounts(HostMount("/", "/", false))]

  function AskedEnv(g: Gates, q: Request): seq<Effect> {
    if Clears(g, q) then [ClearsEnv] + Map((s: Setting) => Sets(s), MINIMAL_JAIL_ENV + q.extraEnv) else []
  }

  /** Directories that are covered with an empty or synthetic file system. */
  function HiddenDirs(g: Gates, q: Request): seq<string> {
    (if Masks(g, q) then ["/run"] else []) + q.maskedDirs + ["/proc", "/dev", "/tmp"]
  }

  function AskedMasks(g: Gates, q: Request): seq<Effect> { Map((d: string) => Mounts(Fresh(d)), HiddenDirs(g, q)) }

  function AskedDirs(q: Request): seq<Effect> {
    Map((d: string) => MakesDir(d), q.emptyDirs)
    + Map((d: string) => Mounts(HostMount(d, d, true)), q.writableDirs)
    + Map((b: Bind) => Mounts(HostMount(b.source, b.destination, false)), q.readonlyBinds)
  }

  function Asked(g: Gates, q: Request): seq<Effect> {
    ISOLATED + AskedEnv(g, q) + AskedMasks(g, q) + AskedDirs(q) + AskedChdir(q)
  }

  function AskedChdir(q: Request): seq<Effect> { if q.cwd.Some? then [ChangesDir(q.cwd.value)] else [] }

  ghost predicate AllKnown(os: seq<Opt>) { forall i :: 0 <= i < |os| ==> Known(BwrapArity, os[i]) }

  lemma IsolationMeaning()
    ensures AllKnown(ISOLATION) && Effects(ISOLATION) == ISOLATED
  {
  }

  lemma EnvMeaning(g: Gates, q: Request)
    ensures AllKnown(EnvOptions(g, q)) && Effects(EnvOptions(g, q)) == AskedEnv(g, q)
  {
    if Clears(g, q) {
      var clear := [Opt("--clearenv", [])];
      SettingsMeaning(MINIMAL_JAIL_ENV);
      SettingsMeaning(q.extraEnv);
      EffectsConcat(clear, SetEnvs(MINIMAL_JAIL_ENV));
      EffectsConcat(clear + SetEnvs(MINIMAL_JAIL_ENV), SetEnvs(q.extraEnv));
      assert Effects(clear) == [ClearsEnv];
      assert [ClearsEnv] + Map((s: Setting) => Sets(s), MINIMAL_JAIL_ENV) + Map((s: Setting) => Sets(s), q.extraEnv)
          == [ClearsEnv] + Map((s: Setting) => Sets(s), MINIMAL_JAIL_ENV + q.extraEnv);
    }
  }

  lemma SettingsMeaning(ss: seq<Setting>)
    ensures AllKnown(SetEnvs(ss)) && Effects(SetEnvs(ss)) == Map((s: Setting) => Sets(s), ss)
  {
  }

  lemma MaskMeaning(g: Gates, q: Request)
    ensures AllKnown(MaskOptions(g, q)) && Effects(MaskOptions(g, q)) == AskedMasks(g, q)
  {
  }

  lemma DirMeaning(q: Request)
    ensures AllKnown(DirOptions(q)) && Effects(DirOptions(q)) == AskedDirs(q)
  {
  }

  lemma EffectsConcat(a: seq<Opt>, b: seq<Opt>)
    ensures Effects(a + b) == Effects(a) + Effects(b)
    ensures AllKnown(a) && AllKnown(b) ==> AllKnown(a + b)
  {
  }

  lemma {:induction false} OptionsMeaning(g: Gates, q: Request)
    ensures AllKnown(OptionsOf(g, q)) && Effects(OptionsOf(g, q)) == Asked(g, q)
  {
    IsolationMeaning();
    EnvMeaning(g, q);
    MaskMeaning(g, q);
    DirMeaning(q);
    EffectsConcat(ISOLATION, EnvOptions(g, q));
    EffectsConcat(ISOLATION + EnvOptions(g, q), MaskOptions(g, q));
    EffectsConcat(ISOLATION + EnvOptions(g, q) + MaskOptions(g, q), DirOptions(q));
    EffectsConcat(ISOLATION + EnvOptions(g, q) + MaskOptions(g, q) + DirOptions(q), ChdirOptions(q));
  }

  // ------------------------------------------------------------- round trip

  predicate StartsPlain(words: seq<string>) { words == [] || !IsOptionToken(words[0]) }

  function JailOf(g: Gates, q: Request): Jail {
    Jail(q.bwrapPath, Asked(g, q), if Limited(g, q) then Some(LimitsOf(q)) else None, CommandWords(q.command))
  }

  lemma AfterDecimal(prefix: string, i: int)
    ensures After(prefix, prefix + Decimal(i)) == Some(i)
  {
    ParseIntOfDecimal(i);
    assert (prefix + Decimal(i))[|prefix|..] == Decimal(i);
  }

  lemma LimitsReadBack(prlimit: string, l: Limits, command: seq<string>)
    ensures ReadLimits(LimitWords(prlimit, l) + command) == Some((l, command))
  {
    var words := LimitWords(prlimit, l) + command;
    AfterDecimal("--as=", l.asBytes);
    AfterDecimal("--nproc=", l.nproc);
    AfterDecimal("--cpu=", l.cpuSec);
    AfterDecimal("--fsize=", l.fsizeBytes);
    assert words[6..] == command;
  }

  lemma ReadLimitsLength(words: seq<string>)
    ensures ReadLimits(words).Some? ==> |ReadLimits(words).value.1| == |words| - 6
  {
  }

  /**
   The built argv reads back as exactly what was asked, for every path, value and
   limit, if and only if the first word after the options is not an option itself.
   */
  lemma ArgvRoundTrip(g: Gates, q: Request)
    requires !LacksPrlimit(g, q)
    ensures ReadArgv(ArgvOf(g, q), Limited(g, q)) == Some(JailOf(g, q)) <==> StartsPlain(TailOf(g, q))
  {
    var os, tail := OptionsOf(g, q), TailOf(g, q);
    assert ArgvOf(g, q)[1..] == RenderAll(os) + tail;
    OptionsMeaning(g, q);
    ReadBackOptions(BwrapArity, os, tail);
    if StartsPlain(tail) {
      assert os + [] == os;
      TailReadsBack(g, q);
    } else {
      ReadShrinks(BwrapArity, tail);
      if ReadOptions(BwrapArity, tail).Some? {
        ShorterTailDiffers(g, q, ReadOptions(BwrapArity, tail).value.1);
      }
    }
  }

  /** The part of the argv after the options, read. */
  function ReadTail(rest: seq<string>, limited: bool): Option<(Option<Limits>, seq<string>)> {
    if !limited then Some((None, rest))
    else match ReadLimits(rest) case None => None case Some((l, command)) => Some((Some(l), command))
  }

  lemma TailReadsBack(g: Gates, q: Request)
    requires !LacksPrlimit(g, q)
    ensures ReadTail(TailOf(g, q), Limited(g, q)) ==
            Some((if Limited(g, q) then Some(LimitsOf(q)) else None, CommandWords(q.command)))
  {
    if Limited(g, q) {
      LimitsReadBack(q.prlimitPath.value, LimitsOf(q), CommandWords(q.command));
    } else {
      assert TailOf(g, q) == CommandWords(q.command);
    }
  }

  lemma ShorterTailDiffers(g: Gates, q: Request, rest: seq<string>)
    requires !LacksPrlimit(g, q) && |rest| < |TailOf(g, q)|
    ensures ReadTail(rest, Limited(g, q)).Some? ==> ReadTail(rest, Limited(g, q)).value.1 != CommandWords(q.command)
  {
    ReadLimitsLength(rest);
  }

  /** When that first word is plain: a shell line always, a word list by its own first word. */
  lemma TailPlainness(g: Gates, q: Request)
    requires !LacksPrlimit(g, q)
    ensures StartsPlain(TailOf(g, q)) <==>
            if Limited(g, q) then !IsOptionToken(q.prlimitPath.value)
            else q.command.Shell? || StartsPlain(q.command.words)
  {
    if Limited(g, q) {
      assert TailOf(g, q)[0] == q.prlimitPath.value;
    } else {
      assert TailOf(g, q) == CommandWords(q.command);
    }
  }

  /** A request that asks for nothing but to run this word list. */
  function JustRun(words: seq<string>): Request {
    Request("bwrap", Argv(words), [], [], [], [], None, None, None, [], Flag(false), None)
  }

  /** For one, a word list that starts with an option token is never read back as the request. */
  lemma OptionWordMisread(g: Gates, args: seq<string>)
    ensures var q := JustRun(["--bind"] + args);
            ReadArgv(ArgvOf(g, q), Limited(g, q)) != Some(JailOf(g, q))
  {
    var q := JustRun(["--bind"] + args);
    ArgvRoundTrip(g, q);
    TailPlainness(g, q);
    assert q.command.words[0] == "--bind";
  }

  // ------------------------------------------------------------------ mounts

  /** A place in the jail or on the host: the components of an absolute path. */
  type Place = seq<string>

  function Meaningful(parts: seq<string>): Place {
    if parts == [] then []
    else (if parts[0] == "" || parts[0] == "." then [] else [parts[0]]) + Meaningful(parts[1..])
  }

  function Components(path: string): Place { Meaningful(Split(path, '/')) }

  /** A mount by the places that its operands denote. */
  datatype Layer =
    | HostLayer(source: Place, destination: Place, writable: bool)
    | FreshLayer(destination: Place)

  function Placed(m: Mount): Layer {
    match m
    case HostMount(s, d, w) => HostLayer(Components(s), Components(d), w)
    case Fresh(d) => FreshLayer(Components(d))
  }

  function Places(ds: seq<string>): (r: seq<Place>)
    ensures |r| == |ds| && forall i :: 0 <= i < |ds| ==> r[i] == Components(ds[i])
  {
    seq(|ds|, i requires 0 <= i < |ds| => Components(ds[i]))
  }

  predicate Covers(m: Layer, p: Place) { m.destination <= p }

  /** The last mount whose destination covers the place wins. */
  function Winner(ms: seq<Layer>, p: Place): Option<Layer> {
    if ms == [] then None
    else if Covers(ms[|ms| - 1], p) then Some(ms[|ms| - 1])
    else Winner(ms[..|ms| - 1], p)
  }

  datatype Content = Host(at: Place, writable: bool) | JailOnly | Nothing

  /** Where a bind of `source` at `destination` takes a place below the destination. */
  function Through(source: Place, destination: Place, p: Place): Place
    requires destination <= p
  {
    source + p[|destination|..]
  }

  function ContentAt(ms: seq<Layer>, p: Place): Content {
    match Winner(ms, p)
    case None => Nothing
    case Some(FreshLayer(_)) => JailOnly
    case Some(HostLayer(s, d, w)) => if d <= p then Host(Through(s, d, p), w) else Nothing
  }

  function LayersOf(es: seq<Effect>): seq<Layer> {
    if es == [] then []
    else LayersOf(es[..|es| - 1]) + if es[|es| - 1].Mounts? then [Placed(es[|es| - 1].m)] else []
  }

  /** What a jail built from an argv shows at a place. */
  function Shows(argv: seq<string>, limited: bool, p: Place): Content {
    match ReadArgv(argv, limited)
    case None => Nothing
    case Some(j) => ContentAt(LayersOf(j.effects), p)
  }

  // ------------------------------------------------- the documented contract

  predicate UnderAny(ds: seq<Place>, p: Place) { exists i :: 0 <= i < |ds| && ds[i] <= p }

  datatype PlacedBind = PlacedBind(source: Place, destination: Place)

  function PlacedBinds(bs: seq<Bind>): (r: seq<PlacedBind>)
    ensures |r| == |bs|
    ensures forall i :: 0 <= i < |bs| ==> r[i] == PlacedBind(Components(bs[i].source), Components(bs[i].destination))
  {
    seq(|bs|, i requires 0 <= i < |bs| => PlacedBind(Components(bs[i].source), Components(bs[i].destination)))
  }

  predicate UnderBind(bs: seq<PlacedBind>, p: Place) { exists i :: 0 <= i < |bs| && bs[i].destination <= p }

  /** The last read-only bind whose destination covers p. */
  function LastBind(bs: seq<PlacedBind>, p: Place): (b: PlacedBind)
    requires UnderBind(bs, p)
    ensures b in bs && b.destination <= p
  {
    assert !(bs[|bs| - 1].destination <= p) ==> UnderBind(bs[..|bs| - 1], p);
    if bs[|bs| - 1].destination <= p then bs[|bs| - 1] else LastBind(bs[..|bs| - 1], p)
  }

  predicate Hidden(g: Gates, q: Request, p: Place) { UnderAny(Places(HiddenDirs(g, q)), p) }

  /** What the requested directories show: the last read-only bind, else the writable directory itself. */
  function DirContent(ros: seq<PlacedBind>, writables: seq<Place>, p: Place): Content {
    if UnderBind(ros, p) then Host(Through(LastBind(ros, p).source, LastBind(ros, p).destination, p), false)
    else if UnderAny(writables, p) then Host(p, true)
    else Nothing
  }

  /**
   The contract in the program's own words: read-only binds first, else the writable
   directories, else the masks, else the host's root read-only.
   */
  function Documented(g: Gates, q: Request, p: Place): Content {
    var ros, writables := PlacedBinds(q.readonlyBinds), Places(q.writableDirs);
    if UnderBind(ros, p) || UnderAny(writables, p) then DirContent(ros, writables, p)
    else if Hidden(g, q, p) then JailOnly
    else Host(p, false)
  }

  lemma {:induction false} WinnerConcat(a: seq<Layer>, b: seq<Layer>, p: Place)
    ensures Winner(a + b, p) == if Winner(b, p).Some? then Winner(b, p) else Winner(a, p)
  {
    if b == [] {
      assert a + b == a;
    } else {
      assert (a + b)[..|a + b| - 1] == a + b[..|b| - 1];
      WinnerConcat(a, b[..|b| - 1], p);
    }
  }

  lemma {:induction false} MountsConcat(a: seq<Effect>, b: seq<Effect>)
    ensures LayersOf(a + b) == LayersOf(a) + LayersOf(b)
  {
    if b == [] {
      assert a + b == a;
    } else {
      assert (a + b)[..|a + b| - 1] == a + b[..|b| - 1];
      MountsConcat(a, b[..|b| - 1]);
    }
  }

  lemma {:induction false} NoMounts(es: seq<Effect>)
    requires forall i :: 0 <= i < |es| ==> !es[i].Mounts?
    ensures LayersOf(es) == []
  {
    if es != [] { NoMounts(es[..|es| - 1]); }
  }

  lemma {:induction false} AllMounts(es: seq<Effect>)
    requires forall i :: 0 <= i < |es| ==> es[i].Mounts?
    ensures |LayersOf(es)| == |es| && forall i :: 0 <= i < |es| ==> LayersOf(es)[i] == Placed(es[i].m)
  {
    if es != [] {
      var init, last := es[..|es| - 1], es[|es| - 1];
      AllMounts(init);
      var ms := LayersOf(init);
      assert LayersOf(es) == ms + [Placed(last.m)];
      forall i | 0 <= i < |es| ensures (ms + [Placed(last.m)])[i] == Placed(es[i].m) {
        if i < |init| { assert init[i] == es[i]; }
      }
    }
  }

  /** The index of the winning mount. */
  lemma {:induction false} WinnerIndex(ms: seq<Layer>, p: Place) returns (k: int)
    ensures if Winner(ms, p).None? then k == -1 else 0 <= k < |ms| && Winner(ms, p) == Some(ms[k]) && Covers(ms[k], p)
    ensures forall i :: k < i < |ms| ==> !Covers(ms[i], p)
  {
    if ms == [] {
      k := -1;
    } else if Covers(ms[|ms| - 1], p) {
      k := |ms| - 1;
    } else {
      k := WinnerIndex(ms[..|ms| - 1], p);
    }
  }

  lemma {:induction false} MaskedWinner(ds: seq<string>, p: Place)
    ensures var w := Winner(LayersOf(Map((d: string) => Mounts(Fresh(d)), ds)), p);
            (w.Some? <==> UnderAny(Places(ds), p)) && (w.Some? ==> w.value.FreshLayer?)
  {
    var es := Map((d: string) => Mounts(Fresh(d)), ds);
    AllMounts(es);
    var ms := LayersOf(es);
    assert forall i :: 0 <= i < |ds| ==> ms[i] == FreshLayer(Places(ds)[i]);
    var k := WinnerIndex(ms, p);
  }

  lemma {:induction false} WritableWinner(ds: seq<string>, p: Place)
    ensures var w := Winner(LayersOf(Map((d: string) => Mounts(HostMount(d, d, true)), ds)), p);
            && (w.Some? <==> UnderAny(Places(ds), p))
            && (w.Some? ==> && w.value.HostLayer? && w.value.writable
                            && w.value.source == w.value.destination && Covers(w.value, p))
  {
    var es := Map((d: string) => Mounts(HostMount(d, d, true)), ds);
    AllMounts(es);
    var ms := LayersOf(es);
    assert forall i :: 0 <= i < |ds| ==> ms[i] == HostLayer(Places(ds)[i], Places(ds)[i], true);
    var k := WinnerIndex(ms, p);
  }

  lemma {:induction false} ReadonlyWinner(bs: seq<Bind>, p: Place)
    ensures var w := Winner(LayersOf(Map((b: Bind) => Mounts(HostMount(b.source, b.destination, false)), bs)), p);
            var ros := PlacedBinds(bs);
            && (w.Some? <==> UnderBind(ros, p))
            && (w.Some? ==> w.value == HostLayer(LastBind(ros, p).source, LastBind(ros, p).destination, false))
  {
    var es := Map((b: Bind) => Mounts(HostMount(b.source, b.destination, false)), bs);
    AllMounts(es);
    var ms, ros := LayersOf(es), PlacedBinds(bs);
    assert forall i :: 0 <= i < |bs| ==> ms[i] == HostLayer(ros[i].source, ros[i].destination, false);
    LastCovering(ms, ros, p);
  }

  lemma LastCovering(ms: seq<Layer>, ros: seq<PlacedBind>, p: Place)
    requires |ms| == |ros|
    requires forall i :: 0 <= i < |ros| ==> ms[i] == HostLayer(ros[i].source, ros[i].destination, false)
    ensures var w := Winner(ms, p);
            && (w.Some? <==> UnderBind(ros, p))
            && (w.Some? ==> w.value == HostLayer(LastBind(ros, p).source, LastBind(ros, p).destination, false))
  {
    var k := WinnerIndex(ms, p);
    if k >= 0 {
      LastBindIndex(ros, p, k);
    } else {
      assert forall i :: 0 <= i < |ros| ==> !Covers(ms[i], p);
    }
  }

  lemma {:induction false} LastBindIndex(bs: seq<PlacedBind>, p: Place, k: nat)
    requires k < |bs| && bs[k].destination <= p
    requires forall i :: k < i < |bs| ==> !(bs[i].destination <= p)
    ensures UnderBind(bs, p) && LastBind(bs, p) == bs[k]
  {
    if k < |bs| - 1 {
      LastBindIndex(bs[..|bs| - 1], p, k);
    }
  }

  /** The root directory has no components. */
  lemma RootPlace()
    ensures Components("/") == []
  {
    assert "/" == ['/'] && ['/'][1..] == [];
    assert Split(['/'], '/') == [""] + Split([], '/');
    assert [""] + [""] == ["", ""] && ["", ""][1..] == [""] && [""][1..] == [];
  }

  /** The mounts of the request, group by group in argv order. */
  lemma AskedMounts(g: Gates, q: Request, p: Place)
    ensures ContentAt(LayersOf(Asked(g, q)), p) == Documented(g, q, p)
  {
    var base := ISOLATED + AskedEnv(g, q) + AskedMasks(g, q);
    BaseWinner(g, q, p);
    BindWinner(q, p);
    NoMounts(AskedChdir(q));
    ThreeGroups(base, AskedDirs(q), AskedChdir(q), p);
    Documents(g, q, p, LayersOf(base), LayersOf(AskedDirs(q)));
  }

  lemma Documents(g: Gates, q: Request, p: Place, base: seq<Layer>, dirs: seq<Layer>)
    requires ContentAt(base, p) == if Hidden(g, q, p) then JailOnly else Host(p, false)
    requires ContentAt(dirs, p) == DirContent(PlacedBinds(q.readonlyBinds), Places(q.writableDirs), p)
    requires Winner(dirs, p).Some? <==>
             UnderBind(PlacedBinds(q.readonlyBinds), p) || UnderAny(Places(q.writableDirs), p)
    ensures Documented(g, q, p) == if Winner(dirs, p).Some? then ContentAt(dirs, p) else ContentAt(base, p)
  {
  }

  /** A later group of mounts shadows an earlier one; a group without mounts changes nothing. */
  lemma ThreeGroups(base: seq<Effect>, dirs: seq<Effect>, rest: seq<Effect>, p: Place)
    requires LayersOf(rest) == []
    ensures ContentAt(LayersOf(base + dirs + rest), p) ==
            if Winner(LayersOf(dirs), p).Some? then ContentAt(LayersOf(dirs), p) else ContentAt(LayersOf(base), p)
  {
    MountsConcat(base, dirs);
    MountsConcat(base + dirs, rest);
    assert LayersOf(base + dirs + rest) == LayersOf(base) + LayersOf(dirs);
    WinnerConcat(LayersOf(base), LayersOf(dirs), p);
  }

  /** The directories: read-only binds shadow the writable ones, placeholders mount nothing. */
  lemma BindWinner(q: Request, p: Place)
    ensures ContentAt(LayersOf(AskedDirs(q)), p) == DirContent(PlacedBinds(q.readonlyBinds), Places(q.writableDirs), p)
    ensures Winner(LayersOf(AskedDirs(q)), p).Some? <==>
            UnderBind(PlacedBinds(q.readonlyBinds), p) || UnderAny(Places(q.writableDirs), p)
  {
    var made := Map((d: string) => MakesDir(d), q.emptyDirs);
    var writable := Map((d: string) => Mounts(HostMount(d, d, true)), q.writableDirs);
    var ro := Map((b: Bind) => Mounts(HostMount(b.source, b.destination, false)), q.readonlyBinds);
    NoMounts(made);
    MountsConcat(made, writable);
    MountsConcat(made + writable, ro);
    assert [] + LayersOf(writable) == LayersOf(writable);
    WritableWinner(q.writableDirs, p);
    ReadonlyWinner(q.readonlyBinds, p);
    OneShadows(LayersOf(writable), LayersOf(ro), PlacedBinds(q.readonlyBinds), Places(q.writableDirs), p);
  }

  lemma OneShadows(writable: seq<Layer>, ro: seq<Layer>, ros: seq<PlacedBind>, writables: seq<Place>, p: Place)
    requires Winner(ro, p).Some? <==> UnderBind(ros, p)
    requires UnderBind(ros, p) ==>
               Winner(ro, p).value == HostLayer(LastBind(ros, p).source, LastBind(ros, p).destination, false)
    requires Winner(writable, p).Some? <==> UnderAny(writables, p)
    requires Winner(writable, p).Some? ==>
               var w := Winner(writable, p).value;
               w.HostLayer? && w.writable && w.source == w.destination && Covers(w, p)
    ensures ContentAt(writable + ro, p) == DirContent(ros, writables, p)
    ensures Winner(writable + ro, p).Some? <==> UnderBind(ros, p) || UnderAny(writables, p)
  {
    WinnerConcat(writable, ro, p);
    if Winner(writable, p).Some? {
      var w := Winner(writable, p).value;
      assert w.source + p[|w.destination|..] == p;
    }
  }

  /** The root bind and the masks above it. */
  lemma BaseWinner(g: Gates, q: Request, p: Place)
    ensures ContentAt(LayersOf(ISOLATED + AskedEnv(g, q) + AskedMasks(g, q)), p) ==
            if Hidden(g, q, p) then JailOnly else Host(p, false)
  {
    NoMounts(AskedEnv(g, q));
    RootMounts();
    MaskedWinner(HiddenDirs(g, q), p);
    RootBelow(ISOLATED, AskedEnv(g, q), AskedMasks(g, q), p);
  }

  lemma RootBelow(root: seq<Effect>, env: seq<Effect>, masks: seq<Effect>, p: Place)
    requires LayersOf(root) == [HostLayer([], [], false)] && LayersOf(env) == []
    ensures ContentAt(LayersOf(root + env + masks), p) ==
            if Winner(LayersOf(masks), p).Some? then ContentAt(LayersOf(masks), p) else Host(p, false)
  {
    MountsConcat(root, env);
    MountsConcat(root + env, masks);
    assert LayersOf(root + env + masks) == [HostLayer([], [], false)] + LayersOf(masks);
    WinnerConcat([HostLayer([], [], false)], LayersOf(masks), p);
    assert [] + p[0..] == p;
  }

  lemma RootMounts()
    ensures LayersOf(ISOLATED) == [HostLayer([], [], false)]
  {
    RootPlace();
    NoMounts(ISOLATED[..7]);
    assert ISOLATED == ISOLATED[..7] + [ISOLATED[7]];
    MountsConcat(ISOLATED[..7], [ISOLATED[7]]);
  }

  /** The jail that the built argv sets up shows, at every place, what the contract documents. */
  lemma ArgvMeansContract(g: Gates, q: Request, p: Place)
    requires !LacksPrlimit(g, q) && StartsPlain(TailOf(g, q))
    ensures Shows(ArgvOf(g, q), Limited(g, q), p) == Documented(g, q, p)
  {
    ArgvRoundTrip(g, q);
    AskedMounts(g, q, p);
  }

  /**
   The only host-writable places lie under a writable directory and under no read-only
   bind, and they denote the same host place.
   */
  lemma HostWritableExactly(g: Gates, q: Request, p: Place)
    requires !LacksPrlimit(g, q) && StartsPlain(TailOf(g, q))
    ensures (exists h :: Shows(ArgvOf(g, q), Limited(g, q), p) == Host(h, true)) <==>
            UnderAny(Places(q.writableDirs), p) && !UnderBind(PlacedBinds(q.readonlyBinds), p)
    ensures UnderAny(Places(q.writableDirs), p) && !UnderBind(PlacedBinds(q.readonlyBinds), p) ==>
              Shows(ArgvOf(g, q), Limited(g, q), p) == Host(p, true)
  {
    ArgvMeansContract(g, q, p);
  }

  // ------------------------------------------------------ the settings, spelled out

  /** The sockets are masked: by the request, or by the gate when it does not say. */
  predicate AsksForMask(g: Gates, q: Request) {
    q.maskRuntimeSockets == Some(true) || (q.maskRuntimeSockets == None && g.maskRuntimeSockets)
  }

  /** Nothing below /run is the host's when the mask is asked for, unless a requested bind puts it there. */
  lemma {:induction false} MaskHidesRun(g: Gates, q: Request, p: Place)
    requires !LacksPrlimit(g, q) && StartsPlain(TailOf(g, q))
    requires AsksForMask(g, q) && ["run"] <= p
    requires !UnderAny(Places(q.writableDirs), p) && !UnderBind(PlacedBinds(q.readonlyBinds), p)
    ensures Shows(ArgvOf(g, q), Limited(g, q), p) == JailOnly
  {
    ArgvMeansContract(g, q, p);
    RunPlace();
    assert HiddenDirs(g, q)[0] == "/run" && Places(HiddenDirs(g, q))[0] == ["run"];
  }

  lemma RunPlace()
    ensures Components("/run") == ["run"]
  {
    var s := "/run";
    assert s[1..] == "run";
    SplitFree("run", '/');
    assert Split(s, '/') == [""] + Split("run", '/') == ["", "run"];
    assert ["", "run"][1..] == ["run"] && ["run"][1..] == [];
  }

  /** Without the mask it is the host's, read-only, as long as no other directory hides it. */
  lemma {:induction false} NoMaskShowsHost(g: Gates, q: Request, p: Place)
    requires !LacksPrlimit(g, q) && StartsPlain(TailOf(g, q)) && !AsksForMask(g, q)
    requires !UnderAny(Places(q.maskedDirs + ["/proc", "/dev", "/tmp"]), p)
    requires !UnderAny(Places(q.writableDirs), p) && !UnderBind(PlacedBinds(q.readonlyBinds), p)
    ensures Shows(ArgvOf(g, q), Limited(g, q), p) == Host(p, false)
  {
    ArgvMeansContract(g, q, p);
    assert HiddenDirs(g, q) == q.maskedDirs + ["/proc", "/dev", "/tmp"];
  }

  /** The settings that an argv makes, in order. */
  function SettingsIn(es: seq<Effect>): seq<Setting> {
    if es == [] then []
    else SettingsIn(es[..|es| - 1]) + if es[|es| - 1].Sets? then [es[|es| - 1].s] else []
  }

  predicate AsksToClear(g: Gates, q: Request) {
    q.clearenv == Some(true) || (q.clearenv == None && g.clearenv)
  }

  /** The environment is cleared exactly when that is asked for, and then holds the minimal and the extra settings. */
  lemma {:induction false} EnvironmentExactly(g: Gates, q: Request)
    requires !LacksPrlimit(g, q) && StartsPlain(TailOf(g, q))
    ensures var jail := ReadArgv(ArgvOf(g, q), Limited(g, q));
            && jail.Some? && (ClearsEnv in jail.value.effects <==> AsksToClear(g, q))
            && SettingsIn(jail.value.effects) == if AsksToClear(g, q) then MINIMAL_JAIL_ENV + q.extraEnv else []
  {
    ArgvRoundTrip(g, q);
    EnvSettings(g, q);
    AskedSettings(g, q);
  }

  predicate NoneSets(es: seq<Effect>) { forall i :: 0 <= i < |es| ==> !es[i].Sets? && !es[i].ClearsEnv? }

  lemma AskedSettings(g: Gates, q: Request)
    ensures SettingsIn(Asked(g, q)) == SettingsIn(AskedEnv(g, q))
    ensures ClearsEnv in Asked(g, q) <==> ClearsEnv in AskedEnv(g, q)
  {
    var rest := AskedMasks(g, q) + AskedDirs(q) + AskedChdir(q);
    assert Asked(g, q) == ISOLATED + AskedEnv(g, q) + rest;
    assert NoneSets(AskedMasks(g, q)) && NoneSets(AskedDirs(q)) && NoneSets(AskedChdir(q));
    assert NoneSets(ISOLATED);
    SettingsOfThree(ISOLATED, AskedEnv(g, q), rest);
  }

  lemma MinimalSettings()
    ensures |MINIMAL_JAIL_ENV| == 6
    ensures MINIMAL_JAIL_ENV[0] == Setting("PATH", "/usr/local/bin:/usr/bin:/bin")
    ensures MINIMAL_JAIL_ENV[1] == Setting("LANG", "C.UTF-8") && MINIMAL_JAIL_ENV[2] == Setting("LC_ALL", "C.UTF-8")
    ensures MINIMAL_JAIL_ENV[3] == Setting("HOME", "/tmp") && MINIMAL_JAIL_ENV[4] == Setting("TMPDIR", "/tmp")
    ensures MINIMAL_JAIL_ENV[5] == Setting("PYTHONSAFEPATH", "1")
  {
  }

  lemma EnvSettings(g: Gates, q: Request)
    ensures ClearsEnv in AskedEnv(g, q) <==> Clears(g, q)
    ensures SettingsIn(AskedEnv(g, q)) == if Clears(g, q) then MINIMAL_JAIL_ENV + q.extraEnv else []
  {
    if Clears(g, q) {
      var settings := Map((s: Setting) => Sets(s), MINIMAL_JAIL_ENV + q.extraEnv);
      NoSettings([ClearsEnv]);
      SettingsConcat([ClearsEnv], settings);
      AllSettings(settings, MINIMAL_JAIL_ENV + q.extraEnv);
      assert ([ClearsEnv] + settings)[0] == ClearsEnv;
    }
  }

  lemma SettingsOfThree(before: seq<Effect>, env: seq<Effect>, rest: seq<Effect>)
    requires NoneSets(before) && NoneSets(rest)
    ensures SettingsIn(before + env + rest) == SettingsIn(env)
    ensures ClearsEnv in before + env + rest <==> ClearsEnv in env
  {
    NoSettings(before);
    NoSettings(rest);
    SettingsConcat(before, env);
    SettingsConcat(before + env, rest);
  }

  lemma {:induction false} SettingsConcat(a: seq<Effect>, b: seq<Effect>)
    ensures SettingsIn(a + b) == SettingsIn(a) + SettingsIn(b)
  {
    if b == [] {
      assert a + b == a;
    } else {
      assert (a + b)[..|a + b| - 1] == a + b[..|b| - 1];
      SettingsConcat(a, b[..|b| - 1]);
    }
  }

  lemma {:induction false} NoSettings(es: seq<Effect>)
    requires forall i :: 0 <= i < |es| ==> !es[i].Sets?
    ensures SettingsIn(es) == []
  {
    if es != [] { NoSettings(es[..|es| - 1]); }
  }

  lemma {:induction false} AllSettings(es: seq<Effect>, ss: seq<Setting>)
    requires |es| == |ss| && forall i :: 0 <= i < |es| ==> es[i] == Sets(ss[i])
    ensures SettingsIn(es) == ss
  {
    if es != [] { AllSettings(es[..|es| - 1], ss[..|ss| - 1]); }
  }

  predicate AsksForLimits(g: Gates, q: Request) {
    q.rlimits == Flag(true) || (q.rlimits == ByGate && g.rlimits) || (q.rlimits.Overrides? && q.rlimits.values != map[])
  }

  /** What a limit key is set to: the override when there is one, else the default. */
  function Override(q: Request, key: string, default: int): int {
    match q.rlimits
    case Overrides(values) => if key in values then values[key] else default
    case _ => default
  }

  /** Program, command, limits and directory, as they read back. */
  lemma {:induction false} CommandExactly(g: Gates, q: Request)
    requires !LacksPrlimit(g, q) && StartsPlain(TailOf(g, q))
    ensures Limited(g, q) <==> AsksForLimits(g, q)
    ensures var jail := ReadArgv(ArgvOf(g, q), Limited(g, q));
            && jail.Some? && jail.value.program == q.bwrapPath
            && jail.value.command == (match q.command case Shell(line) => ["sh", "-c", line] case Argv(words) => words)
            && jail.value.limits ==
               (if !AsksForLimits(g, q) then None
                else Some(Limits(Override(q, "as_bytes", 2147483648), Override(q, "nproc", 256),
                                 Override(q, "cpu_sec", 600), Override(q, "fsize_bytes", 536870912))))
  {
    ArgvRoundTrip(g, q);
  }

  /** The seven flags, then the host's root read-only. */
  predicate StartsIsolated(es: seq<Effect>) {
    && |es| >= 8
    && es[0] == Isolates("--unshare-net") && es[1] == Isolates("--unshare-pid") && es[2] == Isolates("--unshare-ipc")
    && es[3] == Isolates("--unshare-uts") && es[4] == Isolates("--unshare-cgroup-try")
    && es[5] == Isolates("--die-with-parent") && es[6] == Isolates("--new-session")
    && es[7] == Mounts(HostMount("/", "/", false))
  }

  /** Whatever is asked for, the jail is isolated first. */
  lemma {:induction false} AlwaysIsolated(g: Gates, q: Request)
    requires !LacksPrlimit(g, q) && StartsPlain(TailOf(g, q))
    ensures var jail := ReadArgv(ArgvOf(g, q), Limited(g, q)); jail.Some? && StartsIsolated(jail.value.effects)
  {
    ArgvRoundTrip(g, q);
    AskedIsolated(g, q);
  }

  lemma AskedIsolated(g: Gates, q: Request)
    ensures StartsIsolated(Asked(g, q))
  {
    IsolatedSpelled();
    StillIsolated(ISOLATED, AskedEnv(g, q));
    StillIsolated(ISOLATED + AskedEnv(g, q), AskedMasks(g, q));
    StillIsolated(ISOLATED + AskedEnv(g, q) + AskedMasks(g, q), AskedDirs(q));
    StillIsolated(ISOLATED + AskedEnv(g, q) + AskedMasks(g, q) + AskedDirs(q), AskedChdir(q));
  }

  lemma IsolatedSpelled()
    ensures StartsIsolated(ISOLATED)
  {
  }

  lemma StillIsolated(es: seq<Effect>, rest: seq<Effect>)
    requires StartsIsolated(es)
    ensures StartsIsolated(es + rest)
  {
    forall i | 0 <= i < 8 ensures (es + rest)[i] == es[i] {}
  }

  /** The working directory and the empty directories are those of the request. */
  lemma {:induction false} DirectoriesExactly(g: Gates, q: Request, d: string)
    requires !LacksPrlimit(g, q) && StartsPlain(TailOf(g, q))
    ensures var jail := ReadArgv(ArgvOf(g, q), Limited(g, q));
            && jail.Some?
            && (ChangesDir(d) in jail.value.effects <==> q.cwd == Some(d))
            && (MakesDir(d) in jail.value.effects <==> d in q.emptyDirs)
  {
    ArgvRoundTrip(g, q);
    AskedDirsExactly(g, q, d);
  }

  lemma AskedDirsExactly(g: Gates, q: Request, d: string)
    ensures ChangesDir(d) in Asked(g, q) <==> q.cwd == Some(d)
    ensures MakesDir(d) in Asked(g, q) <==> d in q.emptyDirs
  {
    DirsAsked(q, d);
    var before, after := ISOLATED + AskedEnv(g, q) + AskedMasks(g, q), AskedDirs(q) + AskedChdir(q);
    assert NoDirs(ISOLATED) && NoDirs(AskedEnv(g, q)) && NoDirs(AskedMasks(g, q));
    NoDirsBefore(before, after, d);
    assert Asked(g, q) == before + after;
  }

  lemma NoDirsBefore(before: seq<Effect>, after: seq<Effect>, d: string)
    requires NoDirs(before)
    ensures ChangesDir(d) in before + after <==> ChangesDir(d) in after
    ensures MakesDir(d) in before + after <==> MakesDir(d) in after
  {
  }

  predicate NoDirs(es: seq<Effect>) { forall i :: 0 <= i < |es| ==> !es[i].ChangesDir? && !es[i].MakesDir? }

  lemma DirsAsked(q: Request, d: string)
    ensures ChangesDir(d) in AskedDirs(q) + AskedChdir(q) <==> q.cwd == Some(d)
    ensures MakesDir(d) in AskedDirs(q) + AskedChdir(q) <==> d in q.emptyDirs
  {
    var made := Map((x: string) => MakesDir(x), q.emptyDirs);
    var rest := AskedDirs(q)[|made|..];
    assert AskedDirs(q) == made + rest && NoDirs(rest);
    if d in q.emptyDirs {
      var i :| 0 <= i < |q.emptyDirs| && q.emptyDirs[i] == d;
      assert made[i] == MakesDir(d) && made[i] in made;
    }
    if q.cwd == Some(d) { assert AskedChdir(q)[0] == ChangesDir(d) && AskedChdir(q)[0] in AskedChdir(q); }
  }

  /** The builder refuses exactly when limits are asked for and prlimit is not given. */
  lemma RefusedExactly(g: Gates, q: Request)
    ensures LacksPrlimit(g, q) <==> AsksForLimits(g, q) && (q.prlimitPath == None || q.prlimitPath == Some(""))
  {
  }

  /** Host content below a hidden place is visible, anywhere in the jail, only through a requested bind. */
  lemma {:induction false} HiddenOnlyThroughBinds(g: Gates, q: Request, p: Place, h: Place, writable: bool)
    requires !LacksPrlimit(g, q) && StartsPlain(TailOf(g, q))
    requires Shows(ArgvOf(g, q), Limited(g, q), p) == Host(h, writable) && Hidden(g, q, h)
    ensures || (writable && h == p && UnderAny(Places(q.writableDirs), p))
            || (!writable && exists b :: && b in PlacedBinds(q.readonlyBinds) && b.destination <= p
                                         && h == Through(b.source, b.destination, p))
  {
    ArgvMeansContract(g, q, p);
  }
}
