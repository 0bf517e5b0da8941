/**
 * The command-line configuration layer of pkg/validators.go.
 *
 * `ScanConfig` is the record the Go methods update in place; its int fields
 * hold `Unset` (-1) until a flag sets them and `port` is `None` (Go's nil)
 * until a port flag is accepted.  Each method is specified by a function on
 * the record's value (`Settings`) giving the new value and the error, and the
 * properties the source promises are lemmas about those functions.
 *
 * net.ParseIP is a library call outside this model: the IP test is the
 * parameter `isIp`.
 */
module Validators {
  import opened Wrappers
  import opened Errors
  import opened GoText
  import opened Types
  import opened Ports

  /** The value of a ScanConfig record. */
  datatype Settings = Settings(
    addr: string,
    port: Option<seq<int>>,
    protocol: int,
    displayType: int,
    maxWorkers: int,
    fileName: string)

  /** The record ValidateArgs starts from. */
  const Initial: Settings := Settings("", None, Unset, Unset, Unset, "")

  /** The record after an operation, and the error it returned. */
  datatype Step = Step(cfg: Settings, outcome: Outcome)

  /** validateIp */
  function IpStep(c: Settings, ip: string, isIp: string -> bool): Step
  {
    if !isIp(ip) then Step(c, Fail(InvalidIp)) else Step(c.(addr := ip), Pass)
  }

  /** validatePort */
  function PortStep(c: Settings, ports: string): Step
  {
    if c.port.Some? then Step(c, Fail(PortsAlreadySelected))
    else
      match ParsePorts(ports)
      case Ok(ps) => Step(c.(port := Some(ps)), Pass)
      case Err(e) => Step(c, Fail(e))
  }

  /** validateProtocol: an unrecognised text is accepted and changes nothing. */
  function ProtocolStep(c: Settings, prot: string): Step
  {
    if c.protocol != Unset then Step(c, Fail(MultipleProtocols))
    else if prot == "-tcp" then Step(c.(protocol := Tcp.Code()), Pass)
    else if prot == "-udp" then Step(c.(protocol := Udp.Code()), Pass)
    else if prot == "-s" then Step(c.(protocol := Stealth.Code()), Pass)
    else Step(c, Pass)
  }

  /**
   * validateOutputType, whose file name is a variadic argument: "-f" sets
   * WriteFile before it looks at the name, so a missing name is an error
   * that leaves WriteFile behind.
   */
  function OutputStep(c: Settings, flag: string, filename: seq<string>): Step
  {
    if c.displayType != Unset then Step(c, Fail(MultipleOutputs))
    else if flag == "-o" then Step(c.(displayType := OpenConsole.Code()), Pass)
    else if flag == "-a" then Step(c.(displayType := AllConsole.Code()), Pass)
    else if flag == "-f" then
      var toFile := c.(displayType := WriteFile.Code());
      if |filename| == 0 || filename[0] == "" then Step(toFile, Fail(MissingFileName))
      else Step(toFile.(fileName := filename[0]), Pass)
    else Step(c, Pass)
  }

  /** SetWorkerCount: any integer Atoi accepts is stored as it is. */
  function WorkerStep(c: Settings, worker: string): Step
  {
    if c.maxWorkers != Unset then Step(c, Fail(MultipleWorkers))
    else
      match Atoi(worker)
      case None => Step(c, Fail(InvalidWorkerCount))
      case Some(n) => Step(c.(maxWorkers := n), Pass)
  }

  /** scanConfigSanityCheck: defaults for everything unset, workers clamped. */
  function SanityStep(c: Settings): Step
  {
    if c.addr == "" then Step(c, Fail(SanityAddr))
    else
      var filled := if c.port.None? then PortStep(c, AllPortsText) else Step(c, Pass);
      if filled.outcome.Fail? then Step(c, Fail(SanityPort))
      else
        var d := filled.cfg;
        var w := if d.maxWorkers <= 0 then 10 else d.maxWorkers;
        Step(d.(protocol := if d.protocol == Unset then Tcp.Code() else d.protocol,
                displayType := if d.displayType == Unset then AllConsole.Code() else d.displayType,
                maxWorkers := if w >= 101 then 100 else w),
             Pass)
  }

  /** The cases of ValidateArgs's switch on a lowered flag. */
  datatype FlagKind = PortFlag | ProtocolFlag | OutputFlag | FileFlag | WorkerFlag | NotAFlag

  function KindOf(flag: string): FlagKind
  {
    if flag == "-p" then PortFlag
    else if flag == "-tcp" || flag == "-udp" || flag == "-s" then ProtocolFlag
    else if flag == "-o" || flag == "-a" then OutputFlag
    else if flag == "-f" then FileFlag
    else if flag == "-w" then WorkerFlag
    else NotAFlag
  }

  /** The flags that take the next argument as their value. */
  predicate TakesValue(k: FlagKind)
  {
    k == PortFlag || k == FileFlag || k == WorkerFlag
  }

  /** The error for a valued flag with nothing after it. */
  function MissingValue(k: FlagKind): ConfigError
  {
    match k
    case PortFlag => MissingPortValue
    case FileFlag => MissingFileValue
    case _ => MissingWorkerValue
  }

  /**
   * One case of the switch: `flag` is the argument as typed, `value` the
   * argument after it.  "-f" hands the flag to validateOutputType as typed,
   * not lowered; the other flags without a value hand it over lowered and
   * trimmed.
   */
  function FlagStep(k: FlagKind, c: Settings, flag: string, value: string): Step
  {
    match k
    case PortFlag => PortStep(c, value)
    case ProtocolFlag => ProtocolStep(c, TrimSpace(Lower(flag)))
    case OutputFlag => OutputStep(c, TrimSpace(Lower(flag)), [])
    case FileFlag => OutputStep(c, flag, [TrimSpace(Lower(value))])
    case WorkerFlag => WorkerStep(c, value)
    case NotAFlag => Step(c, Fail(UnknownFlag))
  }

  /**
   * ValidateArgs's flag loop over the arguments after the address, stopping
   * at the first error: a valued flag consumes the next argument too.
   */
  function FlagsStep(rest: seq<string>, c: Settings): Step
    decreases |rest|
  {
    if rest == [] then Step(c, Pass)
    else
      var k := KindOf(Lower(rest[0]));
      if TakesValue(k) && |rest| < 2 then Step(c, Fail(MissingValue(k)))
      else
        var s := FlagStep(k, c, rest[0], if TakesValue(k) then rest[1] else "");
        if s.outcome.Fail? then s
        else FlagsStep(rest[if TakesValue(k) then 2 else 1..], s.cfg)
  }

  /** ValidateArgs: the address, then the flags, then the sanity check. */
  function ArgsStep(args: seq<string>, isIp: string -> bool): Step
    requires |args| >= 1
  {
    var s0 := IpStep(Initial, args[0], isIp);
    if s0.outcome.Fail? then s0
    else
      var s1 := FlagsStep(args[1..], s0.cfg);
      if s1.outcome.Fail? then s1 else SanityStep(s1.cfg)
  }

  class ScanConfig {
    var addr: string
    var port: Option<seq<int>>
    var protocol: int
    var displayType: int
    var maxWorkers: int
    var fileName: string

    function Snapshot(): Settings
      reads this
    {
      Settings(addr, port, protocol, displayType, maxWorkers, fileName)
    }

    /** The literal ValidateArgs starts from: nothing chosen yet. */
    constructor ()
      ensures Snapshot() == Initial
    {
      addr := "";
      port := None;
      protocol := Unset;
      displayType := Unset;
      fileName := "";
      maxWorkers := Unset;
    }

    method ValidateIp(ip: string, isIp: string -> bool) returns (err: Outcome)
      modifies this
      ensures Snapshot() == IpStep(old(Snapshot()), ip, isIp).cfg
      ensures err == IpStep(old(Snapshot()), ip, isIp).outcome
    {
      if !isIp(ip) {
        return Fail(InvalidIp);
      }
      addr := ip;
      return Pass;
    }

    method ValidatePort(ports: string) returns (err: Outcome)
      modifies this
      ensures Snapshot() == PortStep(old(Snapshot()), ports).cfg
      ensures err == PortStep(old(Snapshot()), ports).outcome
    {
      if port.Some? {
        return Fail(PortsAlreadySelected);
      }
      if '-' in ports {
        var parts := Split(ports, '-');
        if |parts| != 2 {
          return Fail(InvalidRangeSyntax);
        }
        var r := MakePortRange(parts);
        if r.Err? {
          return Fail(r.error);
        }
        port := Some(r.value);
      } else {
        var parts := Split(ports, ',');
        var r := MakePortList(parts);
        if r.Err? {
          return Fail(r.error);
        }
        port := Some(r.value);
      }
      return Pass;
    }

    method ValidateProtocol(prot: string) returns (err: Outcome)
      modifies this
      ensures Snapshot() == ProtocolStep(old(Snapshot()), prot).cfg
      ensures err == ProtocolStep(old(Snapshot()), prot).outcome
    {
      if protocol != Unset {
        return Fail(MultipleProtocols);
      }
      if prot == "-tcp" {
        protocol := Tcp.Code();
      } else if prot == "-udp" {
        protocol := Udp.Code();
      } else if prot == "-s" {
        protocol := Stealth.Code();
      }
      return Pass;
    }

    method ValidateOutputType(flag: string, filename: seq<string>) returns (err: Outcome)
      modifies this
      ensures Snapshot() == OutputStep(old(Snapshot()), flag, filename).cfg
      ensures err == OutputStep(old(Snapshot()), flag, filename).outcome
    {
      if displayType != Unset {
        return Fail(MultipleOutputs);
      }
      if flag == "-o" {
        displayType := OpenConsole.Code();
      } else if flag == "-a" {
        displayType := AllConsole.Code();
      } else if flag == "-f" {
        displayType := WriteFile.Code();
        if |filename| == 0 || filename[0] == "" {
          return Fail(MissingFileName);
        }
        fileName := filename[0];
      }
      return Pass;
    }

    method SetWorkerCount(worker: string) returns (err: Outcome)
      modifies this
      ensures Snapshot() == WorkerStep(old(Snapshot()), worker).cfg
      ensures err == WorkerStep(old(Snapshot()), worker).outcome
    {
      if maxWorkers != Unset {
        return Fail(MultipleWorkers);
      }
      var n := Atoi(worker);
      if n.None? {
        return Fail(InvalidWorkerCount);
      }
      maxWorkers := n.value;
      return Pass;
    }

    /**
     * The body of ValidateArgs's switch for a known flag: `flag` as typed,
     * `value` the argument after it when the flag takes one.
     */
    method ApplyFlag(k: FlagKind, flag: string, value: string) returns (err: Outcome)
      modifies this
      ensures Snapshot() == FlagStep(k, old(Snapshot()), flag, value).cfg
      ensures err == FlagStep(k, old(Snapshot()), flag, value).outcome
    {
      match k
      case PortFlag =>
        err := ValidatePort(value);
      case ProtocolFlag =>
        err := ValidateProtocol(TrimSpace(Lower(flag)));
      case OutputFlag =>
        err := ValidateOutputType(TrimSpace(Lower(flag)), []);
      case FileFlag =>
        err := ValidateOutputType(flag, [TrimSpace(Lower(value))]);
      case WorkerFlag =>
        err := SetWorkerCount(value);
      case NotAFlag =>
        err := Fail(UnknownFlag);
    }

    method SanityCheck() returns (err: Outcome)
      modifies this
      ensures Snapshot() == SanityStep(old(Snapshot())).cfg
      ensures err == SanityStep(old(Snapshot())).outcome
    {
      if addr == "" {
        return Fail(SanityAddr);
      }
      if port.None? {
        var e := ValidatePort(AllPortsText);
        if e.Fail? {
          return Fail(SanityPort);
        }
      }
      if protocol == Unset {
        protocol := Tcp.Code();
      }
      if displayType == Unset {
        displayType := AllConsole.Code();
      }
      if maxWorkers <= 0 {
        maxWorkers := 10;
      }
      if maxWorkers >= 101 {
        maxWorkers := 100;
      }
      return Pass;
    }
  }

  /**
   * ValidateArgs: the first argument must be an IP address; the rest are
   * flags, walked left to right with the index advanced past each value.
   * The test for a missing value, which each of the "-p", "-f" and "-w"
   * cases makes first, is made once before the case body runs.  The record
   * is returned on errors too, as far as it got.
   */
  method ValidateArgs(args: seq<string>, isIp: string -> bool) returns (scan: ScanConfig, err: Outcome)
    requires |args| >= 1
    ensures fresh(scan)
    ensures scan.Snapshot() == ArgsStep(args, isIp).cfg
    ensures err == ArgsStep(args, isIp).outcome
  {
    scan := new ScanConfig();
    err := scan.ValidateIp(args[0], isIp);
    if err.Fail? {
      return;
    }
    ghost var afterIp := scan.Snapshot();
    var i := 1;
    while i < |args|
      invariant 1 <= i <= |args|
      invariant FlagsStep(args[1..], afterIp) == FlagsStep(args[i..], scan.Snapshot())
      decreases |args| - i
    {
      ghost var rest := args[i..];
      assert rest[0] == args[i] && rest[1..] == args[i + 1..];
      assert i + 1 < |args| ==> rest[1] == args[i + 1] && rest[2..] == args[i + 2..];
      var kind := KindOf(Lower(args[i]));
      if TakesValue(kind) && i + 1 > |args| - 1 {
        return scan, Fail(MissingValue(kind));
      }
      var value := if TakesValue(kind) then args[i + 1] else "";
      err := scan.ApplyFlag(kind, args[i], value);
      if err.Fail? {
        return;
      }
      i := i + if TakesValue(kind) then 2 else 1;
    }
    assert args[i..] == [];
    err := scan.SanityCheck();
  }

  /** A record every operation keeps: ports valid when set, enum fields unset or a code. */
  predicate Shaped(c: Settings)
  {
    (c.port.None? || ValidPortList(c.port.value))
    && (c.protocol == Unset || ProtocolOf(c.protocol).Some?)
    && (c.displayType == Unset || DisplayTypeOf(c.displayType).Some?)
  }

  /** What a configuration that ValidateArgs accepts looks like. */
  predicate Sane(c: Settings)
  {
    c.addr != ""
    && c.port.Some? && ValidPortList(c.port.value)
    && ProtocolOf(c.protocol).Some?
    && DisplayTypeOf(c.displayType).Some?
    && 1 <= c.maxWorkers <= 100
  }

  /** The argument shapes the flag loop gets through: known flags, each valued flag followed by its value. */
  predicate FlagGrammar(rest: seq<string>)
    decreases |rest|
  {
    rest == [] ||
    var k := KindOf(Lower(rest[0]));
    k != NotAFlag && if TakesValue(k) then |rest| >= 2 && FlagGrammar(rest[2..]) else FlagGrammar(rest[1..])
  }

  /**
   * validatePort is one-shot, and its errors leave the record as it was;
   * otherwise it stores exactly what the specification parses to, a
   * non-empty list of distinct ports.
   */
  lemma PortStepMeaning(c: Settings, ports: string)
    ensures c.port.Some? ==> PortStep(c, ports) == Step(c, Fail(PortsAlreadySelected))
    ensures c.port.None? ==> (PortStep(c, ports).outcome.Pass? <==> ParsePorts(ports).Ok?)
    ensures PortStep(c, ports).outcome.Fail? ==> PortStep(c, ports).cfg == c
    ensures PortStep(c, ports).outcome.Pass? ==>
      PortStep(c, ports).cfg == c.(port := PortStep(c, ports).cfg.port)
      && PortStep(c, ports).cfg.port == Some(ParsePorts(ports).value)
      && ValidPortList(ParsePorts(ports).value)
  {
  }

  /**
   * Each setter refuses a second use once it has chosen a value: ports once
   * accepted, a protocol flag, an output flag (even a "-f" that failed for
   * want of a name), and a worker count other than -1.
   */
  lemma SettersAreOneShot(c: Settings, a: string, b: string, name: seq<string>, name2: seq<string>)
    ensures PortStep(c, a).outcome.Pass? ==>
      PortStep(PortStep(c, a).cfg, b) == Step(PortStep(c, a).cfg, Fail(PortsAlreadySelected))
    ensures c.protocol == Unset && (a == "-tcp" || a == "-udp" || a == "-s") ==>
      ProtocolStep(ProtocolStep(c, a).cfg, b) == Step(ProtocolStep(c, a).cfg, Fail(MultipleProtocols))
    ensures c.displayType == Unset && (a == "-o" || a == "-a" || a == "-f") ==>
      OutputStep(OutputStep(c, a, name).cfg, b, name2) == Step(OutputStep(c, a, name).cfg, Fail(MultipleOutputs))
    ensures WorkerStep(c, a).outcome.Pass? && WorkerStep(c, a).cfg.maxWorkers != Unset ==>
      WorkerStep(WorkerStep(c, a).cfg, b) == Step(WorkerStep(c, a).cfg, Fail(MultipleWorkers))
  {
  }

  /**
   * An error from a setter leaves the record as it was, with one exception:
   * "-f" without a name has already recorded WriteFile.
   */
  lemma FailuresChangeNothing(c: Settings, a: string, name: seq<string>)
    ensures PortStep(c, a).outcome.Fail? ==> PortStep(c, a).cfg == c
    ensures ProtocolStep(c, a).outcome.Fail? ==> ProtocolStep(c, a).cfg == c
    ensures WorkerStep(c, a).outcome.Fail? ==> WorkerStep(c, a).cfg == c
    ensures OutputStep(c, a, name).outcome.Fail? ==>
      OutputStep(c, a, name).cfg == c
      || (a == "-f" && OutputStep(c, a, name).cfg == c.(displayType := WriteFile.Code()))
  {
  }

  /**
   * validateProtocol records the protocol its flag names; any other text is
   * accepted and records nothing, so the field stays unset.
   */
  lemma ProtocolStepMeaning(c: Settings, prot: string)
    requires c.protocol == Unset
    ensures ProtocolStep(c, prot).outcome == Pass
    ensures ProtocolStep(c, prot).cfg == c.(protocol := ProtocolStep(c, prot).cfg.protocol)
    ensures ProtocolStep(c, prot).cfg.protocol != Unset <==> prot == "-tcp" || prot == "-udp" || prot == "-s"
    ensures prot == "-tcp" ==> ProtocolOf(ProtocolStep(c, prot).cfg.protocol) == Some(Tcp)
    ensures prot == "-udp" ==> ProtocolOf(ProtocolStep(c, prot).cfg.protocol) == Some(Udp)
    ensures prot == "-s" ==> ProtocolOf(ProtocolStep(c, prot).cfg.protocol) == Some(Stealth)
  {
  }

  /**
   * With no output type yet, "-o" and "-a" record OpenConsole and AllConsole
   * and change nothing else; any other text except "-f" is accepted and
   * changes nothing.
   */
  lemma OutputStepMeaning(c: Settings, flag: string, filename: seq<string>)
    requires c.displayType == Unset
    ensures flag == "-o" ==> OutputStep(c, flag, filename) == Step(c.(displayType := OpenConsole.Code()), Pass)
    ensures flag == "-a" ==> OutputStep(c, flag, filename) == Step(c.(displayType := AllConsole.Code()), Pass)
    ensures flag != "-o" && flag != "-a" && flag != "-f" ==> OutputStep(c, flag, filename) == Step(c, Pass)
  {
  }

  /**
   * The worker sentinel is also a worker count Atoi accepts: after "-w -1"
   * the field still reads as unset, so a second "-w" is accepted.
   */
  lemma WorkerSentinelReopens(c: Settings)
    requires c.maxWorkers == Unset
    ensures WorkerStep(c, "-1") == Step(c, Pass)
    ensures WorkerStep(WorkerStep(c, "-1").cfg, "5") == Step(c.(maxWorkers := 5), Pass)
  {
    AtoiItoa(-1);
    AtoiItoa(5);
    assert Itoa(-1) == "-1" && Itoa(5) == "5";
  }

  /**
   * SetWorkerCount stores any Go int written in decimal unchanged, 0 and
   * negatives included, and refuses text Atoi rejects without touching the
   * record.
   */
  lemma WorkerStepMeaning(c: Settings, n: int, worker: string)
    requires c.maxWorkers == Unset
    ensures IsInt64(n) ==> WorkerStep(c, Itoa(n)) == Step(c.(maxWorkers := n), Pass)
    ensures Atoi(worker).None? ==> WorkerStep(c, worker) == Step(c, Fail(InvalidWorkerCount))
  {
    if IsInt64(n) {
      AtoiItoa(n);
    }
  }

  /**
   * "-f" records WriteFile even when the name is missing or empty, and then
   * fails with the file name still unset; with a name it stores the name.
   */
  lemma FileFlagMeaning(c: Settings, filename: seq<string>)
    requires c.displayType == Unset
    ensures OutputStep(c, "-f", filename).cfg.displayType == WriteFile.Code()
    ensures (|filename| == 0 || filename[0] == "") <==> OutputStep(c, "-f", filename).outcome == Fail(MissingFileName)
    ensures OutputStep(c, "-f", filename).outcome.Fail? ==> OutputStep(c, "-f", filename).cfg.fileName == c.fileName
    ensures OutputStep(c, "-f", filename).outcome.Pass? ==> OutputStep(c, "-f", filename).cfg.fileName == filename[0]
  {
  }

  /**
   * The sanity check fails exactly when no address was recorded; otherwise
   * it fills in all 65536 ports, Tcp and AllConsole where unset, and clamps
   * the worker count into [1, 100] (10 for anything not positive).
   */
  lemma SanityStepMeaning(c: Settings)
    ensures SanityStep(c).outcome.Fail? <==> c.addr == ""
    ensures SanityStep(c).outcome.Fail? ==> SanityStep(c) == Step(c, Fail(SanityAddr))
    ensures SanityStep(c).outcome.Pass? ==>
      var d := SanityStep(c).cfg;
      d.addr == c.addr && d.fileName == c.fileName
      && d.port == (if c.port.None? then Some(Interval(0, MaxPort)) else c.port)
      && d.protocol == (if c.protocol == Unset then Tcp.Code() else c.protocol)
      && d.displayType == (if c.displayType == Unset then AllConsole.Code() else c.displayType)
      && d.maxWorkers == (if c.maxWorkers <= 0 then 10 else if c.maxWorkers >= 101 then 100 else c.maxWorkers)
      && 1 <= d.maxWorkers <= 100
    ensures c.port.None? ==> |Interval(0, MaxPort)| == 65536
  {
    AllPortsTextParses();
  }

  /** Every setter keeps the record's shape and leaves the address alone; an unknown flag fails. */
  lemma FlagStepKeepsShape(k: FlagKind, c: Settings, flag: string, value: string)
    requires Shaped(c)
    ensures Shaped(FlagStep(k, c, flag, value).cfg)
    ensures FlagStep(k, c, flag, value).cfg.addr == c.addr
    ensures k == NotAFlag ==> FlagStep(k, c, flag, value).outcome.Fail?
  {
    match k
    case PortFlag => PortStepMeaning(c, value);
    case ProtocolFlag =>
      var a := TrimSpace(Lower(flag));
      assert Shaped(ProtocolStep(c, a).cfg);
    case OutputFlag =>
      var a := TrimSpace(Lower(flag));
      assert Shaped(OutputStep(c, a, []).cfg);
    case FileFlag =>
      var name := [TrimSpace(Lower(value))];
      assert Shaped(OutputStep(c, flag, name).cfg);
    case WorkerFlag =>
    case NotAFlag =>
  }

  /** The flag loop keeps the record's shape and the address, and succeeds only on well-formed flags. */
  lemma {:induction false} FlagsStepKeepsShape(rest: seq<string>, c: Settings)
    requires Shaped(c)
    ensures Shaped(FlagsStep(rest, c).cfg)
    ensures FlagsStep(rest, c).cfg.addr == c.addr
    ensures FlagsStep(rest, c).outcome.Pass? ==> FlagGrammar(rest)
    decreases |rest|
  {
    if rest != [] {
      var k := KindOf(Lower(rest[0]));
      if !(TakesValue(k) && |rest| < 2) {
        var value := if TakesValue(k) then rest[1] else "";
        FlagStepKeepsShape(k, c, rest[0], value);
        var s := FlagStep(k, c, rest[0], value);
        if s.outcome.Pass? {
          FlagsStepKeepsShape(rest[if TakesValue(k) then 2 else 1..], s.cfg);
        }
      }
    }
  }

  /**
   * What ValidateArgs returns without error has passed the sanity check:
   * the address is the first argument and a valid IP, the ports are a
   * non-empty list of distinct ports, protocol and output type are codes,
   * 1 <= workers <= 100, and the flags were all known, each valued flag
   * followed by a value.
   */
  lemma ValidateArgsAccepted(args: seq<string>, isIp: string -> bool)
    requires |args| >= 1
    ensures ArgsStep(args, isIp).outcome.Pass? ==>
      Sane(ArgsStep(args, isIp).cfg)
      && ArgsStep(args, isIp).cfg.addr == args[0]
      && isIp(args[0])
      && FlagGrammar(args[1..])
  {
    var s0 := IpStep(Initial, args[0], isIp);
    if s0.outcome.Pass? {
      FlagsStepKeepsShape(args[1..], s0.cfg);
      var s1 := FlagsStep(args[1..], s0.cfg);
      if s1.outcome.Pass? {
        SanityStepMeaning(s1.cfg);
        if s1.cfg.port.None? {
          IntervalIsPortList(0, MaxPort);
        }
      }
    }
  }

  /** An address the IP test refuses ends validation with the initial record. */
  lemma ValidateArgsRejectsBadIp(args: seq<string>, isIp: string -> bool)
    requires |args| >= 1 && !isIp(args[0])
    ensures ArgsStep(args, isIp) == Step(Initial, Fail(InvalidIp))
  {
  }

  /**
   * Flags are matched without regard to ASCII case, except that "-f" is
   * passed on as typed.
   */
  lemma FlagCaseIgnoredExceptFile(x: string, y: string, tail: seq<string>, c: Settings)
    requires Lower(x) == Lower(y) && Lower(x) != "-f"
    ensures FlagsStep([x] + tail, c) == FlagsStep([y] + tail, c)
  {
    var k := KindOf(Lower(x));
    assert ([x] + tail)[1..] == tail == ([y] + tail)[1..];
    assert |tail| >= 1 ==> ([x] + tail)[2..] == tail[1..] == ([y] + tail)[2..];
    var value := if TakesValue(k) && |tail| >= 1 then tail[0] else "";
    assert FlagStep(k, c, x, value) == FlagStep(k, c, y, value);
  }

  /**
   * "-F name" reaches validateOutputType as "-F", which it does not know:
   * the output type and file name stay unset and no error is reported,
   * whereas "-f name" selects the file.
   */
  lemma UpperFileFlagIgnored(c: Settings, name: string)
    requires c.displayType == Unset
    requires TrimSpace(Lower(name)) != ""
    ensures FlagsStep(["-F", name], c) == Step(c, Pass)
    ensures FlagsStep(["-f", name], c)
      == Step(c.(displayType := WriteFile.Code(), fileName := TrimSpace(Lower(name))), Pass)
  {
    assert Lower("-F") == "-f";
    assert Lower("-f") == "-f";
    assert ["-F", name][2..] == [];
    assert ["-f", name][2..] == [];
  }
}
