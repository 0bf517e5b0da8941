/**
 * Port specifications, as `validatePort` reads them (pkg/validators.go,
 * lines 122-195): a range "a-b" or a comma list "a,b,c", each port in
 * [0, 65535].  `ParsePorts` is what the function computes besides its
 * "already selected" check; `MakePortRange` and `MakePortList` are the two
 * loops that build the list.
 */
module Ports {
  import opened Wrappers
  import opened Errors
  import opened GoText

  const MaxPort: int := 65535

  /** The text the sanity check parses when no port was given. */
  const AllPortsText: string := "0-65535"

  predicate ValidPortRange(n: int) { 0 <= n <= MaxPort }

  /** Atoi followed by the range test, the check applied to every piece. */
  function PortValue(s: string): Option<int>
  {
    match Atoi(s)
    case Some(n) => if ValidPortRange(n) then Some(n) else None
    case None => None
  }

  /** lo, lo + 1, ..., hi, in the order the range loop appends them. */
  function Interval(lo: int, hi: int): seq<int>
    decreases hi - lo
  {
    if hi < lo then [] else Interval(lo, hi - 1) + [hi]
  }

  predicate Distinct(ps: seq<int>)
  {
    forall i, j | 0 <= i < j < |ps| :: ps[i] != ps[j]
  }

  /** What every successful port specification yields. */
  predicate ValidPortList(ps: seq<int>)
  {
    |ps| > 0 && (forall i | 0 <= i < |ps| :: ValidPortRange(ps[i])) && Distinct(ps)
  }

  /** makePortRange: both bounds must be ports and the start not above the end. */
  function RangeFromParts(parts: seq<string>): (r: Parsed<seq<int>>)
    requires |parts| == 2
    ensures r.Ok? <==> PortValue(parts[0]).Some? && PortValue(parts[1]).Some?
                       && PortValue(parts[0]).value <= PortValue(parts[1]).value
    ensures r.Ok? ==> ValidPortList(r.value)
    ensures r.Err? ==> r.error == InvalidPortValue || r.error == StartAfterEnd
  {
    match PortValue(parts[0])
    case None => Err(InvalidPortValue)
    case Some(lo) =>
      match PortValue(parts[1])
      case None => Err(InvalidPortValue)
      case Some(hi) =>
        if lo > hi then Err(StartAfterEnd)
        else
          IntervalIsPortList(lo, hi);
          Ok(Interval(lo, hi))
  }

  /**
   * makePortList's loop, read left to right: the first piece that is not a
   * port, or that repeats an earlier one, decides the error.
   */
  function ScanList(parts: seq<string>): (r: Parsed<seq<int>>)
    ensures r.Ok? ==>
      |r.value| == |parts| && (forall i | 0 <= i < |r.value| :: ValidPortRange(r.value[i])) && Distinct(r.value)
    ensures r.Err? ==> r.error == InvalidPortValue || r.error == DuplicatePort
    decreases |parts|
  {
    if parts == [] then Ok([])
    else
      match ScanList(parts[..|parts| - 1])
      case Err(e) => Err(e)
      case Ok(prefix) =>
        match PortValue(parts[|parts| - 1])
        case None => Err(InvalidPortValue)
        case Some(p) =>
          if p in prefix then Err(DuplicatePort)
          else
            DistinctSnoc(prefix, p);
            Ok(prefix + [p])
  }

  /** makePortList: the scan, then the (for split input unreachable) empty check. */
  function ListFromParts(parts: seq<string>): (r: Parsed<seq<int>>)
    ensures r.Ok? ==> ValidPortList(r.value) && |r.value| == |parts|
    ensures r.Err? ==> r.error in {InvalidPortValue, DuplicatePort, NoPortsProvided}
  {
    match ScanList(parts)
    case Err(e) => Err(e)
    case Ok(ps) => if |ps| == 0 then Err(NoPortsProvided) else Ok(ps)
  }

  /** validatePort once it is known that no port was selected before. */
  function ParsePorts(ports: string): (r: Parsed<seq<int>>)
    ensures r.Ok? ==> ValidPortList(r.value)
    ensures r.Err? && '-' in ports ==>
      r.error in {InvalidRangeSyntax, InvalidPortValue, StartAfterEnd}
    ensures r.Err? && '-' !in ports ==>
      r.error in {InvalidPortValue, DuplicatePort, InvalidListSyntax, NoPortsProvided}
  {
    if '-' in ports then
      var parts := Split(ports, '-');
      if |parts| != 2 then Err(InvalidRangeSyntax) else RangeFromParts(parts)
    else
      var parts := Split(ports, ',');
      if |parts| == 0 then Err(InvalidListSyntax) else ListFromParts(parts)
  }

  /** makePortRange, building the list by appending from the start port up. */
  method MakePortRange(parts: seq<string>) returns (r: Parsed<seq<int>>)
    requires |parts| == 2
    ensures r == RangeFromParts(parts)
  {
    var startPort := Atoi(parts[0]);
    if startPort.None? || !ValidPortRange(startPort.value) {
      return Err(InvalidPortValue);
    }
    var endPort := Atoi(parts[1]);
    if endPort.None? || !ValidPortRange(endPort.value) {
      return Err(InvalidPortValue);
    }
    if startPort.value > endPort.value {
      return Err(StartAfterEnd);
    }
    var portList: seq<int> := [];
    var port := startPort.value;
    while port <= endPort.value
      invariant startPort.value <= port <= endPort.value + 1
      invariant portList == Interval(startPort.value, port - 1)
      decreases endPort.value - port
    {
      portList := portList + [port];
      port := port + 1;
    }
    return Ok(portList);
  }

  /** makePortList, with its duplicate map as a set of the ports seen so far. */
  method MakePortList(parts: seq<string>) returns (r: Parsed<seq<int>>)
    ensures r == ListFromParts(parts)
  {
    var seen: set<int> := {};
    var portList: seq<int> := [];
    var i := 0;
    while i < |parts|
      invariant 0 <= i <= |parts|
      invariant ScanList(parts[..i]) == Ok(portList)
      invariant forall p :: p in seen <==> p in portList
    {
      assert parts[..i + 1][..i] == parts[..i];
      var port := Atoi(parts[i]);
      if port.None? || !ValidPortRange(port.value) {
        ScanListStopsAtError(parts, i + 1);
        return Err(InvalidPortValue);
      }
      if port.value in seen {
        ScanListStopsAtError(parts, i + 1);
        return Err(DuplicatePort);
      }
      seen := seen + {port.value};
      portList := portList + [port.value];
      i := i + 1;
    }
    assert parts[..i] == parts;
    if |portList| == 0 {
      return Err(NoPortsProvided);
    }
    return Ok(portList);
  }

  /** Once a prefix of the pieces fails, the whole list fails the same way. */
  lemma {:induction false} ScanListStopsAtError(parts: seq<string>, k: nat)
    requires k <= |parts|
    requires ScanList(parts[..k]).Err?
    ensures ScanList(parts) == ScanList(parts[..k])
    decreases |parts| - k
  {
    if k < |parts| {
      var pre := parts[..|parts| - 1];
      assert pre[..k] == parts[..k];
      ScanListStopsAtError(pre, k);
    } else {
      assert parts[..k] == parts;
    }
  }

  lemma {:induction false} IntervalShape(lo: int, hi: int)
    requires lo <= hi + 1
    ensures |Interval(lo, hi)| == hi - lo + 1
    ensures forall k | 0 <= k < |Interval(lo, hi)| :: Interval(lo, hi)[k] == lo + k
    decreases hi - lo
  {
    if lo <= hi {
      IntervalShape(lo, hi - 1);
    }
  }

  /** A range lists its ports in ascending order, once each. */
  lemma IntervalIsPortList(lo: int, hi: int)
    requires 0 <= lo <= hi <= MaxPort
    ensures ValidPortList(Interval(lo, hi))
    ensures forall i, j | 0 <= i < j < |Interval(lo, hi)| :: Interval(lo, hi)[i] < Interval(lo, hi)[j]
    ensures forall p :: p in Interval(lo, hi) <==> lo <= p <= hi
  {
    IntervalShape(lo, hi);
    var r := Interval(lo, hi);
    forall p | lo <= p <= hi ensures p in r {
      assert r[p - lo] == p;
    }
  }

  predicate AllPorts(parts: seq<string>)
  {
    forall i | 0 <= i < |parts| :: PortValue(parts[i]).Some?
  }

  predicate DistinctPorts(parts: seq<string>)
    requires AllPorts(parts)
  {
    forall i, j | 0 <= i < j < |parts| :: PortValue(parts[i]).value != PortValue(parts[j]).value
  }

  /** A successful scan has read every piece as a port, in order, with no port twice. */
  lemma {:induction false} ScanListSound(parts: seq<string>)
    ensures ScanList(parts).Ok? ==>
      AllPorts(parts)
      && |ScanList(parts).value| == |parts|
      && (forall i | 0 <= i < |parts| :: ScanList(parts).value[i] == PortValue(parts[i]).value)
      && Distinct(ScanList(parts).value)
    decreases |parts|
  {
    if parts != [] {
      var n := |parts|;
      var pre := parts[..n - 1];
      ScanListSound(pre);
      if ScanList(parts).Ok? {
        var prefix := ScanList(pre).value;
        var p := PortValue(parts[n - 1]).value;
        var r := prefix + [p];
        assert ScanList(parts).value == r;
        DistinctSnoc(prefix, p);
        forall i | 0 <= i < n ensures PortValue(parts[i]).Some? && r[i] == PortValue(parts[i]).value {
          if i < n - 1 {
            assert pre[i] == parts[i];
          }
        }
      }
    }
  }

  lemma DistinctSnoc(ps: seq<int>, p: int)
    requires Distinct(ps) && p !in ps
    ensures Distinct(ps + [p])
  {
  }

  /** Pieces that are all ports, none repeated, always scan. */
  lemma {:induction false} ScanListComplete(parts: seq<string>)
    requires AllPorts(parts) && DistinctPorts(parts)
    ensures ScanList(parts).Ok?
    decreases |parts|
  {
    if parts != [] {
      var n := |parts|;
      var pre := parts[..n - 1];
      assert forall i | 0 <= i < n - 1 :: pre[i] == parts[i];
      ScanListComplete(pre);
      ScanListSound(pre);
      var prefix := ScanList(pre).value;
      var p := PortValue(parts[n - 1]).value;
      forall i | 0 <= i < |prefix| ensures prefix[i] != p {
        assert prefix[i] == PortValue(parts[i]).value;
      }
    }
  }

  /**
   * The list scan succeeds exactly when every piece is a port and no port
   * repeats; it then yields the ports in input order.
   */
  lemma ScanListAccepts(parts: seq<string>)
    ensures ScanList(parts).Ok? <==> AllPorts(parts) && DistinctPorts(parts)
    ensures ScanList(parts).Ok? ==>
      |ScanList(parts).value| == |parts|
      && forall i | 0 <= i < |parts| :: ScanList(parts).value[i] == PortValue(parts[i]).value
  {
    ScanListSound(parts);
    if AllPorts(parts) && DistinctPorts(parts) {
      ScanListComplete(parts);
    }
  }

  /** A failed scan names a piece that is not a port, or two pieces naming the same port. */
  lemma {:induction false} ScanListRejects(parts: seq<string>)
    ensures ScanList(parts) == Err(InvalidPortValue) ==> !AllPorts(parts)
    ensures ScanList(parts) == Err(DuplicatePort) ==>
      exists i, j | 0 <= i < j < |parts| :: PortValue(parts[i]).Some? && PortValue(parts[i]) == PortValue(parts[j])
    decreases |parts|
  {
    if parts != [] {
      var n := |parts|;
      var pre := parts[..n - 1];
      ScanListRejects(pre);
      match ScanList(pre)
      case Err(e) =>
        if e == DuplicatePort {
          var i, j :| 0 <= i < j < |pre| && PortValue(pre[i]).Some? && PortValue(pre[i]) == PortValue(pre[j]);
          assert pre[i] == parts[i] && pre[j] == parts[j];
        } else {
          var i :| 0 <= i < |pre| && PortValue(pre[i]).None?;
          assert pre[i] == parts[i];
        }
      case Ok(prefix) =>
        ScanListAccepts(pre);
        match PortValue(parts[n - 1])
        case None =>
        case Some(p) =>
          if p in prefix {
            var i :| 0 <= i < |prefix| && prefix[i] == p;
            assert pre[i] == parts[i];
            assert PortValue(parts[i]).Some? && PortValue(parts[i]) == PortValue(parts[n - 1]);
          }
    }
  }

  /** A negative start adds a '-' in front, so the text does not split into two parts. */
  lemma RangeFormNegativeStart(a: int, b: int)
    requires a < 0
    ensures |Split(Itoa(a) + "-" + Itoa(b), '-')| >= 3
  {
    var d := NatDigits(-a);
    assert Itoa(a) + "-" + Itoa(b) == [] + ['-'] + d + ['-'] + Itoa(b);
    SplitHasThree([], d, Itoa(b), '-');
  }

  /** A negative end adds a second '-' after the first. */
  lemma RangeFormNegativeEnd(a: int, b: int)
    requires 0 <= a && b < 0
    ensures |Split(Itoa(a) + "-" + Itoa(b), '-')| >= 3
  {
    ItoaDigits(a);
    var d := NatDigits(-b);
    assert Itoa(a) + "-" + Itoa(b) == Itoa(a) + ['-'] + [] + ['-'] + d;
    SplitHasThree(Itoa(a), [], d, '-');
  }

  /** Two non-negative bounds split back into their own texts. */
  lemma RangeFormSplits(a: int, b: int)
    requires 0 <= a && 0 <= b
    ensures Split(Itoa(a) + "-" + Itoa(b), '-') == [Itoa(a), Itoa(b)]
  {
    ItoaDigits(a);
    ItoaDigits(b);
    assert '-' !in Itoa(a) && '-' !in Itoa(b);
    SplitNoSep(Itoa(b), '-');
    SplitConcat(Itoa(a), Itoa(b), '-');
  }

  /**
   * "a-b", with a and b written as `%d` writes them, is accepted exactly when
   * 0 <= a <= b <= 65535, and then yields a, a+1, ..., b.
   */
  lemma RangeForm(a: int, b: int)
    requires IsInt64(a) && IsInt64(b)
    ensures ParsePorts(Itoa(a) + "-" + Itoa(b)).Ok? <==> 0 <= a <= b <= MaxPort
    ensures 0 <= a <= b <= MaxPort ==> ParsePorts(Itoa(a) + "-" + Itoa(b)) == Ok(Interval(a, b))
    ensures 0 <= a <= b <= MaxPort ==>
      |Interval(a, b)| == b - a + 1 && forall k | 0 <= k < b - a + 1 :: Interval(a, b)[k] == a + k
  {
    var s := Itoa(a) + "-" + Itoa(b);
    assert s[|Itoa(a)|] == '-';
    if a < 0 {
      RangeFormNegativeStart(a, b);
    } else if b < 0 {
      RangeFormNegativeEnd(a, b);
    } else {
      RangeFormBounds(a, b);
      if a <= b {
        IntervalShape(a, b);
      }
    }
  }

  /** With non-negative bounds the range path reads the two bounds back. */
  lemma RangeFormBounds(a: int, b: int)
    requires 0 <= a <= MaxInt64 && 0 <= b <= MaxInt64
    ensures ParsePorts(Itoa(a) + "-" + Itoa(b))
      == RangeFromParts([Itoa(a), Itoa(b)])
    ensures PortValue(Itoa(a)) == (if a <= MaxPort then Some(a) else None)
    ensures PortValue(Itoa(b)) == (if b <= MaxPort then Some(b) else None)
  {
    var s := Itoa(a) + "-" + Itoa(b);
    assert s[|Itoa(a)|] == '-';
    RangeFormSplits(a, b);
    AtoiItoa(a);
    AtoiItoa(b);
  }

  /** The default range parses to all 65536 ports. */
  lemma AllPortsTextParses()
    ensures ParsePorts(AllPortsText) == Ok(Interval(0, MaxPort))
    ensures |Interval(0, MaxPort)| == 65536
  {
    assert NatDigits(65535) == "65535";
    assert Itoa(0) + "-" + Itoa(65535) == AllPortsText;
    RangeForm(0, MaxPort);
  }

  /**
   * A comma list (no '-') is accepted exactly when every piece is a port and
   * no port repeats; the result keeps the input order.
   */
  lemma ListForm(ports: string)
    requires '-' !in ports
    ensures ParsePorts(ports).Ok? <==> AllPorts(Split(ports, ',')) && DistinctPorts(Split(ports, ','))
    ensures ParsePorts(ports).Ok? ==>
      |ParsePorts(ports).value| == |Split(ports, ',')|
      && forall i | 0 <= i < |Split(ports, ',')| :: ParsePorts(ports).value[i] == PortValue(Split(ports, ',')[i]).value
    ensures ParsePorts(ports).Err? ==>
      ParsePorts(ports).error == InvalidPortValue || ParsePorts(ports).error == DuplicatePort
  {
    ScanListAccepts(Split(ports, ','));
    ScanListRejects(Split(ports, ','));
  }

  /** Writing the pieces with `%d`. */
  function DecimalTexts(ps: seq<int>): (texts: seq<string>)
    ensures |texts| == |ps|
    decreases |ps|
  {
    if ps == [] then [] else [Itoa(ps[0])] + DecimalTexts(ps[1..])
  }

  lemma {:induction false} DecimalTextsAt(ps: seq<int>, i: nat)
    requires i < |ps|
    ensures DecimalTexts(ps)[i] == Itoa(ps[i])
    decreases |ps|
  {
    if i > 0 {
      DecimalTextsAt(ps[1..], i - 1);
    }
  }

  lemma {:induction false} JoinAvoids(parts: seq<string>, sep: char, c: char)
    requires |parts| >= 1 && c != sep
    requires forall k | 0 <= k < |parts| :: c !in parts[k]
    ensures c !in Join(parts, sep)
    decreases |parts|
  {
    if |parts| > 1 {
      JoinAvoids(parts[1..], sep, c);
    }
  }

  /** Any list of distinct ports, written as "p1,p2,...", parses back to itself. */
  lemma ListRoundTrip(ps: seq<int>)
    requires ValidPortList(ps)
    ensures ParsePorts(Join(DecimalTexts(ps), ',')) == Ok(ps)
  {
    var texts := DecimalTexts(ps);
    forall k | 0 <= k < |texts| ensures ',' !in texts[k] && '-' !in texts[k] && PortValue(texts[k]) == Some(ps[k]) {
      DecimalTextsAt(ps, k);
      ItoaDigits(ps[k]);
      AtoiItoa(ps[k]);
    }
    var s := Join(texts, ',');
    JoinAvoids(texts, ',', '-');
    SplitJoin(texts, ',');
    ScanListAccepts(texts);
    var r := ScanList(texts).value;
    assert r == ps;
  }

  /** The empty specification is refused: Atoi("") fails. */
  lemma EmptyRejected()
    ensures ParsePorts("") == Err(InvalidPortValue)
  {
    assert Split("", ',') == [""];
    assert PortValue("") == None;
    assert [""][..0] == [];
  }
}
