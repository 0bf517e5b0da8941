/**
 * The enumerations and records of pkg/types.go.  Go stores each enumeration
 * as a plain `int`; here each is a datatype with its integer code, and the
 * record fields that hold a code stay `int`, as in the source.
 */
module Types {
  import opened Wrappers

  /** The "not chosen yet" value the configuration layer stores in its int fields. */
  const Unset: int := -1

  /** Scan protocol; Tcp is the default when no protocol flag is given. */
  datatype Protocol = Tcp | Udp | Stealth
  {
    function Code(): int
    {
      match this
      case Tcp => 0
      case Udp => 1
      case Stealth => 2
    }
  }

  function ProtocolOf(code: int): Option<Protocol>
  {
    if code == 0 then Some(Tcp)
    else if code == 1 then Some(Udp)
    else if code == 2 then Some(Stealth)
    else None
  }

  /** Port status; there is no default, every probe sets one. */
  datatype PortStatus = Open | Filtered | Closed | OpenFiltered
  {
    function Code(): int
    {
      match this
      case Open => 0
      case Filtered => 1
      case Closed => 2
      case OpenFiltered => 3
    }
  }

  function StatusOf(code: int): Option<PortStatus>
  {
    if code == 0 then Some(Open)
    else if code == 1 then Some(Filtered)
    else if code == 2 then Some(Closed)
    else if code == 3 then Some(OpenFiltered)
    else None
  }

  /** Output mode; AllConsole is the default when no output flag is given. */
  datatype DisplayType = AllConsole | OpenConsole | WriteFile
  {
    function Code(): int
    {
      match this
      case AllConsole => 0
      case OpenConsole => 1
      case WriteFile => 2
    }
  }

  function DisplayTypeOf(code: int): Option<DisplayType>
  {
    if code == 0 then Some(AllConsole)
    else if code == 1 then Some(OpenConsole)
    else if code == 2 then Some(WriteFile)
    else None
  }

  /** One probe's outcome: the port, its status code and the service name. */
  datatype ScanResult = ScanResult(port: int, portStatus: int, service: string)

  /**
   * The codes are exactly 0, 1, 2 and decoding a code gives back the protocol;
   * so distinct protocols have distinct codes.
   */
  lemma ProtocolCodes(p: Protocol, code: int)
    ensures 0 <= p.Code() <= 2
    ensures ProtocolOf(p.Code()) == Some(p)
    ensures ProtocolOf(code).Some? <==> 0 <= code <= 2
    ensures ProtocolOf(code).Some? ==> ProtocolOf(code).value.Code() == code
  {
  }

  lemma StatusCodes(s: PortStatus, code: int)
    ensures 0 <= s.Code() <= 3
    ensures StatusOf(s.Code()) == Some(s)
    ensures StatusOf(code).Some? <==> 0 <= code <= 3
    ensures StatusOf(code).Some? ==> StatusOf(code).value.Code() == code
  {
  }

  lemma DisplayTypeCodes(d: DisplayType, code: int)
    ensures 0 <= d.Code() <= 2
    ensures DisplayTypeOf(d.Code()) == Some(d)
    ensures DisplayTypeOf(code).Some? <==> 0 <= code <= 2
    ensures DisplayTypeOf(code).Some? ==> DisplayTypeOf(code).value.Code() == code
  {
  }

  /** The sentinel is no code of any enumeration, so "unset" is never a choice. */
  lemma UnsetIsNoCode(p: Protocol, s: PortStatus, d: DisplayType)
    ensures p.Code() != Unset && s.Code() != Unset && d.Code() != Unset
    ensures ProtocolOf(Unset) == None && StatusOf(Unset) == None && DisplayTypeOf(Unset) == None
  {
  }
}
