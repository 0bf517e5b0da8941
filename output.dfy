/**
 * pkg/output.go: the one-line label of a scan result, and what WriteToFile
 * appends to its file, each line with its ANSI colour sequences removed and
 * a newline added.
 *
 * The colour helpers of github.com/fatih/color are modelled by the escape
 * sequences they emit ("ESC [ code m" before the text, "ESC [ 0 m" after it)
 * when colour is on, and by the text itself when colour is off.
 */
module Output {
  import opened Wrappers
  import opened GoText
  import opened Types

  const Esc: char := '\U{1B}'

  /** The SGR escape sequence ESC '[' code 'm'. */
  function Sgr(code: string): string
  {
    [Esc, '['] + code + "m"
  }

  datatype Colour = Red | Green | Yellow
  {
    function Code(): string
    {
      match this
      case Red => "31"
      case Green => "32"
      case Yellow => "33"
    }
  }

  /** color.RedString and its siblings. */
  function Paint(colour: Colour, s: string, colourOn: bool): string
  {
    if colourOn then Sgr(colour.Code()) + s + Sgr("0") else s
  }

  function StatusLabel(st: PortStatus): string
  {
    match st
    case Open => "Open"
    case Filtered => "Filtered"
    case Closed => "Closed"
    case OpenFiltered => "Open/Filtered"
  }

  function StatusColour(st: PortStatus): Colour
  {
    match st
    case Open => Red
    case Closed => Green
    case Filtered => Yellow
    case OpenFiltered => Yellow
  }

  /** The uncoloured label; the OS field it prints is not in ScanResult and is empty here. */
  function Label(r: ScanResult, status: string): string
  {
    "Port: " + Itoa(r.port) + " | Status: " + status + " | Service: " + r.service + " | OS: "
  }

  /** FormatResult: a coloured label for the four status codes, "" for any other code. */
  function FormatResult(r: ScanResult, colourOn: bool): (line: string)
    ensures line == "" <==> StatusOf(r.portStatus).None?
    ensures colourOn && StatusOf(r.portStatus).Some? ==> line[0] == Esc
  {
    match StatusOf(r.portStatus)
    case None => ""
    case Some(st) => Paint(StatusColour(st), Label(r, StatusLabel(st)), colourOn)
  }

  predicate IsSgrBodyChar(c: char) { '0' <= c <= '9' || c == ';' }

  /** The first index from k on that does not hold a digit or ';'. */
  function BodyEnd(s: string, k: nat): (e: nat)
    requires k <= |s|
    ensures k <= e <= |s|
    decreases |s| - k
  {
    if k < |s| && IsSgrBodyChar(s[k]) then BodyEnd(s, k + 1) else k
  }

  /** The length of a match of `\x1b\[[0-9;]*m` at the start of s, if any. */
  function SgrLength(s: string): (n: Option<nat>)
    ensures n.Some? ==> 3 <= n.value <= |s|
  {
    if |s| >= 2 && s[0] == Esc && s[1] == '[' then
      var e := BodyEnd(s, 2);
      if e < |s| && s[e] == 'm' then Some(e + 1) else None
    else None
  }

  /**
   * regexp `\x1b\[[0-9;]*m`.ReplaceAllString(s, ""): matches are removed
   * left to right without overlapping; after a removal the scan resumes
   * after it, so text brought together by a removal is not looked at again.
   */
  function StripAnsi(s: string): (t: string)
    ensures |t| <= |s|
    decreases |s|
  {
    if s == [] then []
    else
      match SgrLength(s)
      case Some(n) => StripAnsi(s[n..])
      case None => [s[0]] + StripAnsi(s[1..])
  }

  /** Text without an escape character passes through unchanged. */
  lemma {:induction false} StripAnsiKeepsPlainPrefix(p: string, t: string)
    requires Esc !in p
    ensures StripAnsi(p + t) == p + StripAnsi(t)
    decreases |p|
  {
    if p != [] {
      StripAnsiKeepsPlainPrefix(p[1..], t);
      assert (p + t)[0] == p[0] != Esc;
      assert SgrLength(p + t) == None;
      assert (p + t)[1..] == p[1..] + t;
      assert StripAnsi(p + t) == [p[0]] + StripAnsi(p[1..] + t);
      assert [p[0]] + (p[1..] + StripAnsi(t)) == p + StripAnsi(t);
    } else {
      assert p + t == t;
    }
  }

  lemma {:induction false} BodyEndAt(s: string, k: nat, e: nat)
    requires k <= e < |s|
    requires forall j | k <= j < e :: IsSgrBodyChar(s[j])
    requires !IsSgrBodyChar(s[e])
    ensures BodyEnd(s, k) == e
    decreases e - k
  {
    if k < e {
      BodyEndAt(s, k + 1, e);
    }
  }

  /** An SGR sequence at the front is removed whole. */
  lemma StripAnsiDropsSgr(code: string, t: string)
    requires forall j | 0 <= j < |code| :: IsSgrBodyChar(code[j])
    ensures StripAnsi(Sgr(code) + t) == StripAnsi(t)
  {
    var s := Sgr(code) + t;
    BodyEndAt(s, 2, |code| + 2);
    assert s[|code| + 3..] == t;
  }

  /** Stripping a coloured text gives back the text, if it holds no escape character. */
  lemma StripAnsiUnwraps(code: string, s: string)
    requires forall j | 0 <= j < |code| :: IsSgrBodyChar(code[j])
    requires Esc !in s
    ensures StripAnsi(Sgr(code) + s + Sgr("0")) == s
  {
    var tail := s + Sgr("0");
    assert Sgr(code) + s + Sgr("0") == Sgr(code) + tail;
    StripAnsiDropsSgr(code, tail);
    StripAnsiKeepsPlainPrefix(s, Sgr("0"));
    StripAnsiDropsSgr("0", []);
    assert Sgr("0") + [] == Sgr("0");
    assert s + [] == s;
  }

  /** Stripping after painting gives back any escape-free text, colour on or off. */
  lemma StripAnsiUndoesPaint(colour: Colour, s: string, colourOn: bool)
    requires Esc !in s
    ensures StripAnsi(Paint(colour, s, colourOn)) == s
  {
    if colourOn {
      StripAnsiUnwraps(colour.Code(), s);
    } else {
      StripAnsiKeepsPlainPrefix(s, []);
      assert s + [] == s;
    }
  }

  /** t can be had from s by deleting characters, the rest kept in order. */
  predicate Subsequence(t: string, s: string)
    decreases |s|
  {
    if t == [] then true
    else if s == [] then false
    else (t[0] == s[0] && Subsequence(t[1..], s[1..])) || Subsequence(t, s[1..])
  }

  lemma {:induction false} SubsequenceOfSuffix(t: string, s: string, k: nat)
    requires k <= |s| && Subsequence(t, s[k..])
    ensures Subsequence(t, s)
    decreases k
  {
    if k > 0 {
      assert s[1..][k - 1..] == s[k..];
      SubsequenceOfSuffix(t, s[1..], k - 1);
    }
  }

  lemma {:induction false} SubsequenceChars(t: string, s: string)
    requires Subsequence(t, s)
    ensures forall c | c in t :: c in s
    decreases |s|
  {
    if t != [] {
      if t[0] == s[0] && Subsequence(t[1..], s[1..]) {
        SubsequenceChars(t[1..], s[1..]);
        assert forall c | c in t :: c == t[0] || c in t[1..];
      } else {
        SubsequenceChars(t, s[1..]);
      }
      assert forall c | c in s[1..] :: c in s;
    }
  }

  /**
   * Stripping only deletes characters: what is left is the input with some
   * characters removed and the others kept in order.
   */
  lemma {:induction false} StripAnsiKeepsChars(s: string)
    ensures Subsequence(StripAnsi(s), s)
    ensures forall c | c in StripAnsi(s) :: c in s
    decreases |s|
  {
    if s != [] {
      match SgrLength(s)
      case Some(n) =>
        StripAnsiKeepsChars(s[n..]);
        SubsequenceOfSuffix(StripAnsi(s), s, n);
      case None =>
        StripAnsiKeepsChars(s[1..]);
        var t := StripAnsi(s);
        assert t[0] == s[0] && t[1..] == StripAnsi(s[1..]);
    }
    SubsequenceChars(StripAnsi(s), s);
  }

  /**
   * One pass only: removing "ESC[31m" out of "ESC[ESC[31mm" leaves "ESC[m",
   * which matches the pattern but stays.
   */
  lemma StripAnsiIsOnePass()
    ensures StripAnsi([Esc, '['] + Sgr("31") + "m") == Sgr("")
    ensures StripAnsi(Sgr("")) == []
  {
    var s := [Esc, '['] + Sgr("31") + "m";
    assert SgrLength(s) == None by {
      assert BodyEnd(s, 2) == 2;
    }
    assert s[1..] == ['['] + Sgr("31") + "m";
    assert SgrLength(s[1..]) == None;
    StripAnsiDropsSgr("31", "m");
    assert s[2..] == Sgr("31") + "m";
    assert StripAnsi("m") == "m";
    StripAnsiDropsSgr("", []);
    assert Sgr("") + [] == Sgr("");
  }

  /**
   * The four status codes give lines carrying the port, the status name and
   * the service, and once the colour is stripped (or with colour off) the line
   * is exactly the label; any other code gives the empty string.
   */
  lemma FormatResultMeaning(r: ScanResult, colourOn: bool)
    requires Esc !in r.service
    ensures StatusOf(r.portStatus).None? ==> FormatResult(r, colourOn) == ""
    ensures r.portStatus == Open.Code() ==> StripAnsi(FormatResult(r, colourOn)) == Label(r, "Open")
    ensures r.portStatus == Filtered.Code() ==> StripAnsi(FormatResult(r, colourOn)) == Label(r, "Filtered")
    ensures r.portStatus == Closed.Code() ==> StripAnsi(FormatResult(r, colourOn)) == Label(r, "Closed")
    ensures r.portStatus == OpenFiltered.Code() ==> StripAnsi(FormatResult(r, colourOn)) == Label(r, "Open/Filtered")
    ensures StatusOf(r.portStatus).Some? ==> FormatResult(r, false) == Label(r, StatusLabel(StatusOf(r.portStatus).value))
  {
    match StatusOf(r.portStatus)
    case None =>
    case Some(st) =>
      var line := Label(r, StatusLabel(st));
      ItoaAvoids(r.port, Esc);
      assert Esc !in line;
      StripAnsiUndoesPaint(StatusColour(st), line, colourOn);
  }

  /** Lines for different status codes differ (for the same port and service). */
  lemma FormatResultTellsStatusApart(r: ScanResult, a: PortStatus, b: PortStatus)
    requires a != b
    ensures Label(r, StatusLabel(a)) != Label(r, StatusLabel(b))
  {
    assert |StatusLabel(a)| != |StatusLabel(b)|;
  }

  /** What WriteToFile appends for the given lines: each stripped and ended by a newline. */
  function Rendered(lines: seq<string>): string
    decreases |lines|
  {
    if lines == [] then [] else StripAnsi(lines[0]) + "\n" + Rendered(lines[1..])
  }

  lemma {:induction false} RenderedSnoc(lines: seq<string>, last: string)
    ensures Rendered(lines + [last]) == Rendered(lines) + StripAnsi(last) + "\n"
    decreases |lines|
  {
    if lines == [] {
      assert [] + [last] == [last];
    } else {
      assert (lines + [last])[1..] == lines[1..] + [last];
      RenderedSnoc(lines[1..], last);
    }
  }

  function StrippedLines(lines: seq<string>): (r: seq<string>)
    ensures |r| == |lines|
  {
    seq(|lines|, k requires 0 <= k < |lines| => StripAnsi(lines[k]))
  }

  lemma {:induction false} RenderedIsJoin(lines: seq<string>)
    ensures Rendered(lines) == Join(StrippedLines(lines) + [""], '\n')
    decreases |lines|
  {
    if lines != [] {
      RenderedIsJoin(lines[1..]);
      var parts := StrippedLines(lines) + [""];
      assert parts[1..] == StrippedLines(lines[1..]) + [""];
    }
  }

  /**
   * The appended text splits at newlines into the stripped lines, in input
   * order, plus the empty piece after the last newline: one newline per line.
   */
  lemma RenderedLines(lines: seq<string>)
    requires forall k | 0 <= k < |lines| :: '\n' !in lines[k]
    ensures Split(Rendered(lines), '\n') == StrippedLines(lines) + [""]
  {
    RenderedIsJoin(lines);
    var parts := StrippedLines(lines) + [""];
    forall k | 0 <= k < |parts| ensures '\n' !in parts[k] {
      if k < |lines| {
        StripAnsiKeepsChars(lines[k]);
      }
    }
    SplitJoin(parts, '\n');
  }

  /** How WriteToFile ended: fully written, the open failed, or the write of one line failed. */
  datatype WriteResult = Written | OpenFailed | WriteFailed(index: nat)

  /**
   * WriteToFile: `appended` is what reaches the file.  Opening and each
   * line's write can fail (`openable`, `writeFails` stand for the file
   * system); the first failure stops the loop.
   */
  method WriteToFile(data: seq<string>, fileName: string, openable: string -> bool, writeFails: nat -> bool)
    returns (appended: string, result: WriteResult)
    ensures !openable(fileName) ==> result == OpenFailed && appended == []
    ensures openable(fileName) ==> result != OpenFailed
    ensures result == Written ==>
      (forall k | 0 <= k < |data| :: !writeFails(k)) && appended == Rendered(data)
    ensures result.WriteFailed? ==>
      result.index < |data| && writeFails(result.index)
      && (forall k | 0 <= k < result.index :: !writeFails(k))
      && appended == Rendered(data[..result.index])
  {
    if !openable(fileName) {
      return [], OpenFailed;
    }
    appended := [];
    var i := 0;
    while i < |data|
      invariant 0 <= i <= |data|
      invariant appended == Rendered(data[..i])
      invariant forall k | 0 <= k < i :: !writeFails(k)
    {
      var val := StripAnsi(data[i]);
      if writeFails(i) {
        return appended, WriteFailed(i);
      }
      assert data[..i + 1] == data[..i] + [data[i]];
      RenderedSnoc(data[..i], data[i]);
      appended := appended + val + "\n";
      i := i + 1;
    }
    assert data[..i] == data;
    return appended, Written;
  }
}
