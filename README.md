# Port scanner configuration layer, in Dafny

This project models the command-line configuration layer of a small TCP/UDP
port scanner written in Go, together with its result formatting:

- `pkg/validators.go` turns the argument list (`<ip> [flags]`) into a
  `ScanConfig` record. Its methods update the record in place. The four
  setters (ports, protocol, output type, worker count) each refuse a second
  assignment; the address is stored without such a check. The "not chosen
  yet" sentinel is -1 for the int fields and nil for the port list. A final
  sanity check fills in defaults.
- `pkg/output.go` formats one scan result as a coloured line. It also appends
  lines to a file after stripping ANSI colour sequences from them.
- `pkg/types.go` holds the protocol, port status and output type
  enumerations and the `ScanConfig`/`ScanResult` records.

Files:

- `wrappers.dfy`: `Option`.
- `errors.dfy`: one `ConfigError` per error message of `validators.go`. Also
  `Parsed` (a value or an error) and `Outcome` (Go's `error` return).
- `gotext.dfy`: the Go library behaviour the code relies on.
  - `strconv.Atoi`: an optional sign and decimal digits, within 64-bit range.
  - `%d` formatting (`Itoa`).
  - `strings.Split` with its `[""]` for the empty string, and `strings.Join`.
  - `strings.ToLower` and `strings.TrimSpace`.
- `types.dfy`: the enumerations as datatypes with their integer codes.
- `ports.dfy`: `validatePort`'s parsing.
  - Specification functions: `ParsePorts`, `RangeFromParts`, `ScanList`, `ListFromParts`.
  - The `makePortRange`/`makePortList` loops as methods proved against those functions.
- `validators.dfy`:
  - `Settings`: the record as a value.
  - One step function per Go method, giving the new record and the error.
  - The `ScanConfig` class: its methods update its fields and are proved equal to the step functions.
  - The `ValidateArgs` loop.
  - The lemmas about the configuration the loop produces.
- `output.dfy`:
  - `FormatResult`.
  - The single-pass removal of `ESC [ [0-9;]* m` (`StripAnsi`).
  - `WriteToFile`: a loop that accumulates what reaches the file.

Behaviours of the code that the proofs make explicit:

- **"-F" is ignored.** `ValidateArgs` matches flags in lower case. For "-f"
  it passes the flag *as typed* to `validateOutputType`
  (pkg/validators.go:51). So "-F name" reaches `validateOutputType` as
  "-F", which matches none of its cases. The name is dropped and no error
  is reported (`Validators.UpperFileFlagIgnored`).
- **"-w -1" can be followed by a second "-w".** `SetWorkerCount` stores any
  integer. After "-w -1" the field holds -1, which is the sentinel, so a
  second "-w" is accepted (`Validators.WorkerSentinelReopens`).
- **Unknown protocol text is accepted.** `validateProtocol` returns no error
  for text it does not know and changes nothing. Such text cannot reach it
  from the flag loop.
- **File names are lowercased and trimmed** before they are stored.
- **Two checks are unreachable.** `strings.Split` never returns an empty
  slice, so the `len(parts) == 0` checks (pkg/validators.go:172,
  pkg/validators.go:189) cannot fire from `validatePort`. The empty port text
  is refused only because `Atoi("")` fails (`Ports.EmptyRejected`).
- **The OS field does not exist.** `FormatResult` prints `scan.OsType`, but
  `ScanResult` has no such field (pkg/types.go:39-43). The OS part of the
  label is modelled as empty.

## Model

| member | source | states |
|---|---|---|
| GoText.Atoi | pkg/validators.go:240-243 | a parsed worker or port count is a 64-bit int, and the text starts with a digit or a sign |
| GoText.AtoiItoa | pkg/validators.go:240-245 | any 64-bit int written in decimal is read back by Atoi as itself |
| GoText.NatDigits | pkg/output.go:15 | the decimal digits of a natural number are a non-empty string of digits |
| GoText.Itoa | pkg/output.go:15 | `%d` prints a non-empty text that starts with '-' exactly for negative numbers |
| GoText.ItoaDigits | pkg/output.go:15 | after the sign, `%d` prints only digits |
| GoText.AtoiRejectsEmpty | pkg/validators.go:160-163 | the empty string is not a number |
| GoText.Split | pkg/validators.go:188-191 | strings.Split always returns at least one piece, so the empty-slice check cannot fire |
| GoText.JoinSplit | pkg/validators.go:181 | the pieces of a split hold no separator and join back to the input |
| GoText.SplitJoin | pkg/validators.go:188 | splitting a join of separator-free pieces gives the pieces back |
| GoText.TrimLeftMeaning | pkg/validators.go:38 | the left trim keeps a suffix that follows white space only and does not start with white space |
| GoText.TrimRightMeaning | pkg/validators.go:38 | the right trim keeps a prefix that is followed by white space only and does not end with white space |
| GoText.TrimSpaceMeaning | pkg/validators.go:51 | strings.TrimSpace gives a piece of the input with only white space around it, starting and ending with non-space, and leaves text without white space unchanged |
| Types.ProtocolCodes | pkg/types.go:3-8 | Tcp, Udp, Stealth are 0, 1, 2, and decoding a code gives back its protocol, so the codes are distinct |
| Types.StatusCodes | pkg/types.go:10-16 | Open, Filtered, Closed, OpenFiltered are 0..3, and each code decodes to its status |
| Types.DisplayTypeCodes | pkg/types.go:18-23 | AllConsole, OpenConsole, WriteFile are 0, 1, 2, and each code decodes to its type |
| Types.UnsetIsNoCode | pkg/validators.go:15-18 | the -1 sentinel is the code of no protocol, status or display type |
| Ports.RangeFromParts | pkg/validators.go:131-153 | the range is accepted iff both bounds are ports and start <= end, gives a non-empty list of distinct ports, and otherwise fails with "invalid port value" or "start after end" |
| Ports.ScanList | pkg/validators.go:159-170 | a successful scan gives one port per piece, all in [0, 65535], none twice; a failure is "invalid port value" or "duplicate port" |
| Ports.ListFromParts | pkg/validators.go:155-178 | an accepted list is a non-empty list of distinct ports, one per piece; the errors are "invalid port value", "duplicate port" or "no ports" |
| Ports.ParsePorts | pkg/validators.go:180-194 | every accepted text gives a non-empty list of distinct ports in [0, 65535]; a text with '-' fails only with a range error, one without only with a list error |
| Ports.MakePortRange | pkg/validators.go:131-153 | the ascending loop returns exactly RangeFromParts: an invalid bound or start > end is an error, otherwise start..end |
| Ports.MakePortList | pkg/validators.go:155-178 | the loop with its duplicate set returns exactly ListFromParts: the first invalid or repeated piece decides the error |
| Ports.IntervalShape | pkg/validators.go:145-149 | the range loop appends end - start + 1 ports, the k-th being start + k |
| Ports.IntervalIsPortList | pkg/validators.go:145-151 | a range lists distinct valid ports in ascending order, exactly those between its bounds |
| Ports.ScanListStopsAtError | pkg/validators.go:159-167 | once a prefix of the pieces fails, the whole list fails with that error |
| Ports.ScanListSound | pkg/validators.go:159-170 | a successful scan read every piece as a port, in input order, with no port twice |
| Ports.ScanListComplete | pkg/validators.go:159-170 | pieces that are all ports with none repeated always scan |
| Ports.ScanListAccepts | pkg/validators.go:159-170 | the scan succeeds iff every piece is a port and none repeats, and then yields the ports in input order |
| Ports.ScanListRejects | pkg/validators.go:160-167 | a failed scan is "invalid port value" only if some piece is not a port, and "duplicate port" only if two pieces name the same port |
| Ports.RangeFormNegativeStart | pkg/validators.go:180-184 | a negative start adds a '-', so the range text does not split into two parts |
| Ports.RangeFormNegativeEnd | pkg/validators.go:180-184 | a negative end adds a '-', so the range text does not split into two parts |
| Ports.RangeFormSplits | pkg/validators.go:181 | "a-b" with non-negative bounds splits into the two bound texts |
| Ports.RangeFormBounds | pkg/validators.go:180-186 | "a-b" with non-negative bounds goes to the range parse with the two bound texts, and each bound reads back as itself when it is a port |
| Ports.RangeForm | pkg/validators.go:131-153 | "a-b" is accepted iff 0 <= a <= b <= 65535, and then yields a, a+1, ..., b (b - a + 1 ports) |
| Ports.AllPortsTextParses | pkg/validators.go:83-88 | the sanity check's "0-65535" parses to all 65536 ports |
| Ports.ListForm | pkg/validators.go:187-193 | a comma list is accepted iff every piece is a port and none repeats, yields them in input order, and otherwise fails with "invalid port value" or "duplicate port" |
| Ports.ListRoundTrip | pkg/validators.go:187-193 | any non-empty list of distinct ports, written "p1,p2,...", parses back to itself |
| Ports.EmptyRejected | pkg/validators.go:188-193 | the empty port text fails with "invalid port value", not with the unreachable empty-list errors |
| Validators.ScanConfig.constructor | pkg/validators.go:12-19 | a new record has an empty address, nil ports, and -1 protocol, display type and workers |
| Validators.ScanConfig.ValidateIp | pkg/validators.go:109-120 | an address the IP test refuses is an error that changes nothing; otherwise the address is stored |
| Validators.ScanConfig.ValidatePort | pkg/validators.go:122-195 | the record and error are those of PortStep: refused once ports are set, otherwise the parse of ParsePorts |
| Validators.ScanConfig.ValidateProtocol | pkg/validators.go:197-212 | the record and error are those of ProtocolStep |
| Validators.ScanConfig.ValidateOutputType | pkg/validators.go:214-233 | the record and error are those of OutputStep, including WriteFile set before the name check |
| Validators.ScanConfig.SetWorkerCount | pkg/validators.go:235-247 | the record and error are those of WorkerStep |
| Validators.ScanConfig.SanityCheck | pkg/validators.go:78-107 | the record and error are those of SanityStep |
| Validators.ScanConfig.ApplyFlag | pkg/validators.go:27-67 | one case of the flag switch changes the record and returns the error exactly as FlagStep says |
| Validators.ValidateArgs | pkg/validators.go:10-76 | the index loop yields the record and error of ArgsStep: IP, then the flags left to right stopping at the first error, then the sanity check |
| Validators.PortStepMeaning | pkg/validators.go:122-125 | validatePort refuses once ports are set, succeeds iff the text parses, stores exactly the parsed non-empty distinct list, and an error changes nothing |
| Validators.SettersAreOneShot | pkg/validators.go:122-247 | after a successful port, protocol, output or worker flag, a second one of the same kind fails and changes nothing |
| Validators.FailuresChangeNothing | pkg/validators.go:122-247 | a setter's error leaves the record unchanged, except that "-f" without a name keeps WriteFile |
| Validators.ProtocolStepMeaning | pkg/validators.go:197-212 | with no protocol yet, validateProtocol succeeds and changes only the protocol: "-tcp", "-udp" and "-s" store Tcp, Udp and Stealth, and any other text leaves it unset |
| Validators.OutputStepMeaning | pkg/validators.go:214-233 | with no output type yet, "-o" stores OpenConsole and "-a" AllConsole and nothing else changes; any other text except "-f" is accepted and changes nothing |
| Validators.WorkerSentinelReopens | pkg/validators.go:236-245 | "-w -1" stores the sentinel, so a following "-w 5" is accepted |
| Validators.WorkerStepMeaning | pkg/validators.go:240-246 | any 64-bit int in decimal is stored unchanged (0 and negatives too), and non-integer text is an error that changes nothing |
| Validators.FileFlagMeaning | pkg/validators.go:224-229 | "-f" sets WriteFile, and fails iff the name is missing or empty, leaving the file name as it was; otherwise it stores the name |
| Validators.SanityStepMeaning | pkg/validators.go:78-107 | fails iff the address is empty; otherwise fills in all 65536 ports, Tcp and AllConsole where unset, and clamps workers to 10 if <= 0, 100 if >= 101, so 1..100 |
| Validators.FlagStepKeepsShape | pkg/validators.go:27-67 | each case of the flag switch keeps the port list valid, the enum fields unset or a code, and the address; an unknown flag fails |
| Validators.FlagsStepKeepsShape | pkg/validators.go:26-68 | the flag loop keeps that shape and the address, and succeeds only when every flag is known and each valued flag has a value |
| Validators.ValidateArgsAccepted | pkg/validators.go:10-76 | an accepted argument list gives a record that passed the sanity check, whose address is the first argument and a valid IP, and whose flags are well formed |
| Validators.ValidateArgsRejectsBadIp | pkg/validators.go:21-24 | a first argument that is not an IP ends validation with the initial record and an error |
| Validators.FlagCaseIgnoredExceptFile | pkg/validators.go:27 | flags differing only in ASCII case behave the same, except "-f" |
| Validators.UpperFileFlagIgnored | pkg/validators.go:47-55 | "-F name" changes nothing and reports no error, whereas "-f name" selects the file and stores the lowered, trimmed name |
| Output.FormatResult | pkg/output.go:11-25 | the line is empty exactly when the status is not one of the four codes, and with colour on a line starts with an escape sequence |
| Output.StripAnsi | pkg/output.go:37 | removing the colour sequences never lengthens a line |
| Output.StripAnsiKeepsPlainPrefix | pkg/output.go:37 | text without an escape character passes through the strip unchanged |
| Output.StripAnsiDropsSgr | pkg/output.go:34-37 | a colour sequence at the front is removed whole |
| Output.StripAnsiUnwraps | pkg/output.go:37 | stripping a coloured, escape-free text gives back the text |
| Output.StripAnsiUndoesPaint | pkg/output.go:34-37 | with colour on or off, stripping a coloured escape-free text gives back the text |
| Output.StripAnsiKeepsChars | pkg/output.go:37 | stripping only deletes characters: the result is a subsequence of the line, the rest kept in order |
| Output.StripAnsiIsOnePass | pkg/output.go:37 | the replacement is one pass: a match formed by a removal stays in the output |
| Output.FormatResultMeaning | pkg/output.go:11-25 | each of the four status codes gives the label with the port, that status name and the service, colour aside; any other code gives "" |
| Output.FormatResultTellsStatusApart | pkg/output.go:13-21 | different statuses give different labels for the same port and service |
| Output.RenderedSnoc | pkg/output.go:36-42 | appending a line appends its stripped text and one newline |
| Output.RenderedIsJoin | pkg/output.go:36-42 | what is appended is the stripped lines joined by newlines, with a final newline |
| Output.RenderedLines | pkg/output.go:36-42 | the appended text splits at newlines into the stripped lines in input order, plus the empty piece after the last newline |
| Output.WriteToFile | pkg/output.go:27-45 | a failed open writes nothing; otherwise the stripped lines are appended in order, each with one newline, up to the first failed write, which is reported |

## Left out

- net.ParseIP is a library call; the IP test is the parameter `isIp` of `ValidateArgs` and `ValidateIp`.
- GoText.Lower: lowers ASCII letters only, where strings.ToLower lowers all of Unicode. The flags are ASCII, and no non-ASCII letter lowers to a letter of any flag, so only stored file names with non-ASCII capitals differ.
- Output.WriteToFile: the file system is the parameters `openable` and `writeFails`, and a failed write is modelled as writing nothing of that line, where the operating system may write part of it; closing the file is not modelled.
- Output.FormatResult: the colour library is modelled by the SGR sequences it emits ("ESC[31m" ... "ESC[0m"), and whether colour is on is a parameter.
- Validators.ScanConfig.ValidatePort: leaves out the unreachable empty-slice check after the comma split (pkg/validators.go:189-191); the specification function `ParsePorts` keeps it and `GoText.Split` proves it cannot fire.
- The scans themselves (pkg/scan.go), the worker pool, progress bar and job dispatch (main.go), and the help text (pkg/helpMenu.go): network I/O, concurrency and fixed text printing.
- The `ScanExec` record (pkg/types.go:34-37) is used only by the worker pool.
