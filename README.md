# apcupsc: a verified model of the apcupsd client core

This project models the core of the Go package `apcupsc`, a client for
the apcupsd UPS daemon. It covers four operations:

- **Frame decoding** (`decodeLine`). Each reply line carries a two-byte
  big-endian length header. The header must equal the number of bytes
  received minus one, because the reader has already stripped the newline
  that the header counts. The one request the client sends, `status`, is
  framed without a newline.
- **Duration parsing** (`digestDuration`). The `TIMELEFT` value
  `<number> <unit>` becomes a `time.Duration` in nanoseconds.
- **The status fold and the metrics** (`ParseTarget`):
  - The reply is read line by line.
  - Lines that do not decode, or are shorter than eleven characters, are
    skipped.
  - The first line starting with `END APC` ends the read.
  - Every other line updates the `Target` record, or one of three values
    held aside (nominal power, load fraction, backup time), according to
    its nine-character key.
  - After the read, power, stored charge and backup minutes are derived by
    truncation.
- **The discovery sweep** (`Scan`). An IPv4 block gives the addresses from
  the one after the network address up to the broadcast address. Each is
  probed on the daemon's port, and the endpoints that answer are collected.

Modules, one per concern:

- `Wrappers`: `Option` and `Result`.
- `Numeric`: Go's int64 wrap-around, the saturation of `time.Time.Sub`,
  float-to-int conversion, and integer division toward zero, all written
  out on unbounded integers.
- `Text`: byte strings as `seq<char>`, `strings.Split` and `Join`,
  `strings.ToLower`, and `strconv.Atoi`.
- `Codec`: the line framing.
- `Durations`: `digestDuration`.
- `Status`: `ParseTarget`. Its read loop is a method with a loop invariant,
  proved equal to a fold function (`Run`). The per-key rules, the skip and
  sentinel rules and the metrics are lemmas about that function.
- `Bits`: `&`, `|` and `^` on w-bit unsigned values, defined bit by bit,
  with the facts an IPv4 netmask needs.
- `Scanner`: the CIDR bounds, the candidate enumeration, and the probing
  loop.

Library behaviour is taken as parameters of the `Status.Env` record:

- `strconv.ParseFloat`, as a function to `Option<real>`;
- `time.Parse` with the apcupsd layout, as a function to `Option<int>`
  (seconds);
- `formatTime`;
- `time.Duration.String`.

Whether a probe's dial succeeds within the timeout is a predicate
`responsive` on endpoints.

## Model

| member | source | states |
|---|---|---|
| Numeric.Wrap64 | apcupsc.go:225 | the int64 that two's-complement multiplication leaves: in range, congruent to the true value modulo 2^64, and equal to it when it fits |
| Numeric.Clamp64 | apcupsc.go:164 | `Time.Sub` saturation: in range, unchanged when it fits, the int64 bound on the side it overflows |
| Numeric.Trunc | apcupsc.go:179-182 | float-to-int conversion discards the fraction toward zero: the result lies within one of x and on x's side of zero |
| Numeric.Quot | apcupsc.go:180 | `backup / time.Minute` truncates toward zero: for non-negative a, q*b <= a < q*b+b; for negative a, the mirror bound |
| Text.ToText | apcupsc.go:200 | `string(b[2:])`: one character per byte, carrying the byte's value |
| Text.FromText | apcupsc.go:200 | inverse of ToText on byte strings |
| Text.ToTextInjective | apcupsc.go:200 | different byte slices give different strings |
| Text.Split | apcupsc.go:114 | `strings.Split`: at least one piece, no piece contains the separator, and joining the pieces with it gives back the input |
| Text.SplitNoSeparator | apcupsc.go:114 | a string without the separator splits into itself alone |
| Text.SplitAfterPiece | apcupsc.go:208 | a separator-free piece and the separator in front of t split into that piece followed by the split of t |
| Text.SplitUnique | apcupsc.go:208 | the split is the only separator-free list of pieces that joins to the string |
| Text.SplitJoin | apcupsc.go:114 | splitting the join of separator-free pieces gives back the pieces |
| Text.ToLower | apcupsc.go:213 | each ASCII capital is replaced by its small letter, every other byte kept; non-ASCII folding is left out |
| Text.DigitRun | apcupsc.go:133 | the leading run of decimal digits: all digits, and followed by a non-digit or the end |
| Text.DigitRunAt | apcupsc.go:133 | any digit run followed by a non-digit or the end is the leading run |
| Text.DigitsPrefixMonotone | apcupsc.go:133 | a longer digit prefix is worth at least as much, so an overflow, once reached, stays |
| Text.ScanFrom | apcupsc.go:133 | from any point of the leading digit run, the left-to-right scan ends as the run's value and what follows it decide |
| Text.ParseUint | apcupsc.go:133 | `strconv.ParseUint` base 10: empty text is a syntax error; a leading digit run above 2^64-1 is a range error whatever follows; any other non-digit is a syntax error; digits give their value |
| Text.Atoi | apcupsc.go:133 | `strconv.Atoi`: well-formed decimals give their value clamped to int64, with ok exactly when no clamp was needed; malformed text gives 0 and not ok, unless its leading digits already overflow, which gives the bound on the sign's side |
| Text.OverflowBeforeJunk | apcupsc.go:133 | digits above 2^64-1 followed by a non-digit give MaxInt64 and an error, not 0 |
| Text.NatDigits | apcupsc.go:133 | decimal rendering of a natural number is a non-empty digit string |
| Text.NatDigitsValue | apcupsc.go:133 | reading the rendering of n gives back n |
| Text.AtoiItoa | apcupsc.go:133 | round trip: Atoi of the decimal rendering of any int64 n is (n, ok) |
| Codec.Header | apcupsc.go:196 | the big-endian 16-bit header is below 65536 |
| Codec.DecodeLine | apcupsc.go:192-201 | fewer than two bytes gives TooShort, and only then; success exactly when the header is the length minus one, with the bytes after the header as the line; otherwise the error carries header, length and those bytes |
| Codec.LengthPrefix | apcupsc.go:94 | two header bytes that encode n |
| Codec.LengthPrefixUnique | apcupsc.go:196 | the header bytes are determined by the length they encode |
| Codec.DecodeResponseFrame | apcupsc.go:196-200 | round trip: the header of length+1 followed by a payload decodes to that payload |
| Codec.DecodedIsResponseFrame | apcupsc.go:196-200 | converse: every accepted frame is the response frame of the text it returns |
| Codec.RequestFrame | apcupsc.go:94 | a request frame is two bytes longer than its payload, with a header equal to the payload length |
| Codec.StatusCommandIsStatusRequest | apcupsc.go:94 | the status command is the request frame of `status` |
| Codec.StatusCommandIsNotAResponse | apcupsc.go:94 | the decoder refuses the request framing: header 6, length 8 |
| Durations.UnitFactor | apcupsc.go:212-220 | factor 60 exactly for `minutes` and 1 exactly for `seconds`, in any case; no factor otherwise |
| Durations.DigestDuration | apcupsc.go:204-226 | TextTooShort below 11 characters; TokenCount unless the value region splits into exactly two tokens; success exactly when the unit is recognised and the magnitude parses; every result fits in an int64 |
| Durations.ValueTokens | apcupsc.go:208 | the value region of key, magnitude, space, unit splits into exactly magnitude and unit |
| Durations.DigestValue | apcupsc.go:208-225 | an unrecognised unit is UnrecognizedUnit; a bad number is BadNumber; otherwise the result is trunc(factor*f) seconds whenever that fits |
| Durations.FifteenMinutes | apcupsc.go:204-225 | `TIMELEFT : 15.0 Minutes` is 900 s |
| Durations.ThirtySeconds | apcupsc.go:204-225 | `TIMELEFT : 30 Seconds` is 30 s |
| Durations.FurlongsRefused | apcupsc.go:218-219 | `TIMELEFT : 5 Furlongs` is UnrecognizedUnit, whatever ParseFloat returns |
| Status.Classify | apcupsc.go:99-113 | a line is skipped exactly when it fails to decode or decodes to fewer than 11 characters; it is the sentinel exactly when the decoded text is that long and starts with `END APC`; otherwise it is a field line holding the decoded text |
| Status.Tokens | apcupsc.go:114-117 | the split value region is never empty, so the `len(tokens) < 1` test never fires |
| Status.Elapsed | apcupsc.go:164-165 | the saturated duration is positive exactly when the later time is after the earlier one |
| Status.Apply | apcupsc.go:118-172 | a field line panics exactly on NOMPOWER with one token or XONBATT with fewer than three |
| Status.Finish | apcupsc.go:179-182 | backup minutes = the backup duration over a minute, truncated; power and charge are the truncations of nomPower*load and of nomPower*load*minutes/60; the other fields are the record's |
| Status.ParseTarget | apcupsc.go:96-184 | the mutating read loop returns what the fold Parse defines |
| Status.OnlyOwnPartsChange | apcupsc.go:118-172 | nothing else changes: a field line changes only the record fields and held-aside values that its key's case assigns |
| Status.UnknownKeyIgnored | apcupsc.go:170-171 | a line whose key has no case, `END APC  ` included, changes nothing |
| Status.StatusRule | apcupsc.go:128-129 | offline exactly when the first token is not `ONLINE` |
| Status.BChargeRule | apcupsc.go:134-135 | charged exactly when the first token is the string `100.0` |
| Status.UpsNameRule | apcupsc.go:148-149 | the name is the first token |
| Status.LineVRule | apcupsc.go:142-146 | ignored unless there are exactly two tokens with unit `Volts`; then the parsed number, or 0 when it does not parse |
| Status.LoadPctRule | apcupsc.go:136-141 | ignored unless there are exactly two tokens with unit `Percent`; then the load is the parsed number over 100, or 0 |
| Status.NomPowerRule | apcupsc.go:119-127 | with two or more tokens: `Watts` is checked only when there are more than two; the nominal power is Atoi's value when Atoi succeeds; otherwise nothing changes |
| Status.NumXfersRule | apcupsc.go:132-133 | the transfer count is Atoi's value even on error: a decimal count clamped to int64, and 0 for a garbled count whose leading digits do not overflow |
| Status.NumXfersOverflow | apcupsc.go:132-133 | a count whose digits pass 2^64-1 before junk is stored as MaxInt64 |
| Status.TimeLeftRule | apcupsc.go:130-131 | backup is digestDuration's value, or 0 when it fails |
| Status.XOnBattRule | apcupsc.go:150-155 | a parsed stamp sets lastOnBattery and its rendering; a failed parse resets lastOnBattery to the zero time and keeps lastOutage |
| Status.XOffBattRule | apcupsc.go:156-169 | lasted and its rendering are set only with three tokens, a parsed stamp and a strictly positive delta; otherwise both are kept |
| Status.ApplyIdempotent | apcupsc.go:118-172 | applying a field line twice is applying it once |
| Status.OutagePairing | apcupsc.go:150-169 | XONBATT at t0 then XOFFBATT at t1 records Elapsed(t1, t0) when t1 > t0, which is exactly (t1-t0) s when that fits, and otherwise keeps the previous outage |
| Status.RunAccumulate | apcupsc.go:98-173 | running over lines that neither end the read nor panic equals the reference fold of those lines, then running the rest |
| Status.ParseComplete | apcupsc.go:98-184 | when the first stopping line is the sentinel, the result is the metrics over the fold of the lines before it |
| Status.ParseIncomplete | apcupsc.go:175-177 | a finite reply without the sentinel and without a panicking line is Incomplete |
| Status.ParsePanics | apcupsc.go:118-155 | when the first stopping line panics, the query fails with IndexPanic |
| Status.NoSentinelNoRecord | apcupsc.go:110-113 | without a sentinel line no reply ever yields a record |
| Status.SkippedLineInvisible | apcupsc.go:99-109 | inserting a skipped line anywhere changes nothing |
| Status.SentinelEndsRead | apcupsc.go:110-113 | lines after the sentinel are never consumed |
| Status.ClassifyLine | apcupsc.go:103-113 | a framed text is classified by its length and prefix alone |
| Status.FieldLineParts | apcupsc.go:114-118 | key, `: ` and space-separated tokens give back that key and those tokens |
| Status.FieldLineRead | apcupsc.go:103-118 | such a line, once framed, is read as a field line with that key and those tokens |
| Status.NomPowerText | apcupsc.go:114-118 | `NOMPOWER : 900 Watts` is a field line with tokens 900, Watts |
| Status.LoadPctText | apcupsc.go:114-118 | `LOADPCT  : 5.0 Percent` is a field line with tokens 5.0, Percent |
| Status.TimeLeftText | apcupsc.go:114-118 | `TIMELEFT : 10.0 Minutes` is a field line with tokens 10.0, Minutes |
| Status.WorkedNomPower | apcupsc.go:119-127 | 900 Watts sets the nominal power to 900 and nothing else |
| Status.WorkedLoadPct | apcupsc.go:136-141 | 5.0 Percent sets the load fraction to 0.05 and nothing else |
| Status.WorkedTimeLeft | apcupsc.go:130-131 | 10.0 Minutes sets backup to 600 s and nothing else |
| Status.RunThreeFields | apcupsc.go:98-184 | three field lines then the sentinel give the metrics of the three applied in order |
| Status.WorkedRecord | apcupsc.go:98-173 | the worked reply leaves 900 W, 0.05 and 600 s held aside |
| Status.WorkedMetrics | apcupsc.go:179-182 | from 900 W, 0.05 and 600 s: power 45, backup 10, charge 7 (truncated from 7.5) |
| Status.WorkedReply | apcupsc.go:98-184 | the whole worked reply yields power 45, backup 10, charge 7 |
| Status.AsWrittenNeverExhausts | apcupsc.go:98-102 | the loop as written never ends by running out of lines |
| Status.IncompleteUnreachableAsWritten | apcupsc.go:175-177 | as written, ErrIncomplete is never returned |
| Status.EmptyReplyAsWritten | apcupsc.go:99-102 | an empty reply spins forever as written, and is Incomplete in the model |
| Status.AsWrittenAgreesWhenItStops | apcupsc.go:98-173 | wherever the loop as written stops, it agrees with the model |
| Bits.NetworkPart | apcupsc.go:243 | `x & mask`, for w-k ones over k zeros, is x rounded down to a multiple of 2^k |
| Bits.BroadcastPart | apcupsc.go:243 | `(x & mask) \| ^mask`, for an aligned x, is x + 2^k - 1 |
| Scanner.CidrMask | apcupsc.go:241 | the /ones mask is 2^32 - 2^(32-ones) |
| Scanner.FirstIsNetworkAddress | apcupsc.go:242 | the masked IP is the IP rounded down to a multiple of the block size |
| Scanner.LastIsBroadcast | apcupsc.go:243 | from an aligned network address, last is network address + block size - 1 |
| Scanner.HostRange | apcupsc.go:241-243 | the block's bounds are its network address and its broadcast address |
| Scanner.SingleAddress | apcupsc.go:241-243 | a /32 block is its own network and broadcast address |
| Scanner.InvertedMask | apcupsc.go:243 | `^mask` is the block size minus one |
| Scanner.Candidates | apcupsc.go:255 | last - first addresses, the i-th being first + 1 + i |
| Scanner.CandidateMembership | apcupsc.go:255 | an address is a candidate exactly when it is after first and at most last |
| Scanner.CandidateCount | apcupsc.go:255 | `^mask` candidates, all distinct; broadcast is among them exactly when the prefix is shorter than 32, so a /32 has none |
| Scanner.RespondersExactlyOnce | apcupsc.go:255-270 | each responsive endpoint of the range is collected exactly once, and nothing else is |
| Scanner.RespondersFront | apcupsc.go:255-270 | the probes are collected from the lowest address up |
| Scanner.Probe | apcupsc.go:255-270 | the probing loop collects exactly the responders of first+1 .. last |
| Scanner.Bounds | apcupsc.go:241-243 | first is the network address, last + 1 is the network address plus the block size, within 2^32 |
| Scanner.ReportedExactlyOnce | apcupsc.go:255-270 | the responders of a block's candidates are its reported endpoints, each once |
| Scanner.Scan | apcupsc.go:235-276 | an unparseable or non-IPv4 network gives nothing; otherwise every responsive candidate appears exactly once and nothing else does |
| Scanner.FoundAreRespondingCandidates | apcupsc.go:255-270 | as a set, the scan's result is the candidates that answer on the port |
| Scanner.Increment | apcupsc.go:255 | `n++` on uint32 adds one, and wraps from 2^32-1 to 0 |
| Scanner.TopBlockNeverEndsAsWritten | apcupsc.go:255 | with last = 255.255.255.255 the uint32 loop never ends, however long it runs |
| Scanner.TopBlockExample | apcupsc.go:241-243 | 255.255.255.0/24 is such a block: its last address is 2^32-1 |
| Scanner.AsWrittenAgreesBelowTop | apcupsc.go:255 | below the top address, the uint32 loop ends and probes exactly what Probe does |

## Left out

- Network I/O is left out: `dialTimeout`, the connection's write, `Close` and the deadline. The model starts from the status request (`Codec.StatusCommand`) and the finite sequence of lines the reader returns.
- `bufio.Reader.ReadLine` is left out.
  - The model takes its output as given: lines with the newline stripped.
  - A header byte of 0x0a, which would split a frame, and the `isPrefix` continuation are not modelled.
  - So the retry on a read error does not appear either. Reaching the end of the line sequence stands for the stream ending.
- Goroutines, the wait groups and the channel collector in `Scan` are left out, and so is the collection order. The result is specified as a multiset, and `Scanner.Probe` collects in ascending order.
- `net.ParseCIDR` is left out. The network string enters as the `Scanner.Network` datatype: unparseable, not IPv4, or an IPv4 address and prefix length.
- `net.IP.String` and `fmt.Sprint` of `address:port` are left out. An endpoint is the pair of a 32-bit address and a port.
- `APCUPSDPort` is a parameter of `Scan`; `DefaultPort` holds its initial value.
- Time parsing, formatting, `TimeLocation` and `time.Duration.String` are functions in `Status.Env`.
  - Timestamps are whole seconds since Go's zero time.
  - A failed parse yields the zero time, as `time.Parse` does.
- Floating point is left out.
  - `strconv.ParseFloat` is a function to reals, and the float multiplications and divisions are exact real arithmetic.
  - A float-to-int conversion out of the int64 range, which Go leaves to the implementation, is modelled as truncation on unbounded integers.
- Text.ToLower: folds ASCII letters only; Go's folding of non-ASCII text through `unicode.ToLower` is not modelled. That folding can change the byte length and can even produce ASCII: U+0130 folds to `i`, so Go reads the unit `MİNUTES` as minutes, while the model refuses it as UnrecognizedUnit.
- Status.Finish: states the truncation bounds of power and charge only where the product is non-negative. For a negative product the function still computes Go's truncation toward zero.
- An index out of range in the Go loop is a panic that nothing recovers, so the program dies. The model represents it as the error value `IndexPanic` returned by `Parse` and `ParseTarget`.
- The flag parsing and fan-out program under `examples/` is not part of this model.
- The charge for 900 Watts, 5.0 Percent and 10.0 Minutes is 7, because the code truncates 7.5; rounding would give 8. The model follows the code.
- `Status.WorkedReply` takes as its last line any line of at least eleven characters that starts with `END APC`. No literal line is needed, since the sentinel is recognised by its prefix alone.

## Findings

| source | as written | input that shows it | evidently intended | confidence | as-written member | corrected member |
|---|---|---|---|---|---|---|
| apcupsc.go:98-102 | the read loop's only exit is the `END APC` break. A failed ReadLine, as at end of stream, is retried with `continue` forever, so the `ErrIncomplete` return at apcupsc.go:175-177 is unreachable | a reply that closes without an `END APC` line, e.g. the empty reply | a stream that ends without the sentinel returns ErrIncomplete | not executed | Status.IncompleteUnreachableAsWritten | Status.ParseIncomplete |
| apcupsc.go:255 | the loop counter is a uint32. When last is 255.255.255.255, `n <= last` always holds and `n++` wraps to 0, so the loop never ends | the network `255.255.255.0/24`, `0.0.0.0/0`, or `255.255.255.255/32`, where `first + 1` already wraps to 0 | the sweep ends after probing the broadcast address | not executed | Scanner.TopBlockNeverEndsAsWritten | Scanner.Probe |
