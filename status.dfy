/**
 * ParseTarget: the status parser and the metric calculator. The client
 * reads the daemon's reply one line at a time, decodes each line, skips the
 * ones it cannot use, folds the recognised key/value lines into a Target
 * record and three values held aside (nominal power, load fraction, backup
 * time), stops at the first line that starts with "END APC", and then
 * derives power, charge and backup minutes.
 *
 * The reply is a finite sequence of lines as bufio.Reader.ReadLine returns
 * them (newline stripped); reaching its end means the attempt is abandoned.
 */
module Status {
  import opened Wrappers
  import opened Numeric
  import opened Text
  import opened Codec
  import opened Durations

  /** The library calls the parser makes, taken as parameters. */
  datatype Env = Env(
    /** strconv.ParseFloat; None is a syntax error, for which Go returns 0. */
    parseFloat: string -> Option<real>,
    /** time.Parse with the apcupsd layout, in seconds since Go's zero time. */
    parseTime: string -> Option<int>,
    /** formatTime: the timestamp rendered in TimeLocation. */
    formatTime: int -> string,
    /** time.Duration.String. */
    formatDuration: int -> string)

  /** Go's zero time.Time, which time.Parse also returns on failure. */
  const ZeroTime: int := 0

  /** The record a query produces. Durations are in nanoseconds, timestamps in seconds. */
  datatype Target = Target(
    power: int,
    charge: int,
    backup: int,
    charged: bool,
    offline: bool,
    name: string,
    lineV: real,
    xFers: int,
    lastOnBattery: int,
    lastOutage: string,
    lasted: int,
    duration: string)

  /** `&Target{}`. */
  const EmptyTarget := Target(0, 0, 0, false, false, "", 0.0, 0, ZeroTime, "", 0, "")

  /** What the loop carries from line to line: the record and the three values held aside. */
  datatype Reading = Reading(target: Target, nomPower: real, load: real, backup: int)

  const Start := Reading(EmptyTarget, 0.0, 0.0, 0)

  // ---------------------------------------------------------------------
  // One line

  /** What the loop does with one line read from the connection. */
  datatype LineKind = Skip | Sentinel | Field(text: string)

  const SentinelPrefix := "END APC"

  /**
   * A line that does not decode, or decodes to fewer than eleven
   * characters, is skipped; a decoded line starting with "END APC" ends the
   * read; any other decoded line is a field line.
   */
  function Classify(line: seq<byte>): (k: LineKind)
    ensures k == Skip <==> DecodeLine(line).Err? || |DecodeLine(line).value| < 11
    ensures k == Sentinel <==>
      DecodeLine(line).Ok? && |DecodeLine(line).value| >= 11 && SentinelPrefix <= DecodeLine(line).value
    ensures k.Field? ==>
      DecodeLine(line) == Ok(k.text) && |k.text| >= 11 && !(SentinelPrefix <= k.text)
  {
    match DecodeLine(line)
    case Err(_) => Skip
    case Ok(unpacked) =>
      if |unpacked| < 11 then Skip
      else if SentinelPrefix <= unpacked then Sentinel
      else Field(unpacked)
  }

  /** The fixed-width key, `unpacked[:9]`. */
  function Key(u: string): string
    requires |u| >= 11
  {
    u[..9]
  }

  /** The value region after the key and ": ", split on single spaces. */
  function Tokens(u: string): (tokens: seq<string>)
    requires |u| >= 11
    ensures |tokens| >= 1
  {
    Split(u[11..], ' ')
  }

  /**
   * The field lines on which the Go code indexes past the end of the token
   * slice and panics: NOMPOWER with one token (the guard joins its two tests
   * with && and then reads tokens[1]), and XONBATT with fewer than three
   * (tokens[0:3]; a slice from strings.Split has no spare capacity).
   */
  predicate Panics(u: string)
    requires |u| >= 11
  {
    (Key(u) == "NOMPOWER " && |Tokens(u)| == 1) || (Key(u) == "XONBATT  " && |Tokens(u)| < 3)
  }

  /** The outcome of one field line. */
  datatype Step = Next(reading: Reading) | Panic

  /**
   * Time.Sub in nanoseconds, which saturates at the int64 bounds.
   */
  function Elapsed(later: int, earlier: int): (d: int)
    ensures InInt64(d)
    ensures d > 0 <==> later > earlier
  {
    Clamp64((later - earlier) * Second)
  }

  /** The timestamp in the first three tokens, joined with spaces as parseTime does. */
  function StampOf(env: Env, tokens: seq<string>): Option<int>
    requires |tokens| >= 3
  {
    env.parseTime(Join(tokens[..3], ' '))
  }

  /** The switch on the key of one field line (a `break` or `continue` there leaves r as it is). */
  function Apply(env: Env, r: Reading, u: string): (s: Step)
    requires |u| >= 11
    ensures s == Panic <==> Panics(u)
  {
    var key := Key(u);
    var tokens := Tokens(u);
    if key == "NOMPOWER " then NomPowerLine(r, tokens)
    else if key == "STATUS   " then Next(r.(target := r.target.(offline := tokens[0] != "ONLINE")))
    else if key == "TIMELEFT " then Next(r.(backup := BackupOf(env, u)))
    else if key == "NUMXFERS " then Next(r.(target := r.target.(xFers := Atoi(tokens[0]).value)))
    else if key == "BCHARGE  " then Next(r.(target := r.target.(charged := tokens[0] == "100.0")))
    else if key == "LOADPCT  " then LoadPctLine(env, r, tokens)
    else if key == "LINEV    " then LineVLine(env, r, tokens)
    else if key == "UPSNAME  " then Next(r.(target := r.target.(name := tokens[0])))
    else if key == "XONBATT  " then XOnBattLine(env, r, tokens)
    else if key == "XOFFBATT " then XOffBattLine(env, r, tokens)
    else Next(r)  // every other key, "END APC  " included, is ignored
  }

  function NomPowerLine(r: Reading, tokens: seq<string>): Step
    requires |tokens| >= 1
  {
    if |tokens| == 1 then Panic  // the guard's `tokens[1]`
    else if |tokens| != 2 && tokens[1] != "Watts" then Next(r)
    else
      var p := Atoi(tokens[0]);
      if !p.ok then Next(r) else Next(r.(nomPower := p.value as real))
  }

  /** `backup, _ = digestDuration(unpacked)`: the error is dropped and the zero Duration kept. */
  function BackupOf(env: Env, u: string): int {
    var d := DigestDuration(env.parseFloat, u);
    if d.Ok? then d.value else 0
  }

  /** The value strconv.ParseFloat returns, 0 on a syntax error. */
  function FloatOf(env: Env, token: string): real {
    var p := env.parseFloat(token);
    if p.Some? then p.value else 0.0
  }

  function LoadPctLine(env: Env, r: Reading, tokens: seq<string>): Step
    requires |tokens| >= 1
  {
    if |tokens| != 2 || tokens[1] != "Percent" then Next(r)
    else Next(r.(load := FloatOf(env, tokens[0]) / 100.0))
  }

  function LineVLine(env: Env, r: Reading, tokens: seq<string>): Step
    requires |tokens| >= 1
  {
    if |tokens| != 2 || tokens[1] != "Volts" then Next(r)
    else Next(r.(target := r.target.(lineV := FloatOf(env, tokens[0]))))
  }

  function XOnBattLine(env: Env, r: Reading, tokens: seq<string>): Step
    requires |tokens| >= 1
  {
    if |tokens| < 3 then Panic  // `tokens[0:3]`
    else match StampOf(env, tokens)
      case None => Next(r.(target := r.target.(lastOnBattery := ZeroTime)))
      case Some(w) => Next(r.(target := r.target.(lastOnBattery := w, lastOutage := env.formatTime(w))))
  }

  function XOffBattLine(env: Env, r: Reading, tokens: seq<string>): Step
    requires |tokens| >= 1
  {
    if |tokens| < 3 then Next(r)
    else match StampOf(env, tokens)
      case None => Next(r)
      case Some(w) =>
        var d := Elapsed(w, r.target.lastOnBattery);
        if d <= 0 then Next(r)
        else Next(r.(target := r.target.(lasted := d, duration := env.formatDuration(d))))
  }

  // ---------------------------------------------------------------------
  // The whole reply

  /** How a read ends. */
  datatype Ending = Exhausted | SawSentinel | Panicked

  /** The loop over the reply, from state r: the state it leaves and how it ended. */
  function Run(env: Env, r: Reading, lines: seq<seq<byte>>): (Reading, Ending)
    decreases |lines|
  {
    if |lines| == 0 then (r, Exhausted)
    else match Classify(lines[0])
      case Skip => Run(env, r, lines[1..])
      case Sentinel => (r, SawSentinel)
      case Field(u) =>
        match Apply(env, r, u)
        case Panic => (r, Panicked)
        case Next(r') => Run(env, r', lines[1..])
  }

  /** The metric calculator: computed once, after the read, by truncation. */
  function Finish(r: Reading): (t: Target)
    ensures t.backup == Quot(r.backup, Minute)
    ensures r.backup >= 0 ==> t.backup * Minute <= r.backup < (t.backup + 1) * Minute
    ensures r.nomPower * r.load >= 0.0 ==>
      t.power >= 0 && t.power as real <= r.nomPower * r.load < t.power as real + 1.0
    ensures r.nomPower * r.load * (t.backup as real) >= 0.0 ==>
      t.charge >= 0 && t.charge as real * 60.0 <= r.nomPower * r.load * (t.backup as real) < (t.charge as real + 1.0) * 60.0
    ensures t == r.target.(power := t.power, charge := t.charge, backup := t.backup)
  {
    var mins := Quot(r.backup, Minute);
    r.target.(power := Trunc(r.nomPower * r.load),
              charge := Trunc(r.nomPower * r.load * (mins as real) / 60.0),
              backup := mins)
  }

  datatype ParseError = Incomplete | IndexPanic

  /** ParseTarget on an already-connected reply. */
  function Parse(env: Env, lines: seq<seq<byte>>): Result<Target, ParseError> {
    var (r, ending) := Run(env, Start, lines);
    match ending
    case SawSentinel => Ok(Finish(r))
    case Exhausted => Err(Incomplete)
    case Panicked => Err(IndexPanic)
  }

  /**
   * ParseTarget's read loop and post-processing, after the status request
   * has been written. The Go loop mutates the record and the locals
   * nomPower, load, backup and fullRead; so does this one, with the switch
   * on the key taken from Apply.
   */
  method ParseTarget(env: Env, lines: seq<seq<byte>>) returns (res: Result<Target, ParseError>)
    ensures res == Parse(env, lines)
  {
    var nomPower, load := 0.0, 0.0;
    var backup := 0;
    var t := EmptyTarget;
    var fullRead := false;
    var i := 0;
    while i < |lines|
      invariant 0 <= i <= |lines|
      invariant !fullRead
      invariant Run(env, Start, lines) == Run(env, Reading(t, nomPower, load, backup), lines[i..])
    {
      var line := lines[i];
      assert lines[i..][1..] == lines[i + 1..];
      i := i + 1;
      var decoded := DecodeLine(line);
      if decoded.Err? {
        continue;
      }
      var unpacked := decoded.value;
      if |unpacked| < 11 {
        continue;
      }
      if SentinelPrefix <= unpacked {
        fullRead := true;
        break;
      }
      match Apply(env, Reading(t, nomPower, load, backup), unpacked)
      case Panic =>
        // An index past the end of the token slice: the goroutine panics.
        return Err(IndexPanic);
      case Next(r) =>
        t, nomPower, load, backup := r.target, r.nomPower, r.load, r.backup;
    }

    if !fullRead {
      return Err(Incomplete);
    }

    var r := Reading(t, nomPower, load, backup);
    t := Finish(r);
    res := Ok(t);
  }

  // ---------------------------------------------------------------------
  // The per-key rules

  /**
   * r with the parts that key's case assigns taken from r' and everything
   * else kept: the record fields and held-aside values each case may write.
   */
  function Overwrite(key: string, r: Reading, r': Reading): Reading {
    var t, t' := r.target, r'.target;
    if key == "NOMPOWER " then r.(nomPower := r'.nomPower)
    else if key == "STATUS   " then r.(target := t.(offline := t'.offline))
    else if key == "TIMELEFT " then r.(backup := r'.backup)
    else if key == "NUMXFERS " then r.(target := t.(xFers := t'.xFers))
    else if key == "BCHARGE  " then r.(target := t.(charged := t'.charged))
    else if key == "LOADPCT  " then r.(load := r'.load)
    else if key == "LINEV    " then r.(target := t.(lineV := t'.lineV))
    else if key == "UPSNAME  " then r.(target := t.(name := t'.name))
    else if key == "XONBATT  " then r.(target := t.(lastOnBattery := t'.lastOnBattery, lastOutage := t'.lastOutage))
    else if key == "XOFFBATT " then r.(target := t.(lasted := t'.lasted, duration := t'.duration))
    else r
  }

  /** Nothing else changes: a field line changes only the parts its key's case assigns. */
  lemma OnlyOwnPartsChange(env: Env, r: Reading, u: string)
    requires |u| >= 11 && !Panics(u)
    ensures Apply(env, r, u).reading == Overwrite(Key(u), r, Apply(env, r, u).reading)
  {
    var key := Key(u);
    if key == "NOMPOWER " {
    } else if key == "STATUS   " {
    } else if key == "TIMELEFT " {
    } else if key == "NUMXFERS " {
    } else if key == "BCHARGE  " {
    } else if key == "LOADPCT  " {
    } else if key == "LINEV    " {
    } else if key == "UPSNAME  " {
    } else if key == "XONBATT  " {
    } else if key == "XOFFBATT " {
    }
  }

  /** The keys the switch has a case for. */
  const FieldKeys: set<string> := {
    "NOMPOWER ", "STATUS   ", "TIMELEFT ", "NUMXFERS ", "BCHARGE  ",
    "LOADPCT  ", "LINEV    ", "UPSNAME  ", "XONBATT  ", "XOFFBATT "
  }

  /** In particular a line whose key has no case changes nothing. */
  lemma UnknownKeyIgnored(env: Env, r: Reading, u: string)
    requires |u| >= 11 && Key(u) !in FieldKeys
    ensures Apply(env, r, u) == Next(r)
  {
  }

  /** STATUS: offline unless the first token is exactly ONLINE. */
  lemma StatusRule(env: Env, r: Reading, u: string)
    requires |u| >= 11 && Key(u) == "STATUS   "
    ensures Apply(env, r, u).Next?
    ensures Apply(env, r, u).reading.target.offline <==> Tokens(u)[0] != "ONLINE"
  {
  }

  /** BCHARGE: charged exactly when the first token is the string "100.0". */
  lemma BChargeRule(env: Env, r: Reading, u: string)
    requires |u| >= 11 && Key(u) == "BCHARGE  "
    ensures Apply(env, r, u).Next?
    ensures Apply(env, r, u).reading.target.charged <==> Tokens(u)[0] == "100.0"
  {
  }

  /** UPSNAME: the first token is the name. */
  lemma UpsNameRule(env: Env, r: Reading, u: string)
    requires |u| >= 11 && Key(u) == "UPSNAME  "
    ensures Apply(env, r, u).Next?
    ensures Apply(env, r, u).reading.target.name == Tokens(u)[0]
  {
  }

  /**
   * LINEV: ignored unless the value is exactly "<number> Volts"; then the
   * number, or 0 when it does not parse.
   */
  lemma LineVRule(env: Env, r: Reading, u: string)
    requires |u| >= 11 && Key(u) == "LINEV    "
    ensures Apply(env, r, u).Next?
    ensures |Tokens(u)| != 2 || Tokens(u)[1] != "Volts" ==> Apply(env, r, u) == Next(r)
    ensures |Tokens(u)| == 2 && Tokens(u)[1] == "Volts" ==>
      Apply(env, r, u).reading.target.lineV ==
        (if env.parseFloat(Tokens(u)[0]).Some? then env.parseFloat(Tokens(u)[0]).value else 0.0)
  {
  }

  /**
   * LOADPCT: ignored unless the value is exactly "<number> Percent"; then the
   * load fraction is the number over 100, or 0 when it does not parse.
   */
  lemma LoadPctRule(env: Env, r: Reading, u: string)
    requires |u| >= 11 && Key(u) == "LOADPCT  "
    ensures Apply(env, r, u).Next?
    ensures |Tokens(u)| != 2 || Tokens(u)[1] != "Percent" ==> Apply(env, r, u) == Next(r)
    ensures |Tokens(u)| == 2 && Tokens(u)[1] == "Percent" ==>
      Apply(env, r, u).reading.load * 100.0 ==
        (if env.parseFloat(Tokens(u)[0]).Some? then env.parseFloat(Tokens(u)[0]).value else 0.0)
  {
  }

  /**
   * NOMPOWER: with exactly two tokens the unit is never looked at; with
   * more, the second must be Watts; a first token that is not an integer
   * leaves the nominal power as it was.
   */
  lemma NomPowerRule(env: Env, r: Reading, u: string)
    requires |u| >= 11 && Key(u) == "NOMPOWER " && |Tokens(u)| >= 2
    ensures Apply(env, r, u).Next?
    ensures var accepted := (|Tokens(u)| == 2 || Tokens(u)[1] == "Watts") && Atoi(Tokens(u)[0]).ok;
      && (accepted ==> Apply(env, r, u).reading.nomPower == Atoi(Tokens(u)[0]).value as real)
      && (!accepted ==> Apply(env, r, u) == Next(r))
  {
  }

  /**
   * NUMXFERS: Atoi's value even on error. A decimal count is kept, clamped to
   * the int64 range; a garbled count becomes 0, unless its leading digits
   * already overflow, in which case it becomes the int64 bound.
   */
  lemma NumXfersRule(env: Env, r: Reading, u: string)
    requires |u| >= 11 && Key(u) == "NUMXFERS "
    ensures Apply(env, r, u).Next?
    ensures Apply(env, r, u).reading.target.xFers == Atoi(Tokens(u)[0]).value
    ensures IsIntSyntax(Tokens(u)[0]) ==>
      Apply(env, r, u).reading.target.xFers == Clamp64(SignedValue(Tokens(u)[0]))
    ensures !IsIntSyntax(Tokens(u)[0]) && !LeadingOverflow(Magnitude(Tokens(u)[0])) ==>
      Apply(env, r, u).reading.target.xFers == 0
  {
  }

  /** A count whose digits pass 2^64 - 1 before any junk is stored as MaxInt64, not 0. */
  lemma NumXfersOverflow(env: Env, r: Reading, u: string, digits: string, junk: string)
    requires |u| >= 11 && Key(u) == "NUMXFERS " && Tokens(u)[0] == digits + junk
    requires |digits| > 0 && AllDigits(digits) && DigitsValue(digits) > MaxUint64
    requires |junk| > 0 && !IsDigit(junk[0])
    ensures Apply(env, r, u).reading.target.xFers == Int64Max
  {
    NumXfersRule(env, r, u);
    OverflowBeforeJunk(digits, junk);
  }

  /** TIMELEFT: the whole line through digestDuration, 0 when that fails. */
  lemma TimeLeftRule(env: Env, r: Reading, u: string)
    requires |u| >= 11 && Key(u) == "TIMELEFT "
    ensures Apply(env, r, u).Next?
    ensures DigestDuration(env.parseFloat, u).Err? ==> Apply(env, r, u).reading.backup == 0
    ensures DigestDuration(env.parseFloat, u).Ok? ==>
      Apply(env, r, u).reading.backup == DigestDuration(env.parseFloat, u).value
  {
  }

  /**
   * XONBATT: a timestamp that parses becomes lastOnBattery and its rendering
   * lastOutage; one that does not resets lastOnBattery to the zero time and
   * leaves lastOutage as it was.
   */
  lemma XOnBattRule(env: Env, r: Reading, u: string)
    requires |u| >= 11 && Key(u) == "XONBATT  " && |Tokens(u)| >= 3
    ensures Apply(env, r, u).Next?
    ensures var t' := Apply(env, r, u).reading.target;
      match StampOf(env, Tokens(u))
      case None => t'.lastOnBattery == ZeroTime && t'.lastOutage == r.target.lastOutage
      case Some(w) => t'.lastOnBattery == w && t'.lastOutage == env.formatTime(w)
  {
  }

  /**
   * XOFFBATT: lasted and its rendering are set only when there are three
   * tokens, they parse, and the time since lastOnBattery is strictly positive.
   */
  lemma XOffBattRule(env: Env, r: Reading, u: string)
    requires |u| >= 11 && Key(u) == "XOFFBATT "
    ensures Apply(env, r, u).Next?
    ensures var t' := Apply(env, r, u).reading.target;
      if |Tokens(u)| >= 3 && StampOf(env, Tokens(u)).Some? &&
         StampOf(env, Tokens(u)).value > r.target.lastOnBattery
      then
        var d := Elapsed(StampOf(env, Tokens(u)).value, r.target.lastOnBattery);
        d > 0 && t'.lasted == d && t'.duration == env.formatDuration(d)
      else t'.lasted == r.target.lasted && t'.duration == r.target.duration
  {
  }

  /** Every field line is an assignment from the line alone: reading it twice is reading it once. */
  lemma ApplyIdempotent(env: Env, r: Reading, u: string)
    requires |u| >= 11 && !Panics(u)
    ensures Apply(env, Apply(env, r, u).reading, u) == Apply(env, r, u)
  {
    var key := Key(u);
    if key == "NOMPOWER " {
    } else if key == "STATUS   " {
    } else if key == "TIMELEFT " {
    } else if key == "NUMXFERS " {
    } else if key == "BCHARGE  " {
    } else if key == "LOADPCT  " {
    } else if key == "LINEV    " {
    } else if key == "UPSNAME  " {
    } else if key == "XONBATT  " {
    } else if key == "XOFFBATT " {
    }
  }

  /**
   * Outage pairing: an XONBATT at t0 followed by an XOFFBATT at t1 records
   * the outage's length when t1 is later than t0, and otherwise leaves the
   * previous outage length in place.
   */
  lemma OutagePairing(env: Env, r: Reading, on: string, off: string, t0: int, t1: int)
    requires |on| >= 11 && Key(on) == "XONBATT  " && |Tokens(on)| >= 3 && StampOf(env, Tokens(on)) == Some(t0)
    requires |off| >= 11 && Key(off) == "XOFFBATT " && |Tokens(off)| >= 3 && StampOf(env, Tokens(off)) == Some(t1)
    ensures Apply(env, r, on).Next? && Apply(env, Apply(env, r, on).reading, off).Next?
    ensures var t' := Apply(env, Apply(env, r, on).reading, off).reading.target;
      && t'.lastOnBattery == t0
      && (t1 > t0 ==> t'.lasted == Elapsed(t1, t0) > 0)
      && (t1 > t0 && InInt64((t1 - t0) * Second) ==> t'.lasted == (t1 - t0) * Second)
      && (t1 <= t0 ==> t'.lasted == r.target.lasted && t'.duration == r.target.duration)
  {
    XOnBattRule(env, r, on);
    XOffBattRule(env, Apply(env, r, on).reading, off);
  }

  // ---------------------------------------------------------------------
  // The reply as a whole

  predicate IsSentinel(line: seq<byte>) {
    Classify(line) == Sentinel
  }

  predicate IsPanicLine(line: seq<byte>) {
    Classify(line).Field? && Panics(Classify(line).text)
  }

  /** A line that neither ends the read nor panics. */
  predicate Harmless(line: seq<byte>) {
    !IsSentinel(line) && !IsPanicLine(line)
  }

  /**
   * Reference fold: every field line of the reply applied in order, oldest
   * first, with no notion of where the read stops.
   */
  function Accumulate(env: Env, r: Reading, lines: seq<seq<byte>>): Reading
    decreases |lines|
  {
    if |lines| == 0 then r
    else
      var before := Accumulate(env, r, lines[..|lines| - 1]);
      match Classify(lines[|lines| - 1])
      case Field(u) => (match Apply(env, before, u) case Next(r') => r' case Panic => before)
      case _ => before
  }

  /** Running over harmless lines is accumulating them. */
  lemma {:induction false} RunAccumulate(env: Env, r: Reading, pre: seq<seq<byte>>, rest: seq<seq<byte>>)
    requires forall i :: 0 <= i < |pre| ==> Harmless(pre[i])
    ensures Run(env, r, pre + rest) == Run(env, Accumulate(env, r, pre), rest)
    decreases |pre|
  {
    if |pre| > 0 {
      var front, x := pre[..|pre| - 1], pre[|pre| - 1];
      assert pre + rest == front + ([x] + rest);
      RunAccumulate(env, r, front, [x] + rest);
      assert ([x] + rest)[1..] == rest;
      assert Harmless(x);
      var before := Accumulate(env, r, front);
      assert pre[..|pre| - 1] == front;
      assert Accumulate(env, r, pre) == match Classify(x)
        case Field(u) => (match Apply(env, before, u) case Next(r') => r' case Panic => before)
        case _ => before;
      assert Run(env, before, [x] + rest) == Run(env, Accumulate(env, r, pre), rest);
    } else {
      assert pre + rest == rest;
    }
  }

  /**
   * A complete read: when the k-th line is the first that ends the read or
   * panics, and it is the sentinel, the result is the metric calculation over
   * the fold of the lines before it.
   */
  lemma ParseComplete(env: Env, lines: seq<seq<byte>>, k: nat)
    requires k < |lines| && IsSentinel(lines[k])
    requires forall i :: 0 <= i < k ==> Harmless(lines[i])
    ensures Parse(env, lines) == Ok(Finish(Accumulate(env, Start, lines[..k])))
  {
    assert lines == lines[..k] + lines[k..];
    RunAccumulate(env, Start, lines[..k], lines[k..]);
  }

  /** A reply that runs out without the sentinel, and without a line that panics, is Incomplete. */
  lemma ParseIncomplete(env: Env, lines: seq<seq<byte>>)
    requires forall i :: 0 <= i < |lines| ==> Harmless(lines[i])
    ensures Parse(env, lines) == Err(Incomplete)
  {
    assert lines + [] == lines;
    RunAccumulate(env, Start, lines, []);
  }

  /** The first line that ends the read or panics, when it panics, makes the query fail. */
  lemma ParsePanics(env: Env, lines: seq<seq<byte>>, k: nat)
    requires k < |lines| && IsPanicLine(lines[k])
    requires forall i :: 0 <= i < k ==> Harmless(lines[i])
    ensures Parse(env, lines) == Err(IndexPanic)
  {
    assert lines == lines[..k] + lines[k..];
    RunAccumulate(env, Start, lines[..k], lines[k..]);
  }

  /** Without the sentinel line no reply ever yields a record. */
  lemma {:induction false} NoSentinelNoRecord(env: Env, r: Reading, lines: seq<seq<byte>>)
    requires forall i :: 0 <= i < |lines| ==> !IsSentinel(lines[i])
    ensures Run(env, r, lines).1 != SawSentinel
    ensures r == Start ==> Parse(env, lines).Err?
    decreases |lines|
  {
    if |lines| > 0 {
      assert !IsSentinel(lines[0]);
      match Classify(lines[0])
      case Skip => NoSentinelNoRecord(env, r, lines[1..]);
      case Field(u) =>
        match Apply(env, r, u)
        case Panic =>
        case Next(r') => NoSentinelNoRecord(env, r', lines[1..]);
    }
  }

  /** A skipped line leaves the record and the held-aside values exactly as they were. */
  lemma {:induction false} SkippedLineInvisible(env: Env, r: Reading, pre: seq<seq<byte>>, line: seq<byte>, post: seq<seq<byte>>)
    requires Classify(line) == Skip
    ensures Run(env, r, pre + [line] + post) == Run(env, r, pre + post)
    decreases |pre|
  {
    if |pre| == 0 {
      assert pre + [line] + post == [line] + post;
      assert ([line] + post)[1..] == post;
      assert pre + post == post;
    } else {
      assert (pre + [line] + post)[1..] == pre[1..] + [line] + post;
      assert (pre + post)[1..] == pre[1..] + post;
      assert (pre + [line] + post)[0] == (pre + post)[0] == pre[0];
      match Classify(pre[0])
      case Skip => SkippedLineInvisible(env, r, pre[1..], line, post);
      case Sentinel =>
      case Field(u) =>
        match Apply(env, r, u)
        case Panic =>
        case Next(r') => SkippedLineInvisible(env, r', pre[1..], line, post);
    }
  }

  /** Nothing after the sentinel is read. */
  lemma {:induction false} SentinelEndsRead(env: Env, r: Reading, pre: seq<seq<byte>>, line: seq<byte>, post: seq<seq<byte>>)
    requires IsSentinel(line)
    ensures Run(env, r, pre + [line] + post) == Run(env, r, pre + [line])
    decreases |pre|
  {
    if |pre| == 0 {
      assert pre + [line] + post == [line] + post;
      assert pre + [line] == [line];
    } else {
      assert (pre + [line] + post)[1..] == pre[1..] + [line] + post;
      assert (pre + [line])[1..] == pre[1..] + [line];
      assert (pre + [line] + post)[0] == (pre + [line])[0] == pre[0];
      match Classify(pre[0])
      case Skip => SentinelEndsRead(env, r, pre[1..], line, post);
      case Sentinel =>
      case Field(u) =>
        match Apply(env, r, u)
        case Panic =>
        case Next(r') => SentinelEndsRead(env, r', pre[1..], line, post);
    }
  }

  // ---------------------------------------------------------------------
  // A worked reply

  /** A reply line as the reader hands it over: the framed text, newline stripped. */
  function Line(s: string): seq<byte>
    requires IsByteText(s) && |s| + 1 < 65536
  {
    ResponseFrame(FromText(s))
  }

  lemma ClassifyLine(s: string)
    requires IsByteText(s) && |s| + 1 < 65536
    ensures Classify(Line(s)) == if |s| < 11 then Skip else if SentinelPrefix <= s then Sentinel else Field(s)
  {
    DecodeResponseFrame(FromText(s));
  }

  /** A key, ": " and space-separated tokens make a field line with that key and those tokens. */
  lemma FieldLineParts(key: string, tokens: seq<string>)
    requires |key| == 9 && |tokens| >= 1
    requires forall i :: 0 <= i < |tokens| ==> ' ' !in tokens[i]
    ensures var u := key + ": " + Join(tokens, ' ');
      |u| >= 11 && Key(u) == key && Tokens(u) == tokens
  {
    var u := key + ": " + Join(tokens, ' ');
    assert u[11..] == Join(tokens, ' ');
    SplitJoin(tokens, ' ');
  }

  /** A field line written out as key, ": " and its tokens is read as that field line. */
  lemma FieldLineRead(u: string, key: string, tokens: seq<string>)
    requires |key| == 9 && key[0] != 'E' && |tokens| >= 1
    requires forall i :: 0 <= i < |tokens| ==> ' ' !in tokens[i]
    requires u == key + ": " + Join(tokens, ' ') && IsByteText(u) && |u| + 1 < 65536
    ensures Classify(Line(u)) == Field(u) && Key(u) == key && Tokens(u) == tokens
  {
    FieldLineParts(key, tokens);
    ClassifyLine(u);
    assert u[0] == key[0];
  }

  lemma NomPowerText(u: string)
    requires u == "NOMPOWER : 900 Watts"
    ensures IsByteText(u) && |u| + 1 < 65536
    ensures Classify(Line(u)) == Field(u) && Key(u) == "NOMPOWER " && Tokens(u) == ["900", "Watts"]
  {
    var key, tokens := "NOMPOWER ", ["900", "Watts"];
    assert u == key + ": " + Join(tokens, ' ');
    FieldLineRead(u, key, tokens);
  }

  lemma LoadPctText(u: string)
    requires u == "LOADPCT  : 5.0 Percent"
    ensures IsByteText(u) && |u| + 1 < 65536
    ensures Classify(Line(u)) == Field(u) && Key(u) == "LOADPCT  " && Tokens(u) == ["5.0", "Percent"]
  {
    var key, tokens := "LOADPCT  ", ["5.0", "Percent"];
    assert u == key + ": " + Join(tokens, ' ');
    FieldLineRead(u, key, tokens);
  }

  lemma TimeLeftText(u: string)
    requires u == "TIMELEFT : 10.0 Minutes"
    ensures IsByteText(u) && |u| + 1 < 65536
    ensures Classify(Line(u)) == Field(u) && Key(u) == "TIMELEFT " && Tokens(u) == ["10.0", "Minutes"]
  {
    var key, tokens := "TIMELEFT ", ["10.0", "Minutes"];
    assert u == key + ": " + Join(tokens, ' ');
    FieldLineRead(u, key, tokens);
  }

  /** NOMPOWER with 900 and Watts: 900 W nominal. */
  lemma WorkedNomPower(env: Env, r: Reading, u: string)
    requires |u| >= 11 && Key(u) == "NOMPOWER " && Tokens(u) == ["900", "Watts"]
    ensures Apply(env, r, u) == Next(r.(nomPower := 900.0))
  {
    var digits := Tokens(u)[0];
    assert digits == "900";
    assert Atoi(digits) == AtoiResult(900, true) by {
      assert DigitsValue("900") == 900 by {
        assert "900"[..2] == "90" && "90"[..1] == "9" && "9"[..0] == "";
      }
    }
  }

  /** LOADPCT with 5.0 and Percent: a load fraction of 0.05. */
  lemma WorkedLoadPct(env: Env, r: Reading, u: string)
    requires |u| >= 11 && Key(u) == "LOADPCT  " && Tokens(u) == ["5.0", "Percent"]
    requires env.parseFloat("5.0") == Some(5.0)
    ensures Apply(env, r, u) == Next(r.(load := 5.0 / 100.0))
  {
  }

  /** TIMELEFT with 10.0 and Minutes: 600 seconds of backup. */
  lemma WorkedTimeLeft(env: Env, r: Reading, u: string)
    requires |u| >= 11 && Key(u) == "TIMELEFT " && Tokens(u) == ["10.0", "Minutes"]
    requires env.parseFloat("10.0") == Some(10.0)
    ensures Apply(env, r, u) == Next(r.(backup := 600 * Second))
  {
    var unit := Tokens(u)[1];
    assert UnitFactor(unit) == Some(60.0) by {
      assert ToLower(unit) == "minutes";
    }
    assert Trunc(60.0 * 10.0) == 600;
    assert BackupOf(env, u) == 600 * Second;
  }

  /** Three field lines and the sentinel: the loop applies the three in order and stops. */
  lemma RunThreeFields(env: Env, lines: seq<seq<byte>>, u0: string, u1: string, u2: string, r1: Reading, r2: Reading, r3: Reading)
    requires |lines| == 4 && IsSentinel(lines[3])
    requires Classify(lines[0]) == Field(u0) && Apply(env, Start, u0) == Next(r1)
    requires Classify(lines[1]) == Field(u1) && Apply(env, r1, u1) == Next(r2)
    requires Classify(lines[2]) == Field(u2) && Apply(env, r2, u2) == Next(r3)
    ensures Parse(env, lines) == Ok(Finish(r3))
  {
    assert lines[1..][1..] == lines[2..];
    assert lines[2..][1..] == lines[3..];
    assert Run(env, r3, lines[3..]) == (r3, SawSentinel);
    assert Run(env, r2, lines[2..]) == Run(env, r3, lines[3..]);
    assert Run(env, r1, lines[1..]) == Run(env, r2, lines[2..]);
    assert Run(env, Start, lines) == Run(env, r1, lines[1..]);
  }

  /**
   * 900 Watts nominal, 5.0 Percent load and 10.0 Minutes left, then the
   * END APC line: 45 W drawn, 10 minutes of backup, and 7 Wh stored,
   * truncated from 7.5.
   */
  lemma WorkedReply(env: Env, l0: string, l1: string, l2: string, l3: string)
    requires l0 == "NOMPOWER : 900 Watts" && l1 == "LOADPCT  : 5.0 Percent"
    requires l2 == "TIMELEFT : 10.0 Minutes"
    requires |l3| >= 11 && SentinelPrefix <= l3 && IsByteText(l3) && |l3| + 1 < 65536
    requires env.parseFloat("5.0") == Some(5.0) && env.parseFloat("10.0") == Some(10.0)
    ensures IsByteText(l0) && IsByteText(l1) && IsByteText(l2)
    ensures
      var result := Parse(env, [Line(l0), Line(l1), Line(l2), Line(l3)]);
      result.Ok? && result.value.power == 45 && result.value.backup == 10 && result.value.charge == 7
  {
    NomPowerText(l0);
    LoadPctText(l1);
    TimeLeftText(l2);
    ClassifyLine(l3);
    var lines := [Line(l0), Line(l1), Line(l2), Line(l3)];
    var r := WorkedRecord(env, lines, l0, l1, l2);
    WorkedMetrics(r);
  }

  /** The held-aside values the worked reply leaves: 900 W, 5 %, 10 minutes. */
  lemma WorkedRecord(env: Env, lines: seq<seq<byte>>, u0: string, u1: string, u2: string) returns (r3: Reading)
    requires |lines| == 4 && IsSentinel(lines[3])
    requires Classify(lines[0]) == Field(u0) && |u0| >= 11 && Key(u0) == "NOMPOWER " && Tokens(u0) == ["900", "Watts"]
    requires Classify(lines[1]) == Field(u1) && |u1| >= 11 && Key(u1) == "LOADPCT  " && Tokens(u1) == ["5.0", "Percent"]
    requires Classify(lines[2]) == Field(u2) && |u2| >= 11 && Key(u2) == "TIMELEFT " && Tokens(u2) == ["10.0", "Minutes"]
    requires env.parseFloat("5.0") == Some(5.0) && env.parseFloat("10.0") == Some(10.0)
    ensures r3 == Start.(nomPower := 900.0, load := 5.0 / 100.0, backup := 600 * Second)
    ensures Parse(env, lines) == Ok(Finish(r3))
  {
    var r1 := Start.(nomPower := 900.0);
    var r2 := r1.(load := 5.0 / 100.0);
    r3 := r2.(backup := 600 * Second);
    WorkedNomPower(env, Start, u0);
    WorkedLoadPct(env, r1, u1);
    WorkedTimeLeft(env, r2, u2);
    RunThreeFields(env, lines, u0, u1, u2, r1, r2, r3);
  }

  lemma WorkedMetrics(r: Reading)
    requires r == Start.(nomPower := 900.0, load := 5.0 / 100.0, backup := 600 * Second)
    ensures Finish(r).power == 45 && Finish(r).backup == 10 && Finish(r).charge == 7
  {
    assert Quot(600 * Second, Minute) == 10;
    assert Trunc(900.0 * (5.0 / 100.0)) == 45;
    assert Trunc(900.0 * (5.0 / 100.0) * 10.0 / 60.0) == 7;
  }

  // ---------------------------------------------------------------------
  // The read loop as written

  /**
   * The read loop as the source writes it. The stream is the reply followed
   * by end of file, after which every ReadLine fails and the failure is
   * retried with `continue`; the loop's only exit is the sentinel's `break`
   * (or a panic). Fuel counts iterations; None means the loop is still
   * running when the fuel is spent.
   */
  function ReadLoopAsWritten(env: Env, r: Reading, lines: seq<seq<byte>>, fuel: nat): Option<(Reading, Ending)>
    decreases fuel
  {
    if fuel == 0 then None
    else if |lines| == 0 then ReadLoopAsWritten(env, r, lines, fuel - 1)
    else match Classify(lines[0])
      case Skip => ReadLoopAsWritten(env, r, lines[1..], fuel - 1)
      case Sentinel => Some((r, SawSentinel))
      case Field(u) =>
        match Apply(env, r, u)
        case Panic => Some((r, Panicked))
        case Next(r') => ReadLoopAsWritten(env, r', lines[1..], fuel - 1)
  }

  /** ParseTarget as written, with its `if !fullRead { return nil, ErrIncomplete }` after the loop. */
  function ParseAsWritten(env: Env, lines: seq<seq<byte>>, fuel: nat): Option<Result<Target, ParseError>> {
    match ReadLoopAsWritten(env, Start, lines, fuel)
    case None => None
    case Some((r, ending)) =>
      Some(if ending == SawSentinel then Ok(Finish(r))
           else if ending == Panicked then Err(IndexPanic)
           else Err(Incomplete))
  }

  lemma {:induction false} AsWrittenNeverExhausts(env: Env, r: Reading, lines: seq<seq<byte>>, fuel: nat)
    ensures ReadLoopAsWritten(env, r, lines, fuel).Some? ==> ReadLoopAsWritten(env, r, lines, fuel).value.1 != Exhausted
    decreases fuel
  {
    if fuel > 0 {
      if |lines| == 0 {
        AsWrittenNeverExhausts(env, r, lines, fuel - 1);
      } else {
        match Classify(lines[0])
        case Skip => AsWrittenNeverExhausts(env, r, lines[1..], fuel - 1);
        case Sentinel =>
        case Field(u) =>
          match Apply(env, r, u)
          case Panic =>
          case Next(r') => AsWrittenNeverExhausts(env, r', lines[1..], fuel - 1);
      }
    }
  }

  /** As written, ParseTarget never returns ErrIncomplete, however long it runs. */
  lemma IncompleteUnreachableAsWritten(env: Env, lines: seq<seq<byte>>, fuel: nat)
    ensures ParseAsWritten(env, lines, fuel) != Some(Err(Incomplete))
  {
    AsWrittenNeverExhausts(env, Start, lines, fuel);
  }

  /** An empty reply: as written the loop spins forever; as intended it is Incomplete. */
  lemma {:induction false} EmptyReplyAsWritten(env: Env, fuel: nat)
    ensures ParseAsWritten(env, [], fuel) == None
    ensures Parse(env, []) == Err(Incomplete)
    decreases fuel
  {
    if fuel > 0 {
      EmptyReplyAsWritten(env, fuel - 1);
    }
  }

  /** Wherever the source's loop does stop, the model with Incomplete agrees with it. */
  lemma {:induction false} AsWrittenAgreesWhenItStops(env: Env, r: Reading, lines: seq<seq<byte>>, fuel: nat)
    requires fuel >= |lines| && Run(env, r, lines).1 != Exhausted
    ensures ReadLoopAsWritten(env, r, lines, fuel) == Some(Run(env, r, lines))
    decreases |lines|
  {
    assert |lines| > 0;
    match Classify(lines[0])
    case Skip => AsWrittenAgreesWhenItStops(env, r, lines[1..], fuel - 1);
    case Sentinel =>
    case Field(u) =>
      match Apply(env, r, u)
      case Panic =>
      case Next(r') => AsWrittenAgreesWhenItStops(env, r', lines[1..], fuel - 1);
  }
}
