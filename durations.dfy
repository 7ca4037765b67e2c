/**
 * digestDuration: the TIMELEFT value "<number> <unit>" read as a
 * time.Duration, which counts nanoseconds in an int64.
 */
module Durations {
  import opened Wrappers
  import opened Numeric
  import opened Text

  const Second: int := 1_000_000_000
  const Minute: int := 60 * Second

  datatype DurationError =
    | TextTooShort(length: nat)
    | TokenCount(count: nat)
    | UnrecognizedUnit(unit: string)
    | BadNumber(token: string)

  /** Seconds per unit; the unit is compared after lower-casing. */
  function UnitFactor(unit: string): (f: Option<real>)
    ensures f == Some(60.0) <==> ToLower(unit) == "minutes"
    ensures f == Some(1.0) <==> ToLower(unit) == "seconds"
    ensures f.None? <==> ToLower(unit) != "minutes" && ToLower(unit) != "seconds"
  {
    var u := ToLower(unit);
    if u == "minutes" then Some(60.0) else if u == "seconds" then Some(1.0) else None
  }

  /**
   * digestDuration(text). The first eleven characters (the key and ": ")
   * are dropped, the rest must split on spaces into exactly a magnitude and
   * a unit, the unit must be minutes or seconds in any case, and the
   * magnitude must parse as a float. The result is factor*f seconds,
   * truncated to whole seconds and scaled to nanoseconds with int64
   * wrap-around, as `time.Second * time.Duration(factor*f)` computes it.
   */
  function DigestDuration(parseFloat: string -> Option<real>, text: string): (r: Result<int, DurationError>)
    ensures r.Ok? ==> InInt64(r.value)
    ensures |text| < 11 ==> r == Err(TextTooShort(|text|))
    ensures |text| >= 11 && |Split(text[11..], ' ')| != 2 ==> r == Err(TokenCount(|Split(text[11..], ' ')|))
    ensures r.Ok? <==>
      |text| >= 11 && |Split(text[11..], ' ')| == 2 &&
      UnitFactor(Split(text[11..], ' ')[1]).Some? && parseFloat(Split(text[11..], ' ')[0]).Some?
  {
    if |text| < 11 then Err(TextTooShort(|text|))
    else
      var tokens := Split(text[11..], ' ');
      if |tokens| != 2 then Err(TokenCount(|tokens|))
      else match UnitFactor(tokens[1])
        case None => Err(UnrecognizedUnit(tokens[1]))
        case Some(factor) =>
          match parseFloat(tokens[0])
          case None => Err(BadNumber(tokens[0]))
          case Some(f) => Ok(Wrap64(Second * Trunc(factor * f)))
  }

  /** The value region of key + magnitude + " " + unit splits into exactly the two tokens. */
  lemma ValueTokens(key: string, magnitude: string, unit: string)
    requires |key| == 11 && ' ' !in magnitude && ' ' !in unit
    ensures Split((key + magnitude + " " + unit)[11..], ' ') == [magnitude, unit]
  {
    var text := key + magnitude + " " + unit;
    assert text[11..] == magnitude + [' '] + unit;
    SplitAfterPiece(magnitude, ' ', unit);
    SplitNoSeparator(unit, ' ');
  }

  /**
   * Reading a value region built from a magnitude token and a unit token:
   * the outcome is decided by the unit, then by the magnitude, and a
   * magnitude of f units gives trunc(factor*f) whole seconds whenever that
   * fits in a time.Duration.
   */
  lemma DigestValue(parseFloat: string -> Option<real>, key: string, magnitude: string, unit: string)
    requires |key| == 11 && ' ' !in magnitude && ' ' !in unit
    ensures var r := DigestDuration(parseFloat, key + magnitude + " " + unit);
      && (UnitFactor(unit).None? ==> r == Err(UnrecognizedUnit(unit)))
      && (UnitFactor(unit).Some? && parseFloat(magnitude).None? ==> r == Err(BadNumber(magnitude)))
      && (UnitFactor(unit).Some? && parseFloat(magnitude).Some? ==>
            var secs := Trunc(UnitFactor(unit).value * parseFloat(magnitude).value);
            r.Ok? && (InInt64(Second * secs) ==> r.value == Second * secs))
  {
    ValueTokens(key, magnitude, unit);
  }

  /** "TIMELEFT : 15.0 Minutes" is 900 seconds. */
  lemma FifteenMinutes(parseFloat: string -> Option<real>, key: string, magnitude: string, unit: string)
    requires key == "TIMELEFT : " && magnitude == "15.0" && unit == "Minutes"
    requires parseFloat(magnitude) == Some(15.0)
    ensures DigestDuration(parseFloat, key + magnitude + " " + unit) == Ok(900 * Second)
  {
    assert UnitFactor(unit) == Some(60.0) by {
      assert ToLower(unit) == "minutes";
    }
    assert Trunc(60.0 * 15.0) == 900;
    DigestValue(parseFloat, key, magnitude, unit);
  }

  /** "TIMELEFT : 30 Seconds" is 30 seconds. */
  lemma ThirtySeconds(parseFloat: string -> Option<real>, key: string, magnitude: string, unit: string)
    requires key == "TIMELEFT : " && magnitude == "30" && unit == "Seconds"
    requires parseFloat(magnitude) == Some(30.0)
    ensures DigestDuration(parseFloat, key + magnitude + " " + unit) == Ok(30 * Second)
  {
    assert UnitFactor(unit) == Some(1.0) by {
      assert ToLower(unit) == "seconds";
    }
    assert Trunc(1.0 * 30.0) == 30;
    DigestValue(parseFloat, key, magnitude, unit);
  }

  /** Any unit other than minutes or seconds is refused, whatever the magnitude. */
  lemma FurlongsRefused(parseFloat: string -> Option<real>, key: string, magnitude: string, unit: string)
    requires key == "TIMELEFT : " && magnitude == "5" && unit == "Furlongs"
    ensures DigestDuration(parseFloat, key + magnitude + " " + unit) == Err(UnrecognizedUnit(unit))
  {
    assert UnitFactor(unit).None? by {
      assert ToLower(unit)[0] == 'f';
    }
    DigestValue(parseFloat, key, magnitude, unit);
  }
}
