/**
 * The Go string operations the parser relies on. A Go string is a sequence
 * of bytes; here it is a `string` whose every character has the code of one
 * byte, so that Go's byte indexing, slicing and `len` carry over unchanged.
 */
module Text {
  import opened Numeric

  newtype byte = x: int | 0 <= x < 256

  /** Go's `string(b)`: every byte becomes the character with the same code. */
  function ToText(bs: seq<byte>): (s: string)
    ensures |s| == |bs|
    ensures forall i :: 0 <= i < |bs| ==> s[i] as int == bs[i] as int
  {
    seq(|bs|, i requires 0 <= i < |bs| => (bs[i] as int) as char)
  }

  /** A string every character of which is a single byte. */
  predicate IsByteText(s: string) {
    forall i :: 0 <= i < |s| ==> s[i] as int < 256
  }

  /** Go's `[]byte(s)` for a byte string; the inverse of ToText. */
  function FromText(s: string): (bs: seq<byte>)
    requires IsByteText(s)
    ensures ToText(bs) == s
  {
    seq(|s|, i requires 0 <= i < |s| => s[i] as int as byte)
  }

  lemma ToTextInjective(a: seq<byte>, b: seq<byte>)
    requires ToText(a) == ToText(b)
    ensures a == b
  {
    assert |a| == |b|;
    forall i | 0 <= i < |a| ensures a[i] == b[i] {
      assert a[i] as int == ToText(a)[i] as int == b[i] as int;
    }
  }

  // ---------------------------------------------------------------------
  // strings.Split and strings.Join with a one-character separator

  /**
   * strings.Split(s, sep): the pieces between the occurrences of sep. There is
   * always at least one piece (Split("") is [""]), no piece holds sep, and
   * joining the pieces back with sep gives s.
   */
  function Split(s: string, sep: char): (parts: seq<string>)
    ensures |parts| >= 1
    ensures forall i :: 0 <= i < |parts| ==> sep !in parts[i]
    ensures Join(parts, sep) == s
    decreases |s|
  {
    if |s| == 0 then [""]
    else
      var rest := Split(s[1..], sep);
      if s[0] == sep then
        assert ([""] + rest)[1..] == rest;
        [""] + rest
      else
        var parts := [[s[0]] + rest[0]] + rest[1..];
        assert |rest| > 1 ==> parts[1..] == rest[1..];
        assert forall i :: 1 <= i < |parts| ==> parts[i] == rest[i];
        parts
  }

  /** strings.Join(parts, sep). */
  function Join(parts: seq<string>, sep: char): string
  {
    if |parts| == 0 then ""
    else if |parts| == 1 then parts[0]
    else parts[0] + [sep] + Join(parts[1..], sep)
  }

  lemma {:induction false} SplitNoSeparator(s: string, sep: char)
    requires sep !in s
    ensures Split(s, sep) == [s]
    decreases |s|
  {
    if |s| > 0 {
      assert sep !in s[1..];
      SplitNoSeparator(s[1..], sep);
      assert [s[0]] + s[1..] == s;
    }
  }

  /** Splitting a piece followed by the separator peels that piece off. */
  lemma {:induction false} SplitAfterPiece(a: string, sep: char, t: string)
    requires sep !in a
    ensures Split(a + [sep] + t, sep) == [a] + Split(t, sep)
    decreases |a|
  {
    if |a| == 0 {
      assert a + [sep] + t == [sep] + t;
      assert ([sep] + t)[1..] == t;
    } else {
      var s := a + [sep] + t;
      assert s[1..] == a[1..] + [sep] + t;
      assert sep !in a[1..];
      SplitAfterPiece(a[1..], sep, t);
      assert [a[0]] + a[1..] == a;
    }
  }

  /**
   * The three properties Split promises determine its result: any list of
   * pieces without the separator that joins to s is Split(s).
   */
  lemma {:induction false} SplitUnique(parts: seq<string>, sep: char, s: string)
    requires |parts| >= 1
    requires forall i :: 0 <= i < |parts| ==> sep !in parts[i]
    requires Join(parts, sep) == s
    ensures Split(s, sep) == parts
    decreases |parts|
  {
    if |parts| == 1 {
      SplitNoSeparator(s, sep);
    } else {
      var tail := Join(parts[1..], sep);
      SplitUnique(parts[1..], sep, tail);
      SplitAfterPiece(parts[0], sep, tail);
      assert [parts[0]] + parts[1..] == parts;
    }
  }

  /** Splitting pieces joined by the separator gives those pieces back. */
  lemma SplitJoin(parts: seq<string>, sep: char)
    requires |parts| >= 1
    requires forall i :: 0 <= i < |parts| ==> sep !in parts[i]
    ensures Split(Join(parts, sep), sep) == parts
  {
    SplitUnique(parts, sep, Join(parts, sep));
  }

  // ---------------------------------------------------------------------
  // strings.ToLower, on the ASCII letters

  function LowerChar(c: char): char {
    if 'A' <= c <= 'Z' then (c as int + 32) as char else c
  }

  /** strings.ToLower: every ASCII upper-case letter is replaced by its lower-case form. */
  function ToLower(s: string): (r: string)
    ensures |r| == |s|
    ensures forall i :: 0 <= i < |s| ==> r[i] == LowerChar(s[i])
  {
    seq(|s|, i requires 0 <= i < |s| => LowerChar(s[i]))
  }

  // ---------------------------------------------------------------------
  // strconv.Atoi and strconv.Itoa on a 64-bit platform

  predicate IsDigit(c: char) {
    '0' <= c <= '9'
  }

  predicate AllDigits(s: string) {
    forall i :: 0 <= i < |s| ==> IsDigit(s[i])
  }

  /** The value of a string of decimal digits, most significant first. */
  function DigitsValue(s: string): nat
    requires AllDigits(s)
  {
    if |s| == 0 then 0 else DigitsValue(s[..|s| - 1]) * 10 + (s[|s| - 1] as int - '0' as int)
  }

  /** A longer digit prefix is worth at least as much as a shorter one. */
  lemma {:induction false} DigitsPrefixMonotone(s: string, j: nat, k: nat)
    requires j <= k <= |s| && AllDigits(s[..k])
    ensures AllDigits(s[..j]) && DigitsValue(s[..j]) <= DigitsValue(s[..k])
    decreases k
  {
    assert forall i :: 0 <= i < j ==> s[..j][i] == s[..k][i];
    if j < k {
      assert s[..k - 1] == s[..k][..k - 1];
      assert s[..k][k - 1] == s[k - 1];
      DigitsPrefixMonotone(s, j, k - 1);
    }
  }

  /** The length of the leading run of decimal digits. */
  function DigitRun(s: string): (k: nat)
    ensures k <= |s| && AllDigits(s[..k])
    ensures k < |s| ==> !IsDigit(s[k])
    decreases |s|
  {
    if |s| == 0 || !IsDigit(s[0]) then 0
    else
      var k := 1 + DigitRun(s[1..]);
      assert forall i :: 1 <= i < k ==> s[..k][i] == s[1..][..k - 1][i - 1];
      k
  }

  /** A digit run of length k followed by a non-digit, or by the end, is the leading digit run. */
  lemma {:induction false} DigitRunAt(s: string, k: nat)
    requires k <= |s| && AllDigits(s[..k]) && (k < |s| ==> !IsDigit(s[k]))
    ensures DigitRun(s) == k
    decreases k
  {
    if k > 0 {
      assert s[..k][0] == s[0];
      var t := s[1..];
      assert t[..k - 1] == s[..k][1..];
      assert k - 1 < |t| ==> t[k - 1] == s[k];
      DigitRunAt(t, k - 1);
    }
  }

  /** The largest uint64. */
  const MaxUint64: nat := 0xFFFF_FFFF_FFFF_FFFF

  /** What strconv.ParseUint hands back: a value, or its syntax or range error. */
  datatype UintOutcome = UintValue(value: nat) | SyntaxError | RangeError

  /**
   * ParseUint's loop for base 10 and 64 bits, from the value acc of the
   * digits already read: a non-digit is a syntax error, and a digit that
   * takes the value past 2^64 - 1 is a range error at once, before any
   * later character is looked at.
   */
  function ScanDigits(s: string, acc: nat): UintOutcome
    requires acc <= MaxUint64
    decreases |s|
  {
    if |s| == 0 then UintValue(acc)
    else if !IsDigit(s[0]) then SyntaxError
    else
      var next := acc * 10 + (s[0] as int - '0' as int);
      if next > MaxUint64 then RangeError else ScanDigits(s[1..], next)
  }

  /** Whether the leading digit run is already worth more than 2^64 - 1. */
  predicate LeadingOverflow(s: string) {
    DigitsValue(s[..DigitRun(s)]) > MaxUint64
  }

  /** From any point inside the leading digit run, the scan ends as the whole run decides. */
  lemma {:induction false} ScanFrom(s: string, j: nat)
    requires j <= DigitRun(s)
    requires AllDigits(s[..j]) && DigitsValue(s[..j]) <= MaxUint64
    ensures ScanDigits(s[j..], DigitsValue(s[..j])) ==
      if LeadingOverflow(s) then RangeError
      else if DigitRun(s) < |s| then SyntaxError
      else UintValue(DigitsValue(s))
    decreases |s| - j
  {
    var k := DigitRun(s);
    if j == |s| {
      assert s[..j] == s;
    } else if j == k {
    } else {
      assert s[j..][0] == s[j];
      var next := DigitsValue(s[..j]) * 10 + (s[j] as int - '0' as int);
      assert s[..j + 1][..j] == s[..j];
      assert next == DigitsValue(s[..j + 1]);
      DigitsPrefixMonotone(s, j + 1, k);
      if next <= MaxUint64 {
        assert s[j..][1..] == s[j + 1..];
        ScanFrom(s, j + 1);
      }
    }
  }

  /**
   * strconv.ParseUint(s, 10, 64): empty text is a syntax error; otherwise a
   * leading digit run worth more than 2^64 - 1 is a range error, whatever
   * follows it; any other non-digit is a syntax error; and a string of
   * digits is its value.
   */
  function ParseUint(s: string): (r: UintOutcome)
    ensures |s| == 0 ==> r == SyntaxError
    ensures |s| > 0 && LeadingOverflow(s) ==> r == RangeError
    ensures |s| > 0 && !LeadingOverflow(s) && DigitRun(s) < |s| ==> r == SyntaxError
    ensures |s| > 0 && DigitRun(s) == |s| && !LeadingOverflow(s) ==> r == UintValue(DigitsValue(s))
  {
    if |s| == 0 then SyntaxError
    else
      assert s[..0] == "" && s[0..] == s;
      ScanFrom(s, 0);
      ScanDigits(s, 0)
  }

  /** What Go's Atoi hands back: a value and whether the error was nil. */
  datatype AtoiResult = AtoiResult(value: int, ok: bool)

  predicate Negative(s: string) {
    |s| > 0 && s[0] == '-'
  }

  /** The text after an optional leading sign. */
  function Magnitude(s: string): string {
    if |s| > 0 && (s[0] == '-' || s[0] == '+') then s[1..] else s
  }

  /** Atoi's syntax: an optional sign followed by at least one decimal digit. */
  predicate IsIntSyntax(s: string) {
    |Magnitude(s)| > 0 && AllDigits(Magnitude(s))
  }

  /** The integer that well-formed text denotes. */
  function SignedValue(s: string): int
    requires IsIntSyntax(s)
  {
    if Negative(s) then 0 - DigitsValue(Magnitude(s)) else DigitsValue(Magnitude(s))
  }

  /**
   * strconv.Atoi, whose fast path for short text and slow path through
   * ParseInt and ParseUint give the same results. A well-formed decimal gives
   * its value clamped to the int64 range, with an error exactly when it had to
   * be clamped. Malformed text gives an error and the value 0, except when its
   * leading digits already overflow: ParseUint then stops with a range error
   * before it meets the offending character, and the value is the bound on
   * the sign's side.
   */
  function Atoi(s: string): (r: AtoiResult)
    ensures InInt64(r.value)
    ensures r.ok <==> IsIntSyntax(s) && InInt64(SignedValue(s))
    ensures IsIntSyntax(s) ==> r.value == Clamp64(SignedValue(s))
    ensures !IsIntSyntax(s) && !LeadingOverflow(Magnitude(s)) ==> r.value == 0
    ensures !IsIntSyntax(s) && LeadingOverflow(Magnitude(s)) ==> r.value == if Negative(s) then Int64Min else Int64Max
  {
    var m := Magnitude(s);
    var neg := Negative(s);
    assert IsIntSyntax(s) ==> DigitRun(m) == |m| && m[..|m|] == m;
    match ParseUint(m)
    case SyntaxError => AtoiResult(0, false)
    case RangeError => AtoiResult(if neg then Int64Min else Int64Max, false)
    case UintValue(u) =>
      if !neg && u > Int64Max then AtoiResult(Int64Max, false)
      else if neg && u > -Int64Min then AtoiResult(Int64Min, false)
      else AtoiResult(if neg then 0 - u else u, true)
  }

  /**
   * Digits worth more than 2^64 - 1 followed by junk: the range error wins,
   * so the value is MaxInt64 rather than 0.
   */
  lemma OverflowBeforeJunk(d: string, x: string)
    requires |d| > 0 && AllDigits(d) && DigitsValue(d) > MaxUint64
    requires |x| > 0 && !IsDigit(x[0])
    ensures !IsIntSyntax(d + x)
    ensures Atoi(d + x) == AtoiResult(Int64Max, false)
  {
    var s := d + x;
    assert s[0] == d[0] && IsDigit(s[0]);
    assert !Negative(s) && Magnitude(s) == s;
    assert s[|d|] == x[0];
    assert !AllDigits(s);
    assert s[..|d|] == d;
    DigitRunAt(s, |d|);
    assert LeadingOverflow(s);
    var r := Atoi(s);
    assert r.value == Int64Max && !r.ok;
  }

  function DigitChar(d: nat): char
    requires d < 10
  {
    ('0' as int + d) as char
  }

  /** The decimal digits of n, without leading zeros. */
  function NatDigits(n: nat): (s: string)
    ensures |s| > 0 && AllDigits(s)
  {
    if n < 10 then [DigitChar(n)] else NatDigits(n / 10) + [DigitChar(n % 10)]
  }

  /** strconv.Itoa: a minus sign for negative numbers, then the digits. */
  function Itoa(n: int): string {
    if n < 0 then "-" + NatDigits(-n) else NatDigits(n)
  }

  lemma {:induction false} NatDigitsValue(n: nat)
    ensures DigitsValue(NatDigits(n)) == n
  {
    if n >= 10 {
      NatDigitsValue(n / 10);
      var s := NatDigits(n);
      assert s[..|s| - 1] == NatDigits(n / 10);
    }
  }

  /** Atoi reads back what Itoa writes, for every int64. */
  lemma AtoiItoa(n: int)
    requires InInt64(n)
    ensures Atoi(Itoa(n)) == AtoiResult(n, true)
  {
    var s := Itoa(n);
    if n < 0 {
      NatDigitsValue(-n);
      assert s[1..] == NatDigits(-n);
      assert Magnitude(s) == NatDigits(-n);
    } else {
      NatDigitsValue(n);
      assert IsDigit(s[0]);
      assert Magnitude(s) == s;
    }
  }
}
