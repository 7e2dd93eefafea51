/**
 * The elapsed-time formatter of the export: `H : M : S` from one hour
 * upwards, `M : S` below, every field in plain decimal without padding.
 */
module TimeFormat {
  import opened Wrappers
  import opened Decimal

  const SecondsPerMinute: nat := 60
  const SecondsPerHour: nat := 3600

  /** The separator written between two fields. */
  const Separator: string := " : "

  /** The number of seconds a field list denotes: base 60, first field unbounded. */
  function FieldsValue(f: seq<nat>): nat {
    if |f| == 0 then 0 else FieldsValue(f[..|f| - 1]) * SecondsPerMinute + f[|f| - 1]
  }

  /**
   * The field lists the formatter can produce: `[M, S]` with both below 60,
   * or `[H, M, S]` with at least one hour and `M`, `S` below 60.
   */
  predicate Canonical(f: seq<nat>) {
    || (|f| == 2 && f[0] < 60 && f[1] < 60)
    || (|f| == 3 && 1 <= f[0] && f[1] < 60 && f[2] < 60)
  }

  /**
   * The fields `seconds` is split into: three fields from 3600 seconds
   * upwards, two below; either way they add back up to `seconds`.
   */
  function TimeFields(seconds: nat): (f: seq<nat>)
    ensures Canonical(f)
    ensures |f| == 3 <==> seconds >= SecondsPerHour
    ensures FieldsValue(f) == seconds
  {
    if seconds >= SecondsPerHour then
      var hours := seconds / SecondsPerHour;
      var rest := seconds % SecondsPerHour;
      var f := [hours, rest / SecondsPerMinute, rest % SecondsPerMinute];
      FieldsValueOfThree(hours, rest / 60, rest % 60);
      f
    else
      var f := [seconds / SecondsPerMinute, seconds % SecondsPerMinute];
      FieldsValueOfTwo(seconds / 60, seconds % 60);
      f
  }

  lemma FieldsValueOfTwo(m: nat, s: nat)
    ensures FieldsValue([m, s]) == m * 60 + s
  {
    assert [m, s][..1] == [m];
    assert [m][..0] == [];
    assert FieldsValue([m]) == m;
  }

  lemma FieldsValueOfThree(h: nat, m: nat, s: nat)
    ensures FieldsValue([h, m, s]) == h * 3600 + m * 60 + s
  {
    assert [h, m, s][..2] == [h, m];
    FieldsValueOfTwo(h, m);
  }

  /** Division by a positive divisor has exactly one quotient and remainder. */
  lemma DivModUnique(n: nat, d: nat, q: nat, r: nat)
    requires 0 < d && r < d && q * d + r == n
    ensures q == n / d && r == n % d
  {
    var q', r' := n / d, n % d;
    assert q' * d + r' == n;
    if q < q' {
      MulLeq(q + 1, q', d);
    } else if q' < q {
      MulLeq(q' + 1, q, d);
    }
  }

  lemma MulLeq(a: nat, b: nat, d: nat)
    requires a <= b
    ensures a * d <= b * d
  {
  }

  /** `TimeFields` is the only canonical field list with the given value. */
  lemma {:induction false} TimeFieldsUnique(f: seq<nat>, seconds: nat)
    requires Canonical(f) && FieldsValue(f) == seconds
    ensures f == TimeFields(seconds)
  {
    if |f| == 2 {
      assert f == [f[0], f[1]];
      FieldsValueOfTwo(f[0], f[1]);
      DivModUnique(seconds, 60, f[0], f[1]);
    } else {
      assert f == [f[0], f[1], f[2]];
      FieldsValueOfThree(f[0], f[1], f[2]);
      var rest := f[1] * 60 + f[2];
      DivModUnique(seconds, 3600, f[0], rest);
      DivModUnique(rest, 60, f[1], f[2]);
    }
  }

  /** The fields rendered in decimal and joined by " : ". */
  function RenderFields(f: seq<nat>): string
    decreases |f|
  {
    if |f| == 0 then ""
    else if |f| == 1 then NatToString(f[0])
    else NatToString(f[0]) + Separator + RenderFields(f[1..])
  }

  /** The display form of an elapsed time given in whole seconds. */
  function FormatTime(seconds: nat): string {
    RenderFields(TimeFields(seconds))
  }

  /** The longest prefix of `t` made of decimal digits. */
  function DigitRun(t: string): (d: string)
    ensures |d| <= |t| && d == t[..|d|] && AllDigits(d)
    ensures |d| < |t| ==> !IsDigit(t[|d|])
  {
    if |t| > 0 && IsDigit(t[0]) then [t[0]] + DigitRun(t[1..]) else []
  }

  /**
   * Reads a display string back into its fields: decimal numbers separated
   * by " : ", nothing before, between or after them.
   */
  function ParseFields(t: string): Option<seq<nat>>
    decreases |t|
  {
    var d := DigitRun(t);
    var rest := t[|d|..];
    if |d| == 0 then None
    else if |rest| == 0 then Some([ParseDigits(d)])
    else if |rest| >= 3 && rest[..3] == Separator then
      match ParseFields(rest[3..])
      case None => None
      case Some(fs) => Some([ParseDigits(d)] + fs)
    else None
  }

  /** The number of seconds a display string denotes, if it is one the formatter writes. */
  function ParseTime(t: string): Option<nat> {
    match ParseFields(t)
    case Some(f) => if Canonical(f) then Some(FieldsValue(f)) else None
    case None => None
  }

  /** The digit run of a rendered number followed by a separator or nothing is that number. */
  lemma {:induction false} DigitRunOfRendered(n: nat, rest: string)
    requires |rest| == 0 || rest[0] == ' '
    ensures DigitRun(NatToString(n) + rest) == NatToString(n)
  {
    var s := NatToString(n);
    assert (s + rest)[..|s|] == s;
  }

  /** Parsing a rendering of a non-empty field list gives the list back. */
  lemma {:induction false} ParseRenderFields(f: seq<nat>)
    requires |f| >= 1
    ensures ParseFields(RenderFields(f)) == Some(f)
    decreases |f|
  {
    var s := NatToString(f[0]);
    ParseNatToString(f[0]);
    if |f| == 1 {
      DigitRunOfRendered(f[0], "");
      assert s + "" == s;
      assert s[|s|..] == [];
      assert ParseFields(s) == Some([ParseDigits(s)]);
      assert f == [f[0]];
    } else {
      var tail := RenderFields(f[1..]);
      var t := s + Separator + tail;
      assert t == s + (Separator + tail);
      DigitRunOfRendered(f[0], Separator + tail);
      assert t[|s|..] == Separator + tail;
      assert (Separator + tail)[..3] == Separator;
      assert (Separator + tail)[3..] == tail;
      ParseRenderFields(f[1..]);
      assert [f[0]] + f[1..] == f;
    }
  }

  /** Round trip: the display string reads back as the same number of seconds. */
  lemma FormatTimeRoundTrip(seconds: nat)
    ensures ParseFields(FormatTime(seconds)) == Some(TimeFields(seconds))
    ensures ParseTime(FormatTime(seconds)) == Some(seconds)
  {
    ParseRenderFields(TimeFields(seconds));
  }

  /** Distinct durations are displayed differently. */
  lemma FormatTimeInjective(a: nat, b: nat)
    requires FormatTime(a) == FormatTime(b)
    ensures a == b
  {
    FormatTimeRoundTrip(a);
    FormatTimeRoundTrip(b);
  }

  /** Below one hour the display is exactly `minutes : seconds`, and the minutes stay below 60. */
  lemma FormatTimeUnderAnHour(seconds: nat)
    requires seconds < SecondsPerHour
    ensures FormatTime(seconds) == NatToString(seconds / 60) + Separator + NatToString(seconds % 60)
    ensures seconds / 60 < 60
  {
    var f := TimeFields(seconds);
    assert f == [seconds / 60, seconds % 60];
    assert f[1..] == [f[1]];
    assert RenderFields(f[1..]) == NatToString(f[1]);
  }

  /** From one hour upwards the display is `hours : minutes : seconds`, with at least one hour. */
  lemma FormatTimeFromAnHour(seconds: nat)
    requires seconds >= SecondsPerHour
    ensures FormatTime(seconds) ==
      NatToString(seconds / 3600) + Separator + NatToString(seconds % 3600 / 60) + Separator + NatToString(seconds % 60)
    ensures seconds / 3600 >= 1
  {
    var f := TimeFields(seconds);
    assert f == [seconds / 3600, seconds % 3600 / 60, seconds % 3600 % 60];
    SecondsOfTheHour(seconds);
    assert f[1..][1..] == [f[2]];
    assert RenderFields(f[1..][1..]) == NatToString(f[2]);
    assert RenderFields(f[1..]) == NatToString(f[1]) + Separator + NatToString(f[2]);
    assert RenderFields(f) == NatToString(f[0]) + Separator + (NatToString(f[1]) + Separator + NatToString(f[2]));
  }

  /** The seconds field of the remainder after whole hours is the seconds field of the whole. */
  lemma SecondsOfTheHour(seconds: nat)
    ensures seconds % 3600 % 60 == seconds % 60
  {
    var q, r := seconds / 3600, seconds % 3600;
    var m, x := r / 60, r % 60;
    assert seconds == (60 * q + m) * 60 + x;
    DivModUnique(seconds, 60, 60 * q + m, x);
  }

  /** The examples of the display format. */
  lemma FormatTimeExamples()
    ensures FormatTime(0) == "0 : 0"
    ensures FormatTime(59) == "0 : 59"
    ensures FormatTime(3600) == "1 : 0 : 0"
    ensures FormatTime(3661) == "1 : 1 : 1"
  {
    FormatTimeUnderAnHour(0);
    FormatTimeUnderAnHour(59);
    FormatTimeFromAnHour(3600);
    FormatTimeFromAnHour(3661);
    assert NatToString(59) == NatToString(5) + [DigitChar(9)];
  }
}
