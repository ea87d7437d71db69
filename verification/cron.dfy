/**
 * The one-time CloudWatch Events schedule expression
 * `cron(MM HH DD MM ? YYYY)`: rendering (Go's `%02d` and `%d` verbs) and a
 * parser that recovers the fields, so that what the expression pins down can
 * be stated about the rendered text itself.
 */
module Cron {
  import opened Wrappers
  import Civil

  // ---------------------------------------------------------------------------
  // Decimal numerals
  // ---------------------------------------------------------------------------

  predicate IsDigit(ch: char) {
    '0' <= ch <= '9'
  }

  function Digit(n: int): (ch: char)
    requires 0 <= n < 10
    ensures IsDigit(ch)
  {
    ('0' as int + n) as char
  }

  function DigitValue(ch: char): int
    requires IsDigit(ch)
  {
    ch as int - '0' as int
  }

  /** The shortest decimal numeral of `n` (Go's `%d` of a non-negative integer). */
  function Decimal(n: nat): (s: string)
    ensures 1 <= |s|
    ensures forall i :: 0 <= i < |s| ==> IsDigit(s[i])
    ensures n < 10 <==> |s| == 1
    ensures 10 <= n < 100 ==> |s| == 2
    ensures n > 0 ==> s[0] != '0'
  {
    if n < 10 then [Digit(n)] else Decimal(n / 10) + [Digit(n % 10)]
  }

  /** Go's `%02d` of a non-negative integer: at least two digits, zero-padded on the left. */
  function Pad2(n: nat): (s: string)
    ensures 2 <= |s|
    ensures n < 100 ==> |s| == 2
    ensures forall i :: 0 <= i < |s| ==> IsDigit(s[i])
  {
    if n < 10 then "0" + Decimal(n) else Decimal(n)
  }

  /** Go's `%d` of any integer: a minus sign for negative values. */
  function FormatInt(n: int): (s: string)
    ensures 1 <= |s|
    ensures s[0] == '-' <==> n < 0
    ensures n > 0 ==> s[0] != '0'
    ensures n < 0 ==> 2 <= |s| && s[1] != '0'
  {
    if n < 0 then "-" + Decimal(-n) else Decimal(n)
  }

  /** The value of a non-empty string of digits. */
  function ParseNatural(s: string): (r: Option<nat>)
    ensures r.Some? <==> 1 <= |s| && forall i :: 0 <= i < |s| ==> IsDigit(s[i])
  {
    if |s| == 0 || !IsDigit(s[|s| - 1]) then None
    else if |s| == 1 then Some(DigitValue(s[0]))
    else match ParseNatural(s[..|s| - 1])
      case None => None
      case Some(v) => Some(10 * v + DigitValue(s[|s| - 1]))
  }

  /** A decimal integer with an optional leading minus sign. */
  function ParseInt(s: string): Option<int> {
    if 1 <= |s| && s[0] == '-' then
      match ParseNatural(s[1..])
      case None => None
      case Some(v) => Some(-(v as int))
    else
      match ParseNatural(s)
      case None => None
      case Some(v) => Some(v as int)
  }

  lemma {:induction false} ParseDecimal(n: nat)
    ensures ParseNatural(Decimal(n)) == Some(n)
  {
    if n >= 10 {
      var s := Decimal(n);
      assert s[..|s| - 1] == Decimal(n / 10);
      ParseDecimal(n / 10);
    }
  }

  lemma ParsePad2(n: nat)
    requires n < 100
    ensures ParseNatural(Pad2(n)) == Some(n)
  {
    ParseDecimal(n);
    if n < 10 {
      assert Pad2(n)[..1] == "0";
    }
  }

  lemma ParseFormatInt(n: int)
    ensures ParseInt(FormatInt(n)) == Some(n)
  {
    if n < 0 {
      ParseNegative(-n);
    } else {
      ParseDecimal(n);
      assert IsDigit(Decimal(n)[0]);
    }
  }

  lemma ParseNegative(m: nat)
    requires m > 0
    ensures ParseInt("-" + Decimal(m)) == Some(-(m as int))
  {
  }

  // ---------------------------------------------------------------------------
  // The expression
  // ---------------------------------------------------------------------------

  /** The fields a one-time expression pins down: a single minute of a single year. */
  datatype FireMinute = FireMinute(year: int, month: int, day: int, hour: int, minute: int)

  /** The minute a broken-down time falls in. */
  function MinuteOf(t: Civil.DateTime): FireMinute {
    FireMinute(t.date.year, t.date.month, t.date.day, t.hour, t.minute)
  }

  /**
   * Renders the fields as `cron(MM HH DD MO ? YYYY)`: four `%02d` fields at
   * fixed positions, separated by single spaces, then the wildcard day of
   * week and the `%d` year before the closing parenthesis.
   */
  function Render(f: FireMinute): (e: string)
    requires 0 <= f.minute && 0 <= f.hour && 0 <= f.day && 0 <= f.month
    ensures 21 <= |e| && e[..5] == "cron(" && e[|e| - 1] == ')'
    ensures f.minute < 100 && f.hour < 100 && f.day < 100 && f.month < 100 ==>
      && |e| == 20 + |FormatInt(f.year)|
      && e[7] == ' ' && e[10] == ' ' && e[13] == ' ' && e[16..19] == " ? "
      && e[5..7] == Pad2(f.minute)
      && e[8..10] == Pad2(f.hour)
      && e[11..13] == Pad2(f.day)
      && e[14..16] == Pad2(f.month)
      && e[19..|e| - 1] == FormatInt(f.year)
  {
    var mi, h, d, mo, y := Pad2(f.minute), Pad2(f.hour), Pad2(f.day), Pad2(f.month), FormatInt(f.year);
    Layout(mi, h, d, mo, y);
    "cron(" + mi + " " + h + " " + d + " " + mo + " ? " + y + ")"
  }

  /** Where the parts of `cron(mi h d mo ? y)` sit, when the four fields have two characters each. */
  lemma Layout(mi: string, h: string, d: string, mo: string, y: string)
    requires 2 <= |mi| && 2 <= |h| && 2 <= |d| && 2 <= |mo| && 1 <= |y|
    ensures var e := "cron(" + mi + " " + h + " " + d + " " + mo + " ? " + y + ")";
      && 21 <= |e| && e[..5] == "cron(" && e[|e| - 1] == ')'
      && (|mi| == 2 && |h| == 2 && |d| == 2 && |mo| == 2 ==>
            && |e| == 20 + |y|
            && e[7] == ' ' && e[10] == ' ' && e[13] == ' ' && e[16..19] == " ? "
            && e[5..7] == mi && e[8..10] == h && e[11..13] == d && e[14..16] == mo
            && e[19..|e| - 1] == y)
  {
    var p1 := "cron(" + mi;
    var p2 := p1 + " " + h;
    var p3 := p2 + " " + d;
    var p4 := p3 + " " + mo;
    var p5 := p4 + " ? ";
    assert "cron(" + mi + " " + h + " " + d + " " + mo + " ? " + y + ")" == p5 + y + ")";
    AppendParts("cron(", mi);
    AppendParts(p1 + " ", h);
    AppendParts(p2 + " ", d);
    AppendParts(p3 + " ", mo);
    AppendParts(p4, " ? ");
    AppendParts(p5, y + ")");
    AppendParts(p5 + y, ")");
    PrefixOfPrefix(p5 + y + ")", p5, p4);
    PrefixOfPrefix(p5 + y + ")", p4, p3);
    PrefixOfPrefix(p5 + y + ")", p3, p2);
    PrefixOfPrefix(p5 + y + ")", p2, p1);
  }

  /**
   * Reads back an expression of the rendered shape: two-digit minute, hour,
   * day and month at fixed positions, a wildcard day of week and a year.
   */
  function Parse(e: string): Option<FireMinute> {
    if |e| < 21 || e[..5] != "cron(" || e[7] != ' ' || e[10] != ' ' || e[13] != ' '
       || e[16..19] != " ? " || e[|e| - 1] != ')'
    then None
    else
      match (ParseNatural(e[5..7]), ParseNatural(e[8..10]), ParseNatural(e[11..13]),
             ParseNatural(e[14..16]), ParseInt(e[19..|e| - 1]))
      case (Some(mi), Some(h), Some(d), Some(mo), Some(y)) => Some(FireMinute(y, mo, d, h, mi))
      case _ => None
  }

  /**
   * `GenerateOneTimeCronExpression`: the one-time expression for the minute
   * holding `secFromNow` seconds after `now`.
   */
  function GenerateOneTimeCronExpression(secFromNow: int, now: Civil.Instant): (e: string)
    ensures Parse(e) == Some(MinuteOf(Civil.FromInstant(now + secFromNow)))
  {
    RenderParses(MinuteOf(Civil.FromInstant(now + secFromNow)));
    Render(MinuteOf(Civil.FromInstant(now + secFromNow)))
  }

  /** The two halves of a concatenation can be sliced back out. */
  lemma AppendParts(a: string, b: string)
    ensures (a + b)[..|a|] == a && (a + b)[|a|..] == b
  {
  }

  /** A prefix of a prefix of `s` is a prefix of `s`, found at the same positions. */
  lemma PrefixOfPrefix(s: string, p: string, q: string)
    requires |p| <= |s| && s[..|p|] == p
    requires |q| <= |p| && p[..|q|] == q
    ensures s[..|q|] == q
    ensures forall i :: 0 <= i < |q| ==> s[i] == q[i]
  {
    assert forall i :: 0 <= i < |q| ==> s[i] == p[i] == q[i];
  }

  /** Parsing undoes rendering for every field value a calendar time can have. */
  lemma RenderParses(f: FireMinute)
    requires 0 <= f.minute < 100 && 0 <= f.hour < 100 && 0 <= f.day < 100 && 0 <= f.month < 100
    ensures Parse(Render(f)) == Some(f)
  {
    ParsePad2(f.minute);
    ParsePad2(f.hour);
    ParsePad2(f.day);
    ParsePad2(f.month);
    ParseFormatInt(f.year);
  }

  // ---------------------------------------------------------------------------
  // When the rule fires
  // ---------------------------------------------------------------------------

  /** The first second of a named minute. */
  function MinuteStart(f: FireMinute): Civil.Instant
    requires Civil.Valid(Civil.DateTime(Civil.Date(f.year, f.month, f.day), f.hour, f.minute, 0))
  {
    Civil.ToInstant(Civil.DateTime(Civil.Date(f.year, f.month, f.day), f.hour, f.minute, 0))
  }

  /**
   * The expression only names a minute, so the rule fires at the start of
   * the minute holding the requested instant: up to 59 seconds before it,
   * never after it.
   */
  lemma FiresAtMinuteStart(secFromNow: int, now: Civil.Instant)
    ensures var t := now + secFromNow;
      var f := Parse(GenerateOneTimeCronExpression(secFromNow, now));
      && f.Some?
      && Civil.Valid(Civil.DateTime(Civil.Date(f.value.year, f.value.month, f.value.day), f.value.hour, f.value.minute, 0))
      && MinuteStart(f.value) == t - Civil.FromInstant(t).second
      && t - 59 <= MinuteStart(f.value) <= t
  {
    var t := now + secFromNow;
    var a := Civil.FromInstant(t);
    assert Civil.ToInstant(Civil.DateTime(a.date, a.hour, a.minute, 0)) == Civil.ToInstant(a) - a.second;
  }

  /**
   * A delay of a full minute can still fire one second after `now`: at
   * 00:00:59 the fire instant is 00:01:59, and the rule fires at 00:01:00.
   */
  lemma MinuteDelayCanFireOneSecondLater()
    ensures var f := Parse(GenerateOneTimeCronExpression(60, 59));
      && f == Some(FireMinute(1970, 1, 1, 0, 1))
      && MinuteStart(f.value) == 59 + 1
  {
    var a := Civil.DateTime(Civil.Date(1970, 1, 1), 0, 1, 59);
    assert Civil.ToInstant(a) == 119;
    Civil.FromToInstant(a);
    FiresAtMinuteStart(60, 59);
  }

  /** 90 seconds after 2024-01-01T00:00:00Z renders as `cron(01 00 01 01 ? 2024)`. */
  lemma NewYear2024Example()
    ensures GenerateOneTimeCronExpression(90, 1704067200) == "cron(01 00 01 01 ? 2024)"
  {
    Civil.FourYearCycleStarts(13);
    Civil.YearStartStep(2022);
    Civil.YearStartStep(2023);
    var a := Civil.DateTime(Civil.Date(2024, 1, 1), 0, 1, 30);
    assert Civil.ToInstant(a) == 1704067290;
    Civil.FromToInstant(a);
    var e := GenerateOneTimeCronExpression(90, 1704067200);
    assert e == Render(MinuteOf(Civil.FromInstant(1704067200 + 90)));
    RenderNewYearMinute();
  }

  /** The rendering of the first minute of 2024. */
  lemma RenderNewYearMinute()
    ensures Render(FireMinute(2024, 1, 1, 0, 1)) == "cron(01 00 01 01 ? 2024)"
  {
    PadSmall();
    FormatYear2024();
  }

  /** The `%02d` fields of the first minute of a year. */
  lemma PadSmall()
    ensures Pad2(0) == "00" && Pad2(1) == "01"
  {
  }

  /** The `%d` rendering of the year 2024. */
  lemma FormatYear2024()
    ensures FormatInt(2024) == "2024"
  {
    assert Decimal(2024) == Decimal(202) + "4" && Decimal(202) == Decimal(20) + "2";
  }
}
