/**
 * `convert_duration`: a number of seconds as text such as
 * "1 hrs 2 mins 5 secs". The hours part appears only when there are whole
 * hours, the minutes part only when the minutes are non-zero, and the
 * seconds part always.
 *
 * `ParseDuration` reads such a text back; it is not part of the source and
 * serves as the inverse against which the formatting is proved.
 */
module Duration {
  import opened Wrappers
  import opened Decimal

  datatype Clock = Clock(hours: nat, minutes: nat, seconds: nat)

  /** Hours, minutes and seconds of n seconds, as the source computes them with `//` and `%=`. */
  function Split(n: nat): (c: Clock)
    ensures c.hours * 3600 + c.minutes * 60 + c.seconds == n
    ensures c.minutes < 60 && c.seconds < 60
  {
    Clock(n / 3600, n % 3600 / 60, n % 3600 % 60)
  }

  /** Only one clock reading with minutes and seconds below 60 adds up to n. */
  lemma {:induction false} SplitUnique(n: nat, c: Clock)
    requires c.hours * 3600 + c.minutes * 60 + c.seconds == n
    requires c.minutes < 60 && c.seconds < 60
    ensures c == Split(n)
  {
    var ms := c.minutes * 60 + c.seconds;
    assert 0 <= ms < 3600;
    assert n / 3600 == c.hours && n % 3600 == ms;
    assert ms / 60 == c.minutes && ms % 60 == c.seconds;
  }

  /** The text the source assembles for a clock reading. */
  function Render(c: Clock): string {
    HoursPart(c.hours) + (MinutesPart(c.minutes) + SecondsPart(c.seconds))
  }

  function HoursPart(h: nat): string {
    if h > 0 then NatToDecimal(h) + " hrs " else ""
  }

  function MinutesPart(m: nat): string {
    if m > 0 then NatToDecimal(m) + " mins " else ""
  }

  function SecondsPart(s: nat): string {
    NatToDecimal(s) + " secs"
  }

  /** What a duration text says: the parts it names, absent parts as None. */
  datatype Reading = Reading(hours: Option<nat>, minutes: Option<nat>, seconds: nat)

  /** The number of seconds a reading stands for. */
  function Total(r: Reading): nat {
    (if r.hours.Some? then r.hours.value * 3600 else 0)
    + (if r.minutes.Some? then r.minutes.value * 60 else 0)
    + r.seconds
  }

  /**
   * Reads "<h> hrs <m> mins <s> secs" with the first two parts optional.
   * stage 0 still accepts hours, stage 1 minutes, stage 2 only seconds.
   */
  function ParseFrom(t: string, stage: nat): Option<Reading>
    decreases |t|, 1
  {
    var k := DigitSpan(t);
    if k == 0 then None else ParseUnit(DecimalValue(t[..k]), t[k..], stage)
  }

  /** What follows a number v: its unit and the rest of the text. */
  function ParseUnit(v: nat, rest: string, stage: nat): Option<Reading>
    decreases |rest|, 0
  {
    if rest == " secs" then Some(Reading(None, None, v))
    else if stage == 0 && |rest| >= 5 && rest[..5] == " hrs " then
      match ParseFrom(rest[5..], 1)
      case None => None
      case Some(r) => Some(r.(hours := Some(v)))
    else if stage <= 1 && |rest| >= 6 && rest[..6] == " mins " then
      match ParseFrom(rest[6..], 2)
      case None => None
      case Some(r) => Some(r.(minutes := Some(v)))
    else None
  }

  function ParseDuration(t: string): Option<Reading> {
    ParseFrom(t, 0)
  }

  /** A number followed by a space-led tail is read as that number, leaving the tail. */
  lemma {:induction false} ReadNumber(n: nat, tail: string, stage: nat)
    requires tail != [] && tail[0] == ' '
    ensures ParseFrom(NatToDecimal(n) + tail, stage) == ParseUnit(n, tail, stage)
  {
    var d := NatToDecimal(n);
    DigitSpanOfDigits(d, tail);
    assert (d + tail)[..|d|] == d;
    assert (d + tail)[|d|..] == tail;
    DecimalRoundTrip(n);
  }

  lemma {:induction false} ParseSeconds(s: nat, stage: nat)
    ensures ParseFrom(SecondsPart(s), stage) == Some(Reading(None, None, s))
  {
    ReadNumber(s, " secs", stage);
  }

  lemma {:induction false} MinutesUnit(m: nat, rest: string, r: Reading, stage: nat)
    requires stage <= 1 && ParseFrom(rest, 2) == Some(r)
    ensures ParseUnit(m, " mins " + rest, stage) == Some(r.(minutes := Some(m)))
  {
    var tail := " mins " + rest;
    assert tail != " secs" by { assert tail[1] != " secs"[1]; }
    assert tail[..5] != " hrs " by { assert tail[1] != " hrs "[1]; }
    assert tail[..6] == " mins " && tail[6..] == rest;
  }

  lemma {:induction false} HoursUnit(h: nat, rest: string, r: Reading)
    requires ParseFrom(rest, 1) == Some(r)
    ensures ParseUnit(h, " hrs " + rest, 0) == Some(r.(hours := Some(h)))
  {
    var tail := " hrs " + rest;
    assert tail != " secs" by { assert tail[1] != " secs"[1]; }
    assert tail[..5] == " hrs " && tail[5..] == rest;
  }

  lemma {:induction false} ParseMinutes(m: nat, s: nat, stage: nat)
    requires m > 0 && stage <= 1
    ensures ParseFrom(MinutesPart(m) + SecondsPart(s), stage) == Some(Reading(None, Some(m), s))
  {
    var secs := SecondsPart(s);
    assert MinutesPart(m) + secs == NatToDecimal(m) + (" mins " + secs);
    ReadNumber(m, " mins " + secs, stage);
    ParseSeconds(s, 2);
    MinutesUnit(m, secs, Reading(None, None, s), stage);
  }

  lemma {:induction false} ParseHours(h: nat, rest: string, r: Reading)
    requires h > 0
    requires ParseFrom(rest, 1) == Some(r)
    ensures ParseFrom(HoursPart(h) + rest, 0) == Some(r.(hours := Some(h)))
  {
    assert HoursPart(h) + rest == NatToDecimal(h) + (" hrs " + rest);
    ReadNumber(h, " hrs " + rest, 0);
    HoursUnit(h, rest, r);
  }

  /** The text after the hours part reads back as its minutes and seconds. */
  lemma {:induction false} ParseAfterHours(m: nat, s: nat, stage: nat)
    requires stage <= 1
    ensures ParseFrom(MinutesPart(m) + SecondsPart(s), stage)
         == Some(Reading(None, if m > 0 then Some(m) else None, s))
  {
    if m > 0 {
      ParseMinutes(m, s, stage);
    } else {
      assert MinutesPart(m) + SecondsPart(s) == SecondsPart(s);
      ParseSeconds(s, stage);
    }
  }

  /**
   * Reading back a rendered clock recovers it: hours are named exactly when
   * positive, minutes exactly when positive, seconds always.
   */
  lemma {:induction false} RenderRoundTrip(c: Clock)
    ensures ParseDuration(Render(c)) == Some(Reading(
      if c.hours > 0 then Some(c.hours) else None,
      if c.minutes > 0 then Some(c.minutes) else None,
      c.seconds))
  {
    var ms := MinutesPart(c.minutes) + SecondsPart(c.seconds);
    var mr := Reading(None, if c.minutes > 0 then Some(c.minutes) else None, c.seconds);
    if c.hours > 0 {
      ParseAfterHours(c.minutes, c.seconds, 1);
      ParseHours(c.hours, ms, mr);
    } else {
      ParseAfterHours(c.minutes, c.seconds, 0);
      assert Render(c) == ms;
    }
  }

  /** The duration text of n seconds reads back as n, naming hours and minutes only when present. */
  lemma {:induction false} DurationReadsBack(n: nat)
    ensures ParseDuration(Render(Split(n))).Some?
    ensures var r := ParseDuration(Render(Split(n))).value;
      && Total(r) == n
      && (r.hours.Some? <==> n >= 3600)
      && (r.minutes.Some? <==> n % 3600 >= 60)
      && r.seconds == n % 60
  {
    var c := Split(n);
    RenderRoundTrip(c);
    assert c.hours > 0 <==> n >= 3600;
  }

  /** Python's `s.endswith(suffix)`. */
  predicate EndsWith(s: string, suffix: string) {
    |suffix| <= |s| && s[|s| - |suffix|..] == suffix
  }

  /** Taking minutes off after whole hours leaves the same seconds as taking them off directly. */
  lemma ModuloHourThenMinute(n: nat)
    ensures n % 3600 % 60 == n % 60
  {
    var q, r := n / 3600, n % 3600;
    assert n == (q * 60) * 60 + r;
    assert (q * 60 * 60 + r) % 60 == r % 60;
  }

  /** Regrouping a three-part concatenation, stated apart to keep ConvertDuration's proof small. */
  lemma Associate(a: string, b: string, c: string)
    ensures a + b + c == a + (b + c)
  {
  }

  /** A concatenation ends with its last part. */
  lemma EndsWithLast(a: string, b: string)
    ensures EndsWith(a + b, b)
  {
    assert (a + b)[|a|..] == b;
  }

  /** `convert_duration`, step by step as the source reassigns `seconds` and grows `duration`. */
  method ConvertDuration(seconds: nat) returns (duration: string)
    ensures duration == Render(Split(seconds))
    ensures EndsWith(duration, NatToDecimal(seconds % 60) + " secs")
    ensures ParseDuration(duration).Some?
    ensures var r := ParseDuration(duration).value;
      && Total(r) == seconds
      && (r.hours.Some? <==> seconds >= 3600)
      && (r.minutes.Some? <==> seconds % 3600 >= 60)
      && r.seconds == seconds % 60
  {
    var rem := seconds;
    var hours := rem / 3600;
    rem := rem % 3600;
    var minutes := rem / 60;
    rem := rem % 60;
    duration := "";
    if hours > 0 {
      duration := duration + (NatToDecimal(hours) + " hrs ");
    }
    assert duration == HoursPart(hours);
    if minutes > 0 {
      duration := duration + (NatToDecimal(minutes) + " mins ");
    }
    assert duration == HoursPart(hours) + MinutesPart(minutes);
    duration := duration + (NatToDecimal(rem) + " secs");
    Associate(HoursPart(hours), MinutesPart(minutes), SecondsPart(rem));
    assert Split(seconds) == Clock(hours, minutes, rem);
    ModuloHourThenMinute(seconds);
    DurationReadsBack(seconds);
    EndsWithLast(HoursPart(hours) + MinutesPart(minutes), SecondsPart(rem));
  }
}
