/**
 * The elapsed-time text printed at the end of a run: `<h>h <m>m <s.sss>s`,
 * where the hours part appears only when there is at least one whole hour and
 * the minutes part only when there is at least one whole minute left over.
 *
 * The fractional seconds text comes from a locale-independent "0.000"
 * decimal format of a floating-point value; it is a parameter here:
 * `secondsText(wholeSeconds, nanos)` stands for the text of
 * wholeSeconds + nanos / 1e9.
 */
module DurationFormat {
  import opened Decimal

  const SecondsPerHour: nat := 3600
  const SecondsPerMinute: nat := 60

  /** A duration broken into whole hours, minutes and seconds. */
  datatype Clock = Clock(hours: nat, minutes: nat, seconds: nat)

  /**
   * The integer arithmetic of the formatter: hours by integer division, then
   * minutes of what is left, then the remaining seconds.
   */
  function Split(allSeconds: nat): (c: Clock)
    ensures c.minutes < 60 && c.seconds < 60
    ensures SecondsPerHour * c.hours + SecondsPerMinute * c.minutes + c.seconds == allSeconds
  {
    var hours := allSeconds / SecondsPerHour;
    var minutes := (allSeconds - hours * SecondsPerHour) / SecondsPerMinute;
    Clock(hours, minutes, allSeconds - hours * SecondsPerHour - minutes * SecondsPerMinute)
  }

  /** The split is the only one with minutes and seconds below 60. */
  lemma SplitUnique(allSeconds: nat, c: Clock)
    requires c.minutes < 60 && c.seconds < 60
    requires SecondsPerHour * c.hours + SecondsPerMinute * c.minutes + c.seconds == allSeconds
    ensures Split(allSeconds) == c
  {
    var d := Split(allSeconds);
    assert 60 * c.minutes + c.seconds < 3600;
    assert 60 * d.minutes + d.seconds < 3600;
    assert c.hours == d.hours;
    assert c.minutes == d.minutes;
  }

  /** `<value><unit> ` when the value is positive, nothing otherwise. */
  function UnitPart(value: nat, unit: char): string
  {
    if value > 0 then NatToString(value) + [unit, ' '] else ""
  }

  function DurationText(allSeconds: nat, nanos: nat, secondsText: (nat, nat) -> string): string
  {
    var c := Split(allSeconds);
    UnitPart(c.hours, 'h') + UnitPart(c.minutes, 'm') + secondsText(c.seconds, nanos) + "s"
  }

  /**
   * The formatter: append the hours part if any, then the minutes part if
   * any, then the seconds text and the `s` suffix.
   */
  method FormatDuration(allSeconds: nat, nanos: nat, secondsText: (nat, nat) -> string) returns (text: string)
    ensures text == DurationText(allSeconds, nanos, secondsText)
    ensures |text| > 0 && text[|text| - 1] == 's'
  {
    var builder: string := [];
    var hours := allSeconds / SecondsPerHour;
    if hours > 0 {
      builder := builder + NatToString(hours) + "h ";
    }
    var minutes := (allSeconds - hours * SecondsPerHour) / SecondsPerMinute;
    if minutes > 0 {
      builder := builder + NatToString(minutes) + "m ";
    }
    var seconds := allSeconds - hours * SecondsPerHour - minutes * SecondsPerMinute;
    builder := builder + secondsText(seconds, nanos);
    builder := builder + "s";
    text := builder;
    assert Split(allSeconds) == Clock(hours, minutes, seconds);
  }

  /** A unit part holds the unit letter exactly when the value is positive. */
  lemma UnitPartShown(value: nat, unit: char)
    requires !IsDigit(unit) && unit != ' '
    ensures unit in UnitPart(value, unit) <==> value > 0
  {
    if value > 0 {
      assert UnitPart(value, unit)[|NatToString(value)|] == unit;
    } else {
      assert UnitPart(value, unit) == "";
    }
  }

  /** The letter `unit` does not occur in any part except its own. */
  lemma UnitPartLacks(value: nat, unit: char, other: char)
    requires !IsDigit(other) && other != ' ' && other != unit
    ensures other !in UnitPart(value, unit)
  {
  }

  /**
   * The hours part appears exactly when there is a whole hour, and the
   * minutes part exactly when whole minutes remain after the hours, provided
   * the seconds text uses neither letter.
   */
  lemma UnitsShownIffPositive(allSeconds: nat, nanos: nat, secondsText: (nat, nat) -> string)
    requires 'h' !in secondsText(Split(allSeconds).seconds, nanos)
    requires 'm' !in secondsText(Split(allSeconds).seconds, nanos)
    ensures 'h' in DurationText(allSeconds, nanos, secondsText) <==> Split(allSeconds).hours > 0
    ensures 'm' in DurationText(allSeconds, nanos, secondsText) <==> Split(allSeconds).minutes > 0
  {
    var c := Split(allSeconds);
    var hPart, mPart := UnitPart(c.hours, 'h'), UnitPart(c.minutes, 'm');
    var tail := secondsText(c.seconds, nanos) + "s";
    assert DurationText(allSeconds, nanos, secondsText) == hPart + mPart + tail;
    UnitPartShown(c.hours, 'h');
    UnitPartShown(c.minutes, 'm');
    UnitPartLacks(c.hours, 'h', 'm');
    UnitPartLacks(c.minutes, 'm', 'h');
    assert 'h' !in tail && 'm' !in tail;
  }

  /** Under a minute only the seconds text is shown. */
  lemma UnderAMinute(allSeconds: nat, nanos: nat, secondsText: (nat, nat) -> string)
    requires allSeconds < 60
    ensures DurationText(allSeconds, nanos, secondsText) == secondsText(allSeconds, nanos) + "s"
  {
    SplitUnique(allSeconds, Clock(0, 0, allSeconds));
  }

  /** Exactly one hour shows the hour and no minutes part. */
  lemma ExactlyOneHour(nanos: nat, secondsText: (nat, nat) -> string)
    ensures DurationText(3600, nanos, secondsText) == "1h " + secondsText(0, nanos) + "s"
  {
    SplitUnique(3600, Clock(1, 0, 0));
  }

  /** Two minutes show no hours part. */
  lemma TwoMinutes(nanos: nat, secondsText: (nat, nat) -> string)
    ensures DurationText(120, nanos, secondsText) == "2m " + secondsText(0, nanos) + "s"
  {
    SplitUnique(120, Clock(0, 2, 0));
  }

  /** One hour, one minute and one second show all three parts. */
  lemma OneHourOneMinuteOneSecond(nanos: nat, secondsText: (nat, nat) -> string)
    ensures DurationText(3661, nanos, secondsText) == "1h 1m " + secondsText(1, nanos) + "s"
  {
    SplitUnique(3661, Clock(1, 1, 1));
  }
}
