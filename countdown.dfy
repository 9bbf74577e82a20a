/**
 * `format_time_delta`: the countdown label shown for a channel whose timer
 * is running. A duration is an integer count of microseconds, the unit in
 * which a `timedelta` is stored.
 */
module Countdown {
  import opened Wrappers
  import opened Decimal

  const MicrosPerSecond: int := 1_000_000
  const SecondsPerMinute: int := 60

  /** The label shown once the countdown has run out. */
  const Ready: string := "¡Listo!"

  /**
   * `int(td.total_seconds())`: the duration in whole seconds, truncated
   * toward zero (so a negative remainder of less than a second gives 0).
   */
  function WholeSeconds(us: int): (t: int)
    ensures 0 <= us ==> 0 <= t && t * MicrosPerSecond <= us < (t + 1) * MicrosPerSecond
    ensures us < 0 ==> t <= 0 && (t - 1) * MicrosPerSecond < us <= t * MicrosPerSecond
  {
    if us >= 0 then us / MicrosPerSecond else -((-us) / MicrosPerSecond)
  }

  /**
   * Reads an `mm:ss` label back as a number of seconds: digits, a colon,
   * then exactly two digits worth less than 60. Any other text reads as None.
   */
  function LabelSeconds(text: string): Option<nat> {
    if |text| < 5 || text[|text| - 3] != ':' then None
    else
      var minutes, seconds := text[..|text| - 3], text[|text| - 2..];
      if AllDigits(minutes) && AllDigits(seconds) && Value(seconds) < SecondsPerMinute
      then Some(Value(minutes) * SecondsPerMinute + Value(seconds))
      else None
  }

  /**
   * `f"{minutes:02d}:{seconds:02d}"`: digits, a colon and two digits; for
   * seconds below 60 it reads back as `minutes * 60 + seconds`.
   */
  function Clock(minutes: nat, seconds: nat): (text: string)
    ensures |text| >= 5 && IsDigit(text[0])
    ensures seconds < SecondsPerMinute ==> LabelSeconds(text) == Some(minutes * SecondsPerMinute + seconds)
  {
    ClockReadsBack(minutes, seconds);
    ZeroPad2(minutes) + ":" + ZeroPad2(seconds)
  }

  lemma ClockReadsBack(minutes: nat, seconds: nat)
    ensures seconds < SecondsPerMinute ==>
      LabelSeconds(ZeroPad2(minutes) + ":" + ZeroPad2(seconds)) == Some(minutes * SecondsPerMinute + seconds)
  {
    if seconds >= SecondsPerMinute {
      return;
    }
    var mm, ss := ZeroPad2(minutes), ZeroPad2(seconds);
    var text := mm + ":" + ss;
    assert |ss| == 2 && |text| == |mm| + 3;
    assert text[|text| - 3] == ':';
    assert text[..|text| - 3] == mm;
    assert text[|text| - 2..] == ss;
  }

  /**
   * The label for a remaining duration: `¡Listo!` exactly when no whole
   * second is left, otherwise a label starting with a digit.
   */
  function Format(us: int): (text: string)
    ensures text == Ready <==> WholeSeconds(us) <= 0
    ensures |text| >= 5 && (text == Ready || IsDigit(text[0]))
  {
    var total := WholeSeconds(us);
    if total <= 0 then Ready
    else
      var text := Clock(total / SecondsPerMinute, total % SecondsPerMinute);
      assert text[0] != Ready[0];
      text
  }

  /**
   * The label determines the whole-second count: a positive count reads back
   * from its `mm:ss` label, and `¡Listo!` is not an `mm:ss` label.
   */
  lemma FormatRoundTrip(us: int)
    ensures LabelSeconds(Format(us)) == if WholeSeconds(us) > 0 then Some(WholeSeconds(us)) else None
  {
  }

  /**
   * The shape of an `mm:ss` label: the seconds field is exactly two digits
   * below 60, the minutes field is all digits and at least two wide, it is
   * wider than two exactly when the count reaches 100 minutes, and it has a
   * leading zero exactly when the count is under 10 minutes.
   */
  lemma ClockFields(us: int)
    requires WholeSeconds(us) > 0
    ensures var text := Format(us);
      && |text| >= 5
      && text[|text| - 3] == ':'
      && AllDigits(text[|text| - 2..]) && Value(text[|text| - 2..]) < SecondsPerMinute
      && AllDigits(text[..|text| - 3])
      && (|text| == 5 <==> WholeSeconds(us) < 100 * SecondsPerMinute)
      && (text[0] == '0' <==> WholeSeconds(us) < 10 * SecondsPerMinute)
  {
  }

  /**
   * A remaining duration of at least `minutes:seconds` and less than one
   * second more is shown as that `mm:ss` label.
   */
  lemma FormatAt(us: int, minutes: nat, seconds: nat)
    requires seconds < SecondsPerMinute && minutes * SecondsPerMinute + seconds > 0
    requires (minutes * SecondsPerMinute + seconds) * MicrosPerSecond <= us
    requires us < (minutes * SecondsPerMinute + seconds + 1) * MicrosPerSecond
    ensures Format(us) == Clock(minutes, seconds)
  {
    var total := minutes * SecondsPerMinute + seconds;
    assert WholeSeconds(us) == total;
    assert total / SecondsPerMinute == minutes && total % SecondsPerMinute == seconds;
  }

  /** `¡Listo!` is shown exactly when less than one second remains, however far past zero. */
  lemma ReadyUnderOneSecond(us: int)
    ensures Format(us) == Ready <==> us < MicrosPerSecond
  {
  }
}
