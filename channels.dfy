/**
 * The per-channel timer table kept in the session state: eight channels,
 * each either without a timer or with an absolute deadline, changed one
 * channel at a time by the buttons drawn next to it.
 *
 * Instants and durations are integer microseconds (the resolution of a
 * `datetime`); `now` stands for `datetime.now()` and is passed in.
 */
module Channels {
  import opened Wrappers
  import opened Decimal
  import Countdown

  /** Channel label to deadline; `None` is a channel without a timer. */
  type Table = map<string, Option<int>>

  const ChannelCount: nat := 8
  const MicrosPerMinute: int := Countdown.SecondsPerMinute * Countdown.MicrosPerSecond

  /** What an idle channel shows in place of a countdown. */
  const NoTimer: string := "Sin timer"

  /** `f"Canal {i}"`: the word `Canal`, a space, and the channel number in decimal. */
  function ChannelLabel(i: nat): (name: string)
    ensures |name| > 6 && name[..6] == "Canal " && AllDigits(name[6..]) && Value(name[6..]) == i
    ensures i > 0 ==> name[6] != '0'
  {
    ValueOfDigits(i);
    var name := "Canal " + Digits(i);
    assert name[6..] == Digits(i);
    name
  }

  /** Different channel numbers give different labels. */
  lemma ChannelLabelInjective(i: nat, j: nat)
    ensures ChannelLabel(i) == ChannelLabel(j) ==> i == j
  {
  }

  /** The labels in the order the table was built, `Canal 1` first; no label repeats. */
  function ChannelLabels(): (labels: seq<string>)
    ensures |labels| == ChannelCount
    ensures forall i :: 0 <= i < ChannelCount ==> labels[i] == ChannelLabel(i + 1)
    ensures forall i, j :: 0 <= i < j < |labels| ==> labels[i] != labels[j]
  {
    var labels := seq(ChannelCount, i requires 0 <= i => ChannelLabel(i + 1));
    forall i, j | 0 <= i < j < |labels| ensures labels[i] != labels[j] {
      ChannelLabelInjective(i + 1, j + 1);
    }
    labels
  }

  /** A sequence without repetitions has as many distinct elements as it is long. */
  lemma {:induction false} DistinctCardinality(s: seq<string>)
    requires forall i, j :: 0 <= i < j < |s| ==> s[i] != s[j]
    ensures |set x | x in s| == |s|
  {
    if s != [] {
      DistinctCardinality(s[1..]);
      assert (set x | x in s) == {s[0]} + (set x | x in s[1..]);
      assert s[0] !in s[1..];
    }
  }

  /**
   * `{f"Canal {i}": None for i in range(1, 9)}`: exactly eight channels,
   * `Canal 1` to `Canal 8`, none of them with a timer.
   */
  function InitialTable(): (t: Table)
    ensures t.Keys == set i | 1 <= i <= ChannelCount :: ChannelLabel(i)
    ensures |t| == ChannelCount
    ensures forall k :: k in t ==> t[k] == None
  {
    var labels := ChannelLabels();
    DistinctCardinality(labels);
    LabelsAreNamed();
    map k | k in labels :: None
  }

  lemma LabelsAreNamed()
    ensures (set x | x in ChannelLabels()) == set i | 1 <= i <= ChannelCount :: ChannelLabel(i)
  {
    var labels := ChannelLabels();
    forall i | 1 <= i <= ChannelCount ensures ChannelLabel(i) in labels {
      assert labels[i - 1] == ChannelLabel(i);
    }
  }

  /**
   * The buttons: two start buttons on an idle channel, restart and reset on
   * one with a timer. A button that sets a deadline carries the instant it
   * was pressed, the `datetime.now()` its handler reads.
   */
  datatype Action = StartFive(pressedAt: int) | StartEight(pressedAt: int) | RestartFive(pressedAt: int) | Reset

  /** The button for `a` is drawn next to a channel holding `entry`. */
  predicate Offered(entry: Option<int>, a: Action)
    ensures Offered(entry, a) <==> (a.StartFive? || a.StartEight?) == entry.None?
  {
    match a
    case StartFive(_) => entry.None?
    case StartEight(_) => entry.None?
    case RestartFive(_) => entry.Some?
    case Reset => entry.Some?
  }

  /**
   * The entry a button stores for its channel: a reset clears the timer;
   * every other button sets a deadline five minutes after the press, or
   * eight for "Iniciar 8 min".
   */
  function NewEntry(a: Action): (e: Option<int>)
    ensures e.None? <==> a.Reset?
    ensures e.Some? ==> e.value - a.pressedAt == (if a.StartEight? then 8 else 5) * MicrosPerMinute
  {
    match a
    case StartFive(now) => Some(now + 5 * MicrosPerMinute)
    case StartEight(now) => Some(now + 8 * MicrosPerMinute)
    case RestartFive(now) => Some(now + 5 * MicrosPerMinute)
    case Reset => None
  }

  /**
   * Pressing the button for `a` next to `canal`: that channel gets its new
   * entry; the set of channels and every other channel's entry stay as they were.
   */
  function Apply(t: Table, canal: string, a: Action): (t': Table)
    requires canal in t && Offered(t[canal], a)
    ensures t'.Keys == t.Keys
    ensures t'[canal] == NewEntry(a)
    ensures forall k :: k in t && k != canal ==> t'[k] == t[k]
  {
    t[canal := NewEntry(a)]
  }

  /**
   * What the channel's row shows at `now`: `Sin timer` exactly for an idle
   * channel; for one with a timer, the countdown to its deadline, which is
   * `¡Listo!` exactly when less than a second remains.
   */
  function ChannelText(entry: Option<int>, now: int): (text: string)
    ensures text == NoTimer <==> entry.None?
    ensures entry.Some? ==> text == Countdown.Format(entry.value - now)
    ensures entry.Some? ==> (text == Countdown.Ready <==> entry.value - now < Countdown.MicrosPerSecond)
  {
    if entry.None? then NoTimer
    else
      CountdownIsNotNoTimer(entry.value - now);
      Countdown.Format(entry.value - now)
  }

  /** A countdown label is never `Sin timer`, and it is `¡Listo!` exactly when under a second remains. */
  lemma CountdownIsNotNoTimer(remaining: int)
    ensures Countdown.Format(remaining) != NoTimer
    ensures Countdown.Format(remaining) == Countdown.Ready <==> remaining < Countdown.MicrosPerSecond
  {
    Countdown.ReadyUnderOneSecond(remaining);
    var text := Countdown.Format(remaining);
    assert text == Countdown.Ready || text[0] != NoTimer[0];
  }

  /**
   * A start button sets the deadline to five or eight minutes after the
   * press, and a restart to five minutes after the press whatever the
   * deadline was; a reset clears the timer. Each start is offered only on an
   * idle channel, each restart and reset only on a channel with a timer.
   */
  lemma ActionDeadlines(t: Table, canal: string, a: Action)
    requires canal in t && Offered(t[canal], a)
    ensures a.StartFive? || a.StartEight? <==> t[canal].None?
    ensures a.StartFive? ==> Apply(t, canal, a)[canal] == Some(a.pressedAt + 300 * Countdown.MicrosPerSecond)
    ensures a.StartEight? ==> Apply(t, canal, a)[canal] == Some(a.pressedAt + 480 * Countdown.MicrosPerSecond)
    ensures a.RestartFive? ==> Apply(t, canal, a)[canal] == Some(a.pressedAt + 300 * Countdown.MicrosPerSecond)
    ensures a.Reset? ==> Apply(t, canal, a)[canal] == None
  {
  }

  /** Restarting gives the same table as resetting and then starting five minutes. */
  lemma RestartIsResetThenStart(t: Table, canal: string, now: int)
    requires canal in t && t[canal].Some?
    ensures var reset := Apply(t, canal, Reset);
      Apply(t, canal, RestartFive(now)) == Apply(reset, canal, StartFive(now))
  {
  }

  /** Resetting a channel right after starting it gives back the table before the start. */
  lemma StartThenResetRestores(t: Table, canal: string, a: Action)
    requires canal in t && t[canal].None? && Offered(t[canal], a)
    ensures var started := Apply(t, canal, a);
      Apply(started, canal, Reset) == t
  {
  }

  /**
   * At the instant of the press, a start or restart would show the full
   * duration, `05:00` or `08:00`.
   */
  lemma StartShowsFullDuration(t: Table, canal: string, a: Action)
    requires canal in t && Offered(t[canal], a) && !a.Reset?
    ensures ChannelText(Apply(t, canal, a)[canal], a.pressedAt) ==
      if a.StartEight? then "08:00" else "05:00"
  {
    var entry := Apply(t, canal, a)[canal];
    DisplayedClocks();
    if a.StartEight? {
      assert entry.value - a.pressedAt == 8 * MicrosPerMinute;
      Countdown.FormatAt(entry.value - a.pressedAt, 8, 0);
    } else {
      assert entry.value - a.pressedAt == 5 * MicrosPerMinute;
      Countdown.FormatAt(entry.value - a.pressedAt, 5, 0);
    }
  }

  /**
   * Any later instant up to one second after the press (the next render
   * reads the clock again) shows one second less, `04:59` or `07:59`,
   * because the remainder is truncated to whole seconds.
   */
  lemma NextRenderShows(t: Table, canal: string, a: Action, later: int)
    requires canal in t && Offered(t[canal], a) && !a.Reset?
    requires a.pressedAt < later <= a.pressedAt + Countdown.MicrosPerSecond
    ensures ChannelText(Apply(t, canal, a)[canal], later) ==
      if a.StartEight? then "07:59" else "04:59"
  {
    var deadline := Apply(t, canal, a)[canal].value;
    if a.StartEight? {
      assert deadline == a.pressedAt + 8 * MicrosPerMinute;
      FormatOneSecondShort(deadline - later, 7);
    } else {
      assert deadline == a.pressedAt + 5 * MicrosPerMinute;
      FormatOneSecondShort(deadline - later, 4);
    }
  }

  /** A remainder just under `minutes + 1` whole minutes shows `minutes:59`. */
  lemma FormatOneSecondShort(remaining: int, minutes: nat)
    requires minutes == 4 || minutes == 7
    requires (minutes + 1) * MicrosPerMinute - Countdown.MicrosPerSecond <= remaining < (minutes + 1) * MicrosPerMinute
    ensures Countdown.Format(remaining) == if minutes == 7 then "07:59" else "04:59"
  {
    DisplayedClocks();
    Countdown.FormatAt(remaining, minutes, 59);
  }

  /** The `mm:ss` labels the lemmas above display. */
  lemma DisplayedClocks()
    ensures Countdown.Clock(5, 0) == "05:00" && Countdown.Clock(8, 0) == "08:00"
    ensures Countdown.Clock(4, 59) == "04:59" && Countdown.Clock(7, 59) == "07:59"
  {
    assert ZeroPad2(59) == "59" by {
      assert Digits(59) == Digits(5) + [DigitChar(9)];
    }
  }

  /**
   * A timer whose deadline is less than a second away, or already past,
   * shows `¡Listo!` but stays in the table: the channel still has its
   * deadline, and the buttons next to it are still restart and reset.
   */
  lemma FinishedTimerStays(t: Table, canal: string, now: int)
    requires canal in t && t[canal].Some? && t[canal].value - now < Countdown.MicrosPerSecond
    ensures ChannelText(t[canal], now) == Countdown.Ready
    ensures Offered(t[canal], RestartFive(now)) && Offered(t[canal], Reset)
    ensures !Offered(t[canal], StartFive(now)) && !Offered(t[canal], StartEight(now))
  {
  }

  /** The Streamlit session state: `channels` is absent until the page first runs. */
  class SessionState {
    var channels: Option<Table>

    constructor ()
      ensures channels == None
    {
      channels := None;
    }

    /** The table is present and holds exactly the eight channels. */
    predicate HasBoard()
      reads this
    {
      channels.Some? && channels.value.Keys == set i | 1 <= i <= ChannelCount :: ChannelLabel(i)
    }

    /** Builds the table only when it is absent; an existing table is kept as it is. */
    method InitChannels()
      modifies this
      ensures old(channels).Some? ==> channels == old(channels)
      ensures old(channels).None? ==> channels == Some(InitialTable())
      ensures old(channels).None? ==> HasBoard()
      ensures old(HasBoard()) ==> HasBoard()
    {
      if channels.None? {
        channels := Some(InitialTable());
      }
    }

    /** "Iniciar 5 min" next to an idle channel. */
    method StartFive(canal: string, now: int)
      requires channels.Some? && canal in channels.value && channels.value[canal].None?
      modifies this
      ensures channels == Some(Apply(old(channels.value), canal, Action.StartFive(now)))
      ensures channels.value[canal] == Some(now + 5 * MicrosPerMinute)
      ensures old(HasBoard()) ==> HasBoard()
    {
      channels := Some(channels.value[canal := Some(now + 5 * MicrosPerMinute)]);
    }

    /** "Iniciar 8 min" next to an idle channel. */
    method StartEight(canal: string, now: int)
      requires channels.Some? && canal in channels.value && channels.value[canal].None?
      modifies this
      ensures channels == Some(Apply(old(channels.value), canal, Action.StartEight(now)))
      ensures channels.value[canal] == Some(now + 8 * MicrosPerMinute)
      ensures old(HasBoard()) ==> HasBoard()
    {
      channels := Some(channels.value[canal := Some(now + 8 * MicrosPerMinute)]);
    }

    /** "Reiniciar 5 min" next to a channel with a timer, finished or not. */
    method RestartFive(canal: string, now: int)
      requires channels.Some? && canal in channels.value && channels.value[canal].Some?
      modifies this
      ensures channels == Some(Apply(old(channels.value), canal, Action.RestartFive(now)))
      ensures channels.value[canal] == Some(now + 5 * MicrosPerMinute)
      ensures old(HasBoard()) ==> HasBoard()
    {
      channels := Some(channels.value[canal := Some(now + 5 * MicrosPerMinute)]);
    }

    /** "Resetear" next to a channel with a timer, finished or not. */
    method Reset(canal: string)
      requires channels.Some? && canal in channels.value && channels.value[canal].Some?
      modifies this
      ensures channels == Some(Apply(old(channels.value), canal, Action.Reset))
      ensures channels.value[canal] == None
      ensures old(HasBoard()) ==> HasBoard()
    {
      channels := Some(channels.value[canal := None]);
    }

    /**
     * One pass of the rendering loop: the text of every channel's row, in
     * table order. It only reads the table, so a timer that has run out
     * keeps its deadline until a reset.
     */
    method RenderAll(now: int) returns (texts: seq<string>)
      requires HasBoard()
      ensures |texts| == ChannelCount
      ensures forall i :: 0 <= i < ChannelCount ==>
        texts[i] == ChannelText(channels.value[ChannelLabel(i + 1)], now)
    {
      var labels := ChannelLabels();
      var table := channels.value;
      texts := [];
      for i := 0 to |labels|
        invariant |texts| == i
        invariant forall j :: 0 <= j < i ==> texts[j] == ChannelText(table[labels[j]], now)
      {
        assert labels[i] == ChannelLabel(i + 1);
        texts := texts + [ChannelText(table[labels[i]], now)];
      }
    }
  }
}
