# Deva Timer: channel countdown board

A model of the "Deva Timer" Streamlit page (`app.py`), a board of eight
channels, `Canal 1` to `Canal 8`, on which a group tracks boss-respawn
countdowns. Each channel is either idle or holds an absolute deadline. Next
to an idle channel the page offers "Iniciar 5 min" (normal Deva) and
"Iniciar 8 min" (mutant Deva). Next to a channel with a timer it shows the
remaining time and offers "Reiniciar 5 min" and "Resetear".

The project has four modules:

- `Wrappers` (`wrappers.dfy`): `Option`, standing for Python's `None` or a value.
- `Decimal` (`decimal.dfy`): decimal rendering of non-negative integers, as
  `str(i)` and the format spec `{n:02d}` produce it. `Value` parses digits
  back, so that the rendering can be stated as a round trip.
- `Countdown` (`countdown.dfy`): `format_time_delta`. A duration is an integer
  count of microseconds, which is how a `timedelta` stores it. The function
  truncates toward zero to whole seconds, shows `¡Listo!` when no whole
  second is left and `mm:ss` otherwise. `LabelSeconds` reads an `mm:ss`
  label back as seconds; the round-trip lemma reads labels back with it.
- `Channels` (`channels.dfy`): the channel table as a value (`Table`, a map
  from label to `Option<int>` deadline), the four buttons as `Action` (a
  button that sets a deadline carries the instant it was pressed), the
  transition function `Apply`, and the Streamlit session state as the class
  `SessionState`. Its field `channels` is `None` until the page first runs.
  Each button is one method that updates that field in place. `RenderAll`
  is the rendering loop, and it only reads the table.

Instants are integer microseconds, the resolution of a `datetime`.
`datetime.now()` is a parameter `now`. A channel's remaining time is
`deadline - now`, which goes straight into `Countdown.Format`.

## Model

| member | source | states |
|---|---|---|
| Countdown.WholeSeconds | app.py:34 | `int(td.total_seconds())` truncates toward zero: for a non-negative duration `t` seconds is the largest whole count not above it, for a negative one the smallest not below it |
| Countdown.Format | app.py:32-38 | the label is `¡Listo!` exactly when the truncated whole-second count is zero or negative |
| Countdown.FormatRoundTrip | app.py:35-38 | a positive whole-second count `t` is recovered from its label as `minutes*60 + seconds`; `¡Listo!` is not an `mm:ss` label |
| Countdown.Clock | app.py:38 | `f"{minutes:02d}:{seconds:02d}"` starts with a digit, is at least five wide, and for seconds below 60 reads back as `minutes*60 + seconds` |
| Countdown.ClockFields | app.py:37-38 | in an `mm:ss` label the seconds field is exactly two digits and below 60; the minutes field is all digits and at least two wide; the label is wider than five characters exactly when the count reaches 100 minutes, and starts with `0` exactly when it is under 10 minutes |
| Countdown.FormatAt | app.py:34-38 | a remaining duration of at least `m:s` and under one second more is shown as `f"{m:02d}:{s:02d}"` |
| Countdown.ReadyUnderOneSecond | app.py:34-36 | `¡Listo!` is shown exactly when less than one second remains, including every negative remainder |
| Decimal.Digits | app.py:22 | `str(n)` gives at least one digit, no leading zero for a positive `n`, one digit exactly below 10 and at most two exactly below 100 |
| Decimal.ValueOfDigits | app.py:22 | the digits of `str(n)` read back as `n` |
| Decimal.ZeroPad2 | app.py:38 | `{n:02d}` is all digits, at least two wide, exactly two wide exactly when `n < 100`, has a leading `0` exactly when `n < 10`, and reads back as `n`; these fix the string |
| Channels.ChannelLabel | app.py:22 | `f"Canal {i}"` is `Canal ` followed by digits that read back as `i`, with no leading zero for a positive `i`; this fixes the string |
| Channels.ChannelLabelInjective | app.py:22 | different channel numbers give different `Canal i` labels |
| Channels.ChannelLabels | app.py:22 | the labels in insertion order are `Canal 1` .. `Canal 8`, none repeated |
| Channels.InitialTable | app.py:22 | the initial table has exactly eight keys, `Canal 1` to `Canal 8`, and no channel has a timer |
| Channels.Offered | app.py:45-54 | the guard `if end_time is None` / `else`: the start buttons are drawn exactly for an idle channel, restart and reset exactly for one with a timer |
| Channels.NewEntry | app.py:48-63 | a reset stores no timer; every other button stores a deadline 5 minutes after the press, or 8 for "Iniciar 8 min" |
| Channels.ChannelText | app.py:53-57 | a row shows `Sin timer` exactly for an idle channel; for a timer it shows `format_time_delta` of the remaining time (deadline minus now), which is `¡Listo!` exactly when under one second remains |
| Channels.Apply | app.py:45-63 | a button press changes only its own channel's entry; the set of channels and every other channel's entry are unchanged |
| Channels.ActionDeadlines | app.py:45-63 | start buttons are offered exactly on an idle channel; "Iniciar 5 min" sets the deadline to the press instant + 300 s, "Iniciar 8 min" to + 480 s, "Reiniciar 5 min" to + 300 s whatever the old deadline, "Resetear" clears it |
| Channels.RestartIsResetThenStart | app.py:59-63 | restarting a channel gives the same table as resetting it and then starting five minutes |
| Channels.StartThenResetRestores | app.py:47-63 | resetting a channel right after starting it gives back the table as it was before the start |
| Channels.StartShowsFullDuration | app.py:47-60 | rendered at the instant of the press, a started or restarted channel would show `05:00`, or `08:00` for the eight-minute start |
| Channels.NextRenderShows | app.py:47-60 | rendered at any instant within one second after the press, it shows `04:59`, or `07:59` for the eight-minute start (the next run comes that soon only with the optional one-second auto-refresh, app.py:25-30) |
| Channels.FinishedTimerStays | app.py:54-63 | a timer less than a second from its deadline, or past it, shows `¡Listo!` but keeps its deadline, and its channel still offers only restart and reset |
| Channels.SessionState.InitChannels | app.py:21-22 | the table is built only when absent; an existing table is left exactly as it is, so repeated runs do not overwrite it |
| Channels.SessionState.StartFive | app.py:47-48 | on an idle channel, the new table is `Apply` of "Iniciar 5 min": deadline now + 5 min, nothing else changes |
| Channels.SessionState.StartEight | app.py:50-51 | on an idle channel, the new table is `Apply` of "Iniciar 8 min": deadline now + 8 min, nothing else changes |
| Channels.SessionState.RestartFive | app.py:59-60 | on a channel with a timer, the new table is `Apply` of "Reiniciar 5 min": deadline now + 5 min, nothing else changes |
| Channels.SessionState.Reset | app.py:62-63 | on a channel with a timer, the new table is `Apply` of "Resetear": no timer, nothing else changes |
| Channels.SessionState.RenderAll | app.py:41-57 | the loop yields one text per channel in table order: `Sin timer` for an idle channel, the countdown label for one with a timer; it changes no state |

## Left out

- Streamlit rendering and layout (page configuration, title, instructions,
  columns, channel headings, the button widgets themselves). A button that
  is not drawn cannot be pressed, so each action method requires that its
  button is offered for the channel's current entry.
- The auto-refresh import, its `ImportError` fallback and its refresh cadence
  and limit: these are an external library and polling.
- The wall clock: `datetime.now()` becomes the parameter `now`, or the
  instant carried by a button press. `RenderAll` renders every row at one
  instant, where the page reads the clock afresh for each row.
- Countdown.WholeSeconds: models exact truncation of the microsecond count,
  not the floating-point division inside `total_seconds()`, which can round
  differently only for durations beyond about 2^53 microseconds (285 years).
- Dict iteration order: the table is a `map`, and the order in which rows
  are rendered is the fixed insertion order `ChannelLabels()`.
- Within one page run, a pressed button updates the table while the rest of
  that channel's row is still drawn from the entry read before the press;
  the model treats a press and the rendering as separate steps.
