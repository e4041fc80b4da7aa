/** The event log: a newest-first list of combat lines, and its labels in the
    text area. */
module EventLog {

  /** `state.event_logs` and `state.logged_event_this_tick`. */
  datatype Log = Log(events: seq<string>, loggedThisTick: bool)

  /** `reset`: an empty log with the flag cleared. */
  const Empty: Log := Log([], false)

  /** `log_event`: the new line goes in front (`unshift`) and the flag is set. */
  function LogEvent(l: Log, event: string): (r: Log)
    ensures |r.events| == |l.events| + 1
    ensures r.events[0] == event && r.events[1..] == l.events
    ensures r.loggedThisTick
  {
    Log([event] + l.events, true)
  }

  /** The top of the log column in the text area. */
  const LogTop: int := 650
  const LineSpacing: int := 40
  const FadeStep: int := 15

  /** One text-area label. */
  datatype Label = Label(x: int, y: int, text: string, alpha: int)

  /** `events_as_labels`: the newest line sits at y = 650 with full alpha,
      and the i-th newest 40·i pixels lower and 15·i alpha steps fainter. */
  function Labels(events: seq<string>): (r: seq<Label>)
    ensures |r| == |events|
    ensures forall i :: 0 <= i < |r| ==> r[i].text == events[i] && r[i].x == 16
    ensures forall i :: 0 <= i < |r| ==> r[i].y == LogTop - i * LineSpacing && r[i].alpha == 255 - i * FadeStep
    ensures forall i, j :: 0 <= i < j < |r| ==> r[j].y < r[i].y && r[j].alpha < r[i].alpha
  {
    seq(|events|, i requires 0 <= i < |events| =>
      Label(16, LogTop - i * LineSpacing, events[i], 255 - i * FadeStep))
  }

  /** Logging an event puts it at the top, fully opaque, and shifts every
      earlier label down one line and one fade step. */
  lemma LogEventShiftsLabels(l: Log, event: string)
    ensures var before := Labels(l.events);
      var after := Labels(LogEvent(l, event).events);
      && after[0] == Label(16, LogTop, event, 255)
      && forall i :: 0 <= i < |before| ==>
           after[i + 1] == before[i].(y := before[i].y - LineSpacing, alpha := before[i].alpha - FadeStep)
  {
    var events := LogEvent(l, event).events;
    var before := Labels(l.events);
    var after := Labels(events);
    forall i | 0 <= i < |before|
      ensures after[i + 1] == before[i].(y := before[i].y - LineSpacing, alpha := before[i].alpha - FadeStep)
    {
      assert events[i + 1] == l.events[i];
      assert after[i + 1] == Label(16, LogTop - (i + 1) * LineSpacing, l.events[i], 255 - (i + 1) * FadeStep);
      assert before[i] == Label(16, LogTop - i * LineSpacing, l.events[i], 255 - i * FadeStep);
    }
  }

  /** The most lines the text area shows: `event_logs[0..20]`. */
  const WindowSize: int := 21

  /** Ruby's inclusive slice `[0..20]`: the 21 newest lines, or all of them. */
  function RenderWindow(events: seq<string>): (r: seq<string>)
    ensures |r| <= WindowSize
    ensures |r| == if |events| < WindowSize then |events| else WindowSize
    ensures r <= events
  {
    if |events| < WindowSize then events else events[..WindowSize]
  }

  /** Display truncation never drops the newest line, and storage keeps every
      line however many are logged. */
  lemma WindowShowsNewest(l: Log, event: string)
    ensures RenderWindow(LogEvent(l, event).events)[0] == event
    ensures |LogEvent(l, event).events| == |l.events| + 1
  {
  }
}
