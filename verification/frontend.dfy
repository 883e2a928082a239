/**
 * The state logic of `frontend/script.js` that the pages show: the recording timer, the
 * transcript/summary toggle and the chat box's send button.
 *
 * The DOM, `setInterval` scheduling, `fetch`/`XMLHttpRequest` and the media APIs are not
 * modelled: a timer tick is an explicit step, and the outcome of a chat request is a
 * parameter (or the server's reply to the request the page sends).
 */
module Frontend {
  import opened Wrappers
  import opened Text
  import MeetingStore
  import Server

  /** The three clock fields of the timer display. */
  datatype ClockFields = ClockFields(hours: nat, minutes: nat, secs: nat)

  /** `Math.floor(seconds / 3600)`, `Math.floor((seconds % 3600) / 60)` and `seconds % 60`. */
  function ClockOf(seconds: nat): ClockFields {
    ClockFields(seconds / 3600, (seconds % 3600) / 60, seconds % 60)
  }

  /** The fields add back up to the elapsed seconds, with minutes and seconds below 60. */
  lemma ClockOfSpec(seconds: nat)
    ensures var c := ClockOf(seconds);
      && c.hours * 3600 + c.minutes * 60 + c.secs == seconds
      && c.minutes < 60 && c.secs < 60
  {
    var q, rest := seconds / 3600, seconds % 3600;
    var m, s := rest / 60, rest % 60;
    assert seconds == 3600 * q + rest;
    assert rest == 60 * m + s;
    assert seconds == 60 * (60 * q + m) + s;
    assert seconds % 60 == s;
  }

  /** The clock fields are determined by the total: no other split has minutes and seconds below 60. */
  lemma ClockFieldsUnique(seconds: nat, c: ClockFields)
    requires c.hours * 3600 + c.minutes * 60 + c.secs == seconds
    requires c.minutes < 60 && c.secs < 60
    ensures c == ClockOf(seconds)
  {
    ClockOfSpec(seconds);
    var d := ClockOf(seconds);
    var a := c.minutes * 60 + c.secs;
    var b := d.minutes * 60 + d.secs;
    assert a < 3600 && b < 3600;
    assert (c.hours - d.hours) * 3600 == b - a;
    assert c.hours == d.hours;
    assert (c.minutes - d.minutes) * 60 == d.secs - c.secs;
  }

  /** `String(n).padStart(2, '0')`: a single digit gets one leading zero, longer renderings stay as they are. */
  function Pad2(n: nat): (r: string)
    ensures AllDigits(r) && 2 <= |r|
    ensures n < 100 <==> |r| == 2
  {
    var d := NatToString(n);
    NatToStringLength(n);
    if |d| >= 2 then d else "0" + d
  }

  /** A padded field reads back as the number it shows. */
  lemma Pad2Value(n: nat)
    ensures DigitsValue(Pad2(n)) == n
  {
    var s := NatToString(n);
    var z := |Pad2(n)| - |s|;
    assert Pad2(n) == seq(z, _ => '0') + s by {
      if z == 1 {
        assert Pad2(n) == "0" + s;
      }
    }
    DigitsValueLeadingZeros(z, s);
    NatToStringRoundTrip(n);
  }

  /** The text the timer shows after `seconds` ticks: `HH:MM:SS`, the hours widening past 99. */
  function FormatClock(seconds: nat): string {
    var c := ClockOf(seconds);
    Pad2(c.hours) + ":" + Pad2(c.minutes) + ":" + Pad2(c.secs)
  }

  /** Below 100 hours the display is the eight characters `HH:MM:SS`; past that only the hours widen. */
  lemma FormatClockShape(seconds: nat)
    ensures var r := FormatClock(seconds);
      && (seconds < 360000 ==> |r| == 8)
      && |r| >= 8 && r[|r| - 6] == ':' && r[|r| - 3] == ':'
  {
    var c := ClockOf(seconds);
    ClockOfSpec(seconds);
  }

  /** Reads a display back: three colon-separated digit fields, weighted 3600, 60 and 1. */
  function ParseClock(display: string): Option<nat> {
    var fields := SplitOn(display, ':');
    if |fields| == 3 && AllDigits(fields[0]) && AllDigits(fields[1]) && AllDigits(fields[2]) then
      Some(DigitsValue(fields[0]) * 3600 + DigitsValue(fields[1]) * 60 + DigitsValue(fields[2]))
    else None
  }

  /** A digit string holds no colon. */
  lemma DigitsHaveNoColon(s: string)
    requires AllDigits(s)
    ensures ':' !in s
  {
  }

  /** The display round-trips: reading it back gives the elapsed seconds. */
  lemma FormatClockRoundTrip(seconds: nat)
    ensures ParseClock(FormatClock(seconds)) == Some(seconds)
  {
    var c := ClockOf(seconds);
    var h, m, s := Pad2(c.hours), Pad2(c.minutes), Pad2(c.secs);
    DigitsHaveNoColon(h);
    DigitsHaveNoColon(m);
    DigitsHaveNoColon(s);
    SplitOnWithout(s, ':');
    SplitOnFirst(m, s, ':');
    SplitOnFirst(h, m + [':'] + s, ':');
    assert FormatClock(seconds) == h + [':'] + (m + [':'] + s);
    Pad2Value(c.hours);
    Pad2Value(c.minutes);
    Pad2Value(c.secs);
    ClockOfSpec(seconds);
  }

  /** The display before any tick and after `stopTimer`. */
  const ZeroDisplay: string := "00:00:00"

  lemma FormatClockZero()
    ensures FormatClock(0) == ZeroDisplay
  {
    assert NatToString(0) == "0";
    assert Pad2(0) == "00";
  }

  /**
   * The timer: whether `timerInterval` holds a handle, how many intervals are live (each
   * `setInterval` call adds one, `clearInterval` removes the one the handle names), the
   * elapsed seconds, and the count the display last drew. Every write to the display
   * renders a count (`stopTimer`'s `'00:00:00'` is the rendering of 0), so the count
   * determines the text.
   */
  datatype Timer = Timer(running: bool, intervals: nat, seconds: nat, drawn: nat)

  /** The text the display holds. */
  function DisplayText(t: Timer): string {
    FormatClock(t.drawn)
  }

  /** The handle names the only live interval, and none is live without a handle. */
  predicate OneInterval(t: Timer) {
    t.intervals == (if t.running then 1 else 0)
  }

  /** The display shows the elapsed seconds. */
  predicate Shows(t: Timer) {
    t.drawn == t.seconds
  }

  /** `startTimer`: sets an interval unless a handle is already held. */
  function StartTimer(t: Timer): (t': Timer)
    ensures t.running ==> t' == t
    ensures !t.running ==> t'.intervals == t.intervals + 1
    ensures t'.running && t'.seconds == t.seconds && t'.drawn == t.drawn
    ensures OneInterval(t) ==> OneInterval(t')
  {
    if t.running then t else t.(running := true, intervals := t.intervals + 1)
  }

  /**
   * One second: every live interval fires once, each adding a second and redrawing the
   * display. Without a live interval nothing fires.
   */
  function Tick(t: Timer): (t': Timer)
    ensures t'.running == t.running && t'.intervals == t.intervals
    ensures t'.seconds == t.seconds + t.intervals
    ensures t.intervals == 0 ==> t' == t
    ensures t.intervals > 0 ==> Shows(t')
  {
    if t.intervals == 0 then t
    else Timer(t.running, t.intervals, t.seconds + t.intervals, t.seconds + t.intervals)
  }

  /** `stopTimer`: clears the interval the handle names, resets the count and the display. */
  function StopTimer(t: Timer): (t': Timer)
    ensures !t'.running && t'.seconds == 0 && DisplayText(t') == ZeroDisplay
    ensures Shows(t')
    ensures t'.intervals <= t.intervals
    ensures OneInterval(t) ==> OneInterval(t')
  {
    FormatClockZero();
    Timer(false, if t.running && t.intervals > 0 then t.intervals - 1 else t.intervals, 0, 0)
  }

  /** Seconds of the interval firing. */
  function Ticks(t: Timer, n: nat): Timer {
    if n == 0 then t else Tick(Ticks(t, n - 1))
  }

  /** A recording started from a stopped timer shows exactly the number of seconds elapsed. */
  lemma {:induction false} RecordingShowsElapsed(t: Timer, n: nat)
    requires OneInterval(t)
    ensures var t' := Ticks(StartTimer(StopTimer(t)), n);
      t'.running && OneInterval(t') && t'.seconds == n && DisplayText(t') == FormatClock(n)
  {
    var start := StartTimer(StopTimer(t));
    if n > 0 {
      RecordingShowsElapsed(t, n - 1);
      var prev := Ticks(start, n - 1);
      assert Ticks(start, n) == Tick(prev);
    } else {
      assert start == Timer(true, 1, 0, 0);
    }
  }

  /**
   * Starting a running timer again neither restarts the count nor adds a second interval,
   * so the next second still adds exactly one.
   */
  lemma {:induction false} RestartIgnored(t: Timer, n: nat)
    requires t.running && OneInterval(t)
    ensures var t' := Ticks(StartTimer(Ticks(t, n)), 1);
      t'.intervals == 1 && t'.seconds == t.seconds + n + 1
  {
    TicksRunning(t, n);
  }

  /** Ticking keeps a running timer running on its one interval and counts every second once. */
  lemma {:induction false} TicksRunning(t: Timer, n: nat)
    requires t.running && OneInterval(t)
    ensures Ticks(t, n).running && OneInterval(Ticks(t, n)) && Ticks(t, n).seconds == t.seconds + n
  {
    if n > 0 {
      TicksRunning(t, n - 1);
    }
  }

  /** The transcript/summary panel of the chat page. */
  datatype Panel = Panel(transcriptVisible: bool, transcript: string, summary: string, shown: string, buttonText: string)

  /** The panel shows the transcript exactly when `isTranscriptVisible`, with the matching button label. */
  predicate Coherent(p: Panel) {
    && p.shown == (if p.transcriptVisible then p.transcript else p.summary)
    && p.buttonText == (if p.transcriptVisible then "Show Summary" else "Show Transcript")
  }

  /** The toggle button's click handler. */
  function Toggle(p: Panel): (p': Panel)
    ensures p'.transcriptVisible == !p.transcriptVisible
    ensures p'.transcript == p.transcript && p'.summary == p.summary
    ensures Coherent(p')
  {
    var visible := !p.transcriptVisible;
    p.(transcriptVisible := visible,
       shown := if visible then p.transcript else p.summary,
       buttonText := if visible then "Show Summary" else "Show Transcript")
  }

  /** Two clicks return a coherent panel to where it was. */
  lemma ToggleTwice(p: Panel)
    requires Coherent(p)
    ensures Toggle(Toggle(p)) == p
  {
  }

  /** JavaScript's `text || fallback` for a string that may be missing (`null`) or empty. */
  function OrDefault(text: Option<string>, fallback: string): (r: string)
    ensures r == "" ==> fallback == ""
    ensures text.Some? && text.value != "" ==> r == text.value
    ensures text.None? || text.value == "" ==> r == fallback
  {
    if text.Some? && text.value != "" then text.value else fallback
  }

  /** `loadMeetingDetails`, given the server's reply: fills the panel with the transcript shown. */
  function LoadDetails(p: Panel, details: MeetingStore.Details): (p': Panel)
    ensures details.NotFound? ==> p' == p.(shown := "Meeting transcript not found.")
    ensures details.Found? ==> Coherent(p') && p'.transcriptVisible
    ensures details.Found? ==> p'.transcript == OrDefault(Some(details.transcript), "No transcript available.")
    ensures details.Found? ==> p'.summary == OrDefault(details.summary, "No summary available. [Maybe Still Generating?]")
  {
    match details
    case NotFound(_, _) => p.(shown := "Meeting transcript not found.")
    case Found(transcript, summary) =>
      var t := OrDefault(Some(transcript), "No transcript available.");
      var s := OrDefault(summary, "No summary available. [Maybe Still Generating?]");
      Panel(true, t, s, t, "Show Summary")
  }

  /** One line of the chat window. */
  datatype ChatLine = UserLine(text: string) | BotLine(text: string)

  /** How a chat request ended: a 200 reply (its `reply` field, possibly missing), or an error. */
  datatype Outcome = Replied(reply: Option<string>) | Failed

  /** The chat window and the input field. */
  datatype ChatBox = ChatBox(lines: seq<ChatLine>, input: string)

  /** The text the page writes for the bot. */
  function BotText(o: Outcome): (text: string)
    ensures text != ""
    ensures o.Failed? ==> text == "Error communicating with server."
    ensures o.Replied? && o.reply.Some? && o.reply.value != "" ==> text == o.reply.value
    ensures o.Replied? && (o.reply.None? || o.reply.value == "") ==> text == "No response"
  {
    match o
    case Failed => "Error communicating with server."
    case Replied(reply) => OrDefault(reply, "No response")
  }

  /** The send button: an input that trims to nothing does nothing; otherwise both lines are added and the input cleared. */
  function Send(box: ChatBox, o: Outcome): (box': ChatBox)
    ensures Trim(box.input) == "" ==> box' == box
    ensures Trim(box.input) != "" ==>
      box' == ChatBox(box.lines + [UserLine(Trim(box.input)), BotLine(BotText(o))], "")
  {
    var message := Trim(box.input);
    if message == "" then box
    else ChatBox(box.lines + [UserLine(message), BotLine(BotText(o))], "")
  }

  /** A blank input never reaches the chat window, whatever its length. */
  lemma BlankInputIgnored(box: ChatBox, o: Outcome)
    requires AllDropped(box.input, IsJsSpace)
    ensures Send(box, o) == box
  {
    TrimSpec(box.input);
  }

  /** The body `sendMessageToServer` posts: the message and the selected meeting's id, or `null`. */
  function RequestFor(message: string, selected: Option<int>): Server.ChatRequest {
    Server.JsonObject(Server.MessageText(message),
      if selected.Some? then Server.IdConvertible(selected.value) else Server.IdNull)
  }

  /** What the page makes of the server's answer: only a 200 reply resolves. */
  function OutcomeOf(r: Server.ChatResponse): (o: Outcome)
    ensures o.Replied? <==> r.Ok?
    ensures r.Ok? ==> o == Replied(Some(r.reply))
  {
    if r.Ok? then Replied(Some(r.reply)) else Failed
  }

  /** With no meeting selected, a message is shown and answered with the error line. */
  lemma SendWithoutMeeting(box: ChatBox, st: MeetingStore.Store, similarities: seq<real>, bm25: seq<real>, generate: string -> string)
    requires Trim(box.input) != ""
    ensures var o := OutcomeOf(Server.Chat(st, RequestFor(Trim(box.input), None), similarities, bm25, generate).0);
      Send(box, o).lines == box.lines + [UserLine(Trim(box.input)), BotLine("Error communicating with server.")]
  {
  }

  /** The lines `loadChatHistory` draws for a saved history. */
  function HistoryLines(history: seq<MeetingStore.ChatPair>): (lines: seq<ChatLine>)
    ensures |lines| == 2 * |history|
  {
    if |history| == 0 then []
    else
      var last := history[|history| - 1];
      HistoryLines(history[..|history| - 1]) + [UserLine(last.user), BotLine(last.bot)]
  }

  /**
   * After a successful exchange, reloading the meeting's history draws the two lines the
   * send button added, except for an empty reply: the page shows it live as "No response"
   * and redraws it as an empty bot line. The history after the exchange is the one before
   * it plus the sent message and the reply, which is what `Server.ChatRecordsExchange`
   * proves of `chat_endpoint` when the server's `strip()` leaves the trimmed message alone.
   */
  lemma ReloadMatchesSend(box: ChatBox, before: seq<MeetingStore.ChatPair>, after: seq<MeetingStore.ChatPair>, r: Server.ChatResponse)
    requires Trim(box.input) != ""
    requires r.Ok?
    requires after == before + [MeetingStore.ChatPair(Trim(box.input), r.reply)]
    ensures r.reply != "" ==> HistoryLines(after) == HistoryLines(before) + Send(box, OutcomeOf(r)).lines[|box.lines|..]
    ensures r.reply == "" ==>
      && HistoryLines(after) == HistoryLines(before) + [UserLine(Trim(box.input)), BotLine("")]
      && Send(box, OutcomeOf(r)).lines[|box.lines|..] == [UserLine(Trim(box.input)), BotLine("No response")]
  {
    var m := Trim(box.input);
    HistoryLinesAppend(before, MeetingStore.ChatPair(m, r.reply));
    assert Send(box, OutcomeOf(r)).lines[|box.lines|..] == [UserLine(m), BotLine(BotText(OutcomeOf(r)))];
  }

  /** Drawing one more exchange adds its two lines at the end. */
  lemma HistoryLinesAppend(history: seq<MeetingStore.ChatPair>, pair: MeetingStore.ChatPair)
    ensures HistoryLines(history + [pair]) == HistoryLines(history) + [UserLine(pair.user), BotLine(pair.bot)]
  {
    assert (history + [pair])[..|history|] == history;
  }

  /**
   * The two ends trim differently: a message of one information separator (U+001C) is not
   * blank to JavaScript's `trim()`, so the page sends it, but Python's `strip()` removes it,
   * so the server answers 400 and the page shows the error line.
   */
  lemma SeparatorOnlyMessage(st: MeetingStore.Store, id: int, similarities: seq<real>, bm25: seq<real>, generate: string -> string)
    ensures Trim("\U{1C}") == "\U{1C}"
    ensures var r := Server.Chat(st, RequestFor("\U{1C}", Some(id)), similarities, bm25, generate).0;
      && r == Server.BadRequest(Server.MissingInput)
      && Send(ChatBox([], "\U{1C}"), OutcomeOf(r)).lines == [UserLine("\U{1C}"), BotLine("Error communicating with server.")]
  {
    StrippedIsOwnStrip("\U{1C}", IsJsSpace);
    Server.BlankMessageRefused(st, "\U{1C}", id, similarities, bm25, generate);
  }
}
