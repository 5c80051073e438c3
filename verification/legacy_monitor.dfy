/** The older monitor of src/main.py: the previous count lives in a text
    file, the counter endpoint is asked for the current count, and an
    increase is announced on Telegram. The count file is its text, or
    `None` when it does not exist; the counter's answer is an input. */
module LegacyMonitor {
  import opened Wrappers
  import opened Text
  import Monitor

  /** The count file: its text, or `None` when it does not exist. */
  type CountFile = Option<string>

  /** What a start-up read yields: the count and the file afterwards. */
  datatype PreviousCount = PreviousCount(count: int, file: CountFile)

  /** The text the file is reset to. */
  const ResetText: string := "0\n"

  /** A file whose stripped text `int()` accepts. */
  predicate HoldsCount(file: CountFile, n: int) {
    file.Some? && ParseInt(Strip(file.value)) == Some(n)
  }

  /** `read_previous_count(count_file)`: the integer of the stripped file
      text; a missing file, blank text or text `int()` rejects reads as 0 and
      the file is rewritten with "0\n". */
  function ReadPreviousCount(file: CountFile): (r: PreviousCount)
    // Afterwards the file always holds the count that was returned.
    ensures HoldsCount(r.file, r.count)
    // A readable file is left alone and its count is returned.
    ensures file.Some? && ParseInt(Strip(file.value)).Some? ==>
      r.file == file && HoldsCount(file, r.count)
    // Anything else is reset to zero.
    ensures file.None? || ParseInt(Strip(file.value)).None? ==>
      r.count == 0 && r.file == Some(ResetText)
  {
    if file.Some? && ParseInt(Strip(file.value)).Some? then
      PreviousCount(ParseInt(Strip(file.value)).value, file)
    else
      assert HoldsCount(Some(ResetText), 0) by { ResetTextHoldsZero(); }
      PreviousCount(0, Some(ResetText))
  }

  lemma ResetTextHoldsZero()
    ensures Strip(ResetText) == "0"
    ensures ParseInt("0") == Some(0)
  {
    assert "0" == IntToString(0);
    StripAddedNewline("0");
    assert "0" + "\n" == ResetText;
    ParseIntOfIntToString(0);
  }

  /** Stripping removes a trailing newline from a word without spaces. */
  lemma StripAddedNewline(s: string)
    requires |s| > 0 && IsStripped(s)
    ensures Strip(s + "\n") == s
  {
    var t := s + "\n";
    var r := Strip(t);
    assert t[0] == s[0];
    assert LeadCount(t, IsSpace) == 0;
    assert !IsSpace(t[|s| - 1]);
    assert |r| >= |s|;
    assert IsSpace(t[|s|]);
    assert |r| == |s|;
    assert r == t[..|s|] == s;
  }

  /** `write_count(count_file, value)`: the file holds `str(value)` and a
      newline. */
  function WriteCount(value: int): (f: CountFile)
    ensures f.Some? && |f.value| >= 2 && f.value[|f.value| - 1] == '\n'
    // The file is the decimal text of the value and one newline.
    ensures f == Some(IntToString(value) + "\n")
    ensures HoldsCount(f, value)
  {
    var text := IntToString(value);
    assert IsStripped(text) by {
      forall i | 0 <= i < |text| ensures !IsSpace(text[i]) {
        assert IsDigit(text[i]) || text[i] == '-';
      }
    }
    StripAddedNewline(text);
    ParseIntOfIntToString(value);
    Some(text + "\n")
  }

  /** `read_previous_count` after `write_count(v)` returns `v` and writes
      nothing. */
  lemma WriteReadRoundTrip(value: int)
    ensures ReadPreviousCount(WriteCount(value)) == PreviousCount(value, WriteCount(value))
  {
  }

  /** A second read finds what the first one left and rewrites nothing. */
  lemma ReadIsIdempotent(file: CountFile)
    ensures ReadPreviousCount(ReadPreviousCount(file).file) == ReadPreviousCount(file)
  {
  }

  // ---------------------------------------------------------------------
  // fetch_property_count

  /** How `fetch_property_count` can fail: the `RuntimeError` the loop
      retries on, the `ValueError` of `json.load`, or the timeout or reset
      that interrupts waiting for or reading the answer. The last two are
      not `RuntimeError`s. */
  datatype FetchFailure = RuntimeFailure(message: string) | DecodeRaised | ReplyRaised

  /** `fetch_property_count` as written: only `URLError` is turned into a
      `RuntimeError`. The opener wraps in `URLError` the errors of sending
      the request, not those of waiting for the answer or reading the body,
      and a body that is not JSON makes `json.load` raise past both
      `except` clauses. */
  function FetchCountAsWritten(reply: Monitor.CountReply): (r: Result<int, FetchFailure>)
    ensures reply.TransportError? ==> r.Err? && r.error.RuntimeFailure?
    ensures reply.ReplyFailed? ==> r == Err(ReplyRaised)
    ensures reply.InvalidJson? ==> r == Err(DecodeRaised)
    ensures reply.Body? ==> (r.Ok? <==> Monitor.ParseCount(reply.data).Some?)
    ensures reply.Body? && r.Ok? ==> r.value == Monitor.ParseCount(reply.data).value
    ensures reply.Body? && r.Err? ==> r.error.RuntimeFailure?
  {
    match reply
    case TransportError => Err(RuntimeFailure("Failed to fetch property count"))
    case ReplyFailed => Err(ReplyRaised)
    case InvalidJson => Err(DecodeRaised)
    case Body(data) =>
      match Monitor.ParseCount(data)
      case None => Err(RuntimeFailure("Property count missing in response"))
      case Some(n) => Ok(n)
  }

  /** `fetch_property_count` with the whole exchange, decoding included,
      inside the first `try`, so every failure is a `RuntimeError`. */
  function FetchCount(reply: Monitor.CountReply): (r: Result<int, FetchFailure>)
    ensures r.Err? ==> r.error.RuntimeFailure?
    ensures r.Ok? <==> reply.Body? && Monitor.ParseCount(reply.data).Some?
    ensures reply.Body? || reply.TransportError? ==> r == FetchCountAsWritten(reply)
  {
    match reply
    case ReplyFailed => Err(RuntimeFailure("Failed to fetch property count"))
    case InvalidJson => Err(RuntimeFailure("Failed to fetch property count"))
    case _ => FetchCountAsWritten(reply)
  }

  /** As written, a body that is not JSON is not a `RuntimeError`: the loop
      does not retry and the monitor stops. */
  lemma DecodeErrorEscapes()
    ensures FetchCountAsWritten(Monitor.InvalidJson).Err?
    ensures !FetchCountAsWritten(Monitor.InvalidJson).error.RuntimeFailure?
  {
  }

  /** As written, a timeout or reset while the answer is awaited or read is
      not a `RuntimeError` either, and stops the monitor the same way. */
  lemma ReplyFailureEscapes()
    ensures FetchCountAsWritten(Monitor.ReplyFailed).Err?
    ensures !FetchCountAsWritten(Monitor.ReplyFailed).error.RuntimeFailure?
  {
  }

  /** With the correction every failure is retried, and every answer the
      code as written accepts is accepted with the same count. */
  lemma EveryFetchFailureIsRetried(reply: Monitor.CountReply)
    ensures FetchCount(reply).Err? ==> FetchCount(reply).error.RuntimeFailure?
    ensures FetchCountAsWritten(reply).Ok? <==> FetchCount(reply).Ok?
    ensures FetchCount(reply).Ok? ==> FetchCount(reply).value == FetchCountAsWritten(reply).value
  {
  }

  // ---------------------------------------------------------------------
  // monitor_property_count

  datatype LegacySettings = LegacySettings(locationName: string, runOnce: bool)

  /** The loop's state: the count file and the in-memory previous count. */
  datatype LegacyState = LegacyState(file: CountFile, previousCount: int)

  /** What one iteration is given: the counter's answer, and whether
      `send_message` raises. It raises when the failure is not a `URLError`
      (a timeout or reset while the Telegram answer is read); a `URLError`
      only makes it return `False`, which changes nothing but a log line. */
  datatype Round = Round(reply: Monitor.CountReply, sendRaises: bool)

  /** The end of one iteration: the new state, the Telegram text handed to
      `send_message` if any, whether the loop ends, and whether it ends by
      an exception out of `send_message`. */
  datatype Step = Step(state: LegacyState, sent: Option<string>, stop: bool, escaped: bool)

  /** Start-up: the previous count is read from the file. */
  function StartLegacy(file: CountFile): (s: LegacyState)
    ensures HoldsCount(s.file, s.previousCount)
    ensures s.previousCount == ReadPreviousCount(file).count
  {
    var read := ReadPreviousCount(file);
    LegacyState(read.file, read.count)
  }

  /** One pass through the body of the `while True` loop, with the count
      fetch corrected. Sleeping and logging are not modelled. The call to
      `send_message` is outside every `try` but the one for
      `KeyboardInterrupt`, so when it raises the loop ends; the file was
      written just before. */
  function LegacyCycle(settings: LegacySettings, s: LegacyState, round: Round): (r: Step)
    // A failed fetch changes nothing and skips the single-shot check.
    ensures FetchCount(round.reply).Err? ==> r == Step(s, None, false, false)
    // An unchanged count writes and sends nothing.
    ensures FetchCount(round.reply) == Ok(s.previousCount) ==> r == Step(s, None, settings.runOnce, false)
    // A changed count is written to the file and becomes the previous count.
    ensures FetchCount(round.reply).Ok? && FetchCount(round.reply).value != s.previousCount ==>
      && HoldsCount(r.state.file, FetchCount(round.reply).value)
      && r.state.previousCount == FetchCount(round.reply).value
      && r.stop == (settings.runOnce || r.escaped)
    // A message goes out exactly on an increase.
    ensures r.sent.Some? <==> FetchCount(round.reply).Ok? && FetchCount(round.reply).value > s.previousCount
    ensures r.sent.Some? ==> r.sent.value == Monitor.Header(settings.locationName, FetchCount(round.reply).value)
    // The loop ends by an exception exactly when a send is attempted and raises.
    ensures r.escaped <==> r.sent.Some? && round.sendRaises
    ensures r.escaped ==> r.stop
  {
    match FetchCount(round.reply)
    case Err(_) => Step(s, None, false, false)
    case Ok(current) =>
      if current == s.previousCount then Step(s, None, settings.runOnce, false)
      else
        var next := LegacyState(WriteCount(current), current);
        if current > s.previousCount then
          var escaped := round.sendRaises;
          Step(next, Some(Monitor.Header(settings.locationName, current)), settings.runOnce || escaped, escaped)
        else
          Step(next, None, settings.runOnce, false)
  }

  /** The file and the in-memory count agree. */
  predicate InSync(s: LegacyState) {
    HoldsCount(s.file, s.previousCount)
  }

  /** How a run over a sequence of rounds ends: the last state, and whether
      an exception out of `send_message` ended it. */
  datatype RunEnd = RunEnd(state: LegacyState, escaped: bool)

  /** The iterations over the given rounds, stopping early when one of them
      breaks the loop or raises. */
  function RunLegacy(settings: LegacySettings, s: LegacyState, rounds: seq<Round>): (r: RunEnd)
    // Rounds whose fetch fails leave everything as it was.
    ensures (forall i :: 0 <= i < |rounds| ==> FetchCount(rounds[i].reply).Err?) ==> r == RunEnd(s, false)
    // Only a raising send can end the run by an exception.
    ensures r.escaped ==> exists i :: 0 <= i < |rounds| && rounds[i].sendRaises
    decreases |rounds|
  {
    if |rounds| == 0 then RunEnd(s, false)
    else
      var step := LegacyCycle(settings, s, rounds[0]);
      if step.stop then RunEnd(step.state, step.escaped)
      else
        var rest := RunLegacy(settings, step.state, rounds[1..]);
        assert rest.escaped ==> exists i :: 0 <= i < |rounds| && rounds[i].sendRaises by {
          if rest.escaped {
            var j :| 0 <= j < |rounds| - 1 && rounds[1..][j].sendRaises;
            assert rounds[j + 1].sendRaises;
          }
        }
        rest
  }

  /** Every iteration keeps the file in step with the in-memory count. */
  lemma CyclePreservesSync(settings: LegacySettings, s: LegacyState, round: Round)
    requires InSync(s)
    ensures InSync(LegacyCycle(settings, s, round).state)
  {
  }

  /** From start-up on, the file always holds the count the loop compares
      against, so a restart resumes from the same count. */
  lemma {:induction false} RunKeepsSync(settings: LegacySettings, s: LegacyState, rounds: seq<Round>)
    requires InSync(s)
    ensures InSync(RunLegacy(settings, s, rounds).state)
    ensures StartLegacy(RunLegacy(settings, s, rounds).state.file).previousCount == RunLegacy(settings, s, rounds).state.previousCount
    decreases |rounds|
  {
    if |rounds| > 0 {
      var step := LegacyCycle(settings, s, rounds[0]);
      CyclePreservesSync(settings, s, rounds[0]);
      if !step.stop {
        RunKeepsSync(settings, step.state, rounds[1..]);
      }
    }
  }

  /** When `send_message` raises, the new count is already in the file, so
      after a restart the same answer is no change and that increase is
      never announced. */
  lemma FailedSendIsNotRepeated(settings: LegacySettings, s: LegacyState, round: Round)
    requires LegacyCycle(settings, s, round).escaped
    ensures
      var restarted := StartLegacy(LegacyCycle(settings, s, round).state.file);
      LegacyCycle(settings, restarted, Round(round.reply, false)).sent.None?
  {
    var current := FetchCount(round.reply).value;
    WriteReadRoundTrip(current);
  }

  /** Start-up puts the loop in step with its file, whatever the file held. */
  lemma StartIsInSync(file: CountFile)
    ensures InSync(StartLegacy(file))
  {
  }
}
