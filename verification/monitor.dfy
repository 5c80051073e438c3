/** One iteration of the poll loop of app/main.py (`monitor_property_count`),
    written as a transition from the loop's state to its next state. The
    counter endpoint's answer, the listing pages, the outcome of the store's
    transaction and whether the notification sender raises are inputs of
    the iteration. Sleeping, logging and metrics are not modelled. */
module Monitor {
  import opened Wrappers
  import opened Text
  import opened Seqs
  import opened Json
  import opened SnapshotStore
  import opened Property24

  // ---------------------------------------------------------------------
  // fetch_property_count

  /** What the `POST` to the counter endpoint produced: the request could
      not be sent (connection refused, name not resolved, connect timeout),
      it went out but waiting for or reading the answer failed (read
      timeout, connection reset), the body was not JSON, or the decoded
      body. The HTTP status is never checked by the code. */
  datatype CountReply = TransportError | ReplyFailed | InvalidJson | Body(data: JValue)

  /** The two ways `fetch_property_count` can fail: the `RuntimeError` the
      loop catches, or the transport exception of `requests.post`, which is
      not a `RuntimeError`. */
  datatype CountFailure = CountRuntimeError(message: string) | TransportRaised

  /** `int(data["count"])`: `None` stands for the `KeyError`, `TypeError` or
      `ValueError` raised when the body is not an object, has no `count`, or
      holds a value `int()` rejects. */
  function ParseCount(data: JValue): (r: Option<int>)
    ensures !data.JObj? ==> r.None?
    ensures data.JObj? && Lookup(data.fields, "count").None? ==> r.None?
    ensures data.JObj? && Lookup(data.fields, "count").Some? ==>
      r == PyInt(Lookup(data.fields, "count").value)
  {
    if !data.JObj? then None
    else match Lookup(data.fields, "count")
      case None => None
      case Some(v) => PyInt(v)
  }

  /** `fetch_property_count` as written: the `requests.post` call sits
      outside the `try`, so a transport failure escapes as itself. */
  function FetchPropertyCountAsWritten(reply: CountReply): (r: Result<int, CountFailure>)
    ensures reply.TransportError? || reply.ReplyFailed? ==> r == Err(TransportRaised)
    ensures reply.InvalidJson? ==> r.Err? && r.error.CountRuntimeError?
    ensures reply.Body? ==> (r.Ok? <==> ParseCount(reply.data).Some?)
    ensures reply.Body? && r.Ok? ==> r.value == ParseCount(reply.data).value
  {
    match reply
    case TransportError => Err(TransportRaised)
    case ReplyFailed => Err(TransportRaised)
    case InvalidJson => Err(CountRuntimeError("Failed to fetch property count"))
    case Body(data) =>
      match ParseCount(data)
      case None => Err(CountRuntimeError("Property count missing in response"))
      case Some(n) => Ok(n)
  }

  /** `fetch_property_count` with the request inside the `try`, so every
      failure is the `RuntimeError` the loop retries on. */
  function FetchPropertyCount(reply: CountReply): (r: Result<int, CountFailure>)
    ensures r.Err? ==> r.error.CountRuntimeError?
    ensures r.Ok? <==> reply.Body? && ParseCount(reply.data).Some?
    ensures reply.Body? || reply.InvalidJson? ==> r == FetchPropertyCountAsWritten(reply)
  {
    match reply
    case TransportError => Err(CountRuntimeError("Failed to fetch property count"))
    case ReplyFailed => Err(CountRuntimeError("Failed to fetch property count"))
    case _ => FetchPropertyCountAsWritten(reply)
  }

  /** As written, a transport failure is not a `RuntimeError`: it is not
      retried and leaves the loop. */
  lemma TransportErrorEscapes()
    ensures FetchPropertyCountAsWritten(TransportError).Err?
    ensures !FetchPropertyCountAsWritten(TransportError).error.CountRuntimeError?
    ensures FetchPropertyCountAsWritten(ReplyFailed).Err?
    ensures !FetchPropertyCountAsWritten(ReplyFailed).error.CountRuntimeError?
  {
  }

  /** With the correction, every failure of the count fetch is retried, and
      the successful answers are exactly those of the code as written. */
  lemma EveryCountFailureIsRetried(reply: CountReply)
    ensures FetchPropertyCount(reply).Err? ==> FetchPropertyCount(reply).error.CountRuntimeError?
    ensures FetchPropertyCount(reply).Ok? <==> FetchPropertyCountAsWritten(reply).Ok?
    ensures FetchPropertyCount(reply).Ok? ==> FetchPropertyCount(reply) == FetchPropertyCountAsWritten(reply)
  {
  }

  /** `{"count": n}` reads as `n`; `{"count": "n"}` too. */
  lemma CountOfObject(n: int)
    ensures ParseCount(JObj([Field("count", JInt(n))])) == Some(n)
    ensures ParseCount(JObj([Field("count", JStr(IntToString(n)))])) == Some(n)
  {
    ParseIntOfIntToString(n);
  }

  // ---------------------------------------------------------------------
  // The notification

  const MaxDisplay: nat := 10

  const HeaderPrefix: string := "New property added in "
  const CountLabel: string := ". Count: "

  /** The first line of the message; the older monitor of src/main.py sends
      the same text on its own. */
  function Header(location: string, count: int): string {
    HeaderPrefix + location + CountLabel + IntToString(count)
  }

  /** The location and the count can be read back from the header. */
  lemma HeaderReadsBack(location: string, count: int)
    ensures
      var h := Header(location, count);
      && |h| == |HeaderPrefix| + |location| + |CountLabel| + |IntToString(count)|
      && h[..|HeaderPrefix|] == HeaderPrefix
      && h[|HeaderPrefix|..|HeaderPrefix| + |location|] == location
      && ParseInt(h[|h| - |IntToString(count)|..]) == Some(count)
  {
    ParseIntOfIntToString(count);
    FourParts(HeaderPrefix, location, CountLabel, IntToString(count));
  }

  /** Where each part of `a + b + c + d` sits. */
  lemma FourParts(a: string, b: string, c: string, d: string)
    ensures
      var h := a + b + c + d;
      && |h| == |a| + |b| + |c| + |d|
      && h[..|a|] == a
      && h[|a|..|a| + |b|] == b
      && h[|h| - |d|..] == d
  {
  }

  /** The lines of the message: the header, then when there are new URLs
      "New listings:", the first ten of them and "...and k more" for the
      `k > 0` that are not shown. */
  function MessageLines(location: string, count: int, newUrls: seq<string>): (lines: seq<string>)
    ensures |lines| >= 1 && lines[0] == Header(location, count)
    ensures newUrls == [] ==> |lines| == 1
    ensures newUrls != [] ==>
      var shown := if |newUrls| < MaxDisplay then |newUrls| else MaxDisplay;
      && |lines| == 2 + shown + (if |newUrls| > MaxDisplay then 1 else 0)
      && lines[1] == "New listings:"
      && lines[2..2 + shown] == newUrls[..shown]
      && (|newUrls| > MaxDisplay ==>
            lines[|lines| - 1] == "...and " + IntToString(|newUrls| - MaxDisplay) + " more")
  {
    var header := [Header(location, count)];
    if newUrls == [] then header
    else
      var shown := if |newUrls| < MaxDisplay then |newUrls| else MaxDisplay;
      var remaining := |newUrls| - shown;
      var more := if remaining > 0 then ["...and " + IntToString(remaining) + " more"] else [];
      var lines := header + ["New listings:"] + newUrls[..shown] + more;
      assert lines[2..2 + shown] == newUrls[..shown];
      lines
  }

  /** `"\n".join(message_lines)`. */
  function ComposeMessage(location: string, count: int, newUrls: seq<string>): (r: string)
    // The message opens with the header line ...
    ensures |Header(location, count)| <= |r| && r[..|Header(location, count)|] == Header(location, count)
    // ... which is all of it when there is no new URL, and is followed by a
    // line break when there is one.
    ensures newUrls == [] <==> r == Header(location, count)
    ensures newUrls != [] ==> r[|Header(location, count)|] == '\n'
  {
    var lines := MessageLines(location, count, newUrls);
    var r := Join("\n", lines);
    assert newUrls != [] ==> r == lines[0] + "\n" + Join("\n", lines[1..]);
    r
  }

  predicate IsNewline(c: char) {
    c == '\n'
  }

  lemma IntToStringHasNoNewline(n: int)
    ensures NoCharIn(IntToString(n), IsNewline)
  {
    var d := IntToString(n);
    forall i | 0 <= i < |d| ensures !IsNewline(d[i]) {
      assert IsDigit(d[i]) || d[i] == '-';
    }
  }

  lemma HeaderHasNoNewline(location: string, count: int)
    requires NoCharIn(location, IsNewline)
    ensures NoCharIn(Header(location, count), IsNewline)
  {
    var a := HeaderPrefix;
    var b := CountLabel;
    assert NoCharIn(a, IsNewline);
    assert NoCharIn(b, IsNewline);
    IntToStringHasNoNewline(count);
    NoCharInConcat(a, location, IsNewline);
    NoCharInConcat(a + location, b, IsNewline);
    NoCharInConcat(a + location + b, IntToString(count), IsNewline);
  }

  lemma MoreLineHasNoNewline(k: int)
    ensures NoCharIn("...and " + IntToString(k) + " more", IsNewline)
  {
    assert NoCharIn("...and ", IsNewline);
    assert NoCharIn(" more", IsNewline);
    IntToStringHasNoNewline(k);
    NoCharInConcat("...and ", IntToString(k), IsNewline);
    NoCharInConcat("...and " + IntToString(k), " more", IsNewline);
  }

  /** The message splits back into its lines when neither the location nor
      any URL holds a line break. */
  lemma MessageSplitsIntoLines(location: string, count: int, newUrls: seq<string>)
    requires NoCharIn(location, IsNewline)
    requires forall i :: 0 <= i < |newUrls| ==> NoCharIn(newUrls[i], IsNewline)
    ensures Split(ComposeMessage(location, count, newUrls), IsNewline) == MessageLines(location, count, newUrls)
  {
    MessageLinesHaveNoNewline(location, count, newUrls);
    SplitJoin(MessageLines(location, count, newUrls), '\n', IsNewline);
  }

  lemma MessageLinesHaveNoNewline(location: string, count: int, newUrls: seq<string>)
    requires NoCharIn(location, IsNewline)
    requires forall i :: 0 <= i < |newUrls| ==> NoCharIn(newUrls[i], IsNewline)
    ensures
      var lines := MessageLines(location, count, newUrls);
      forall k :: 0 <= k < |lines| ==> NoCharIn(lines[k], IsNewline)
  {
    var lines := MessageLines(location, count, newUrls);
    HeaderHasNoNewline(location, count);
    forall k | 0 <= k < |lines| ensures NoCharIn(lines[k], IsNewline) {
      if k >= 2 && newUrls != [] {
        var shown := if |newUrls| < MaxDisplay then |newUrls| else MaxDisplay;
        if k < 2 + shown {
          assert lines[k] == lines[2..2 + shown][k - 2] == newUrls[k - 2];
        } else {
          MoreLineHasNoNewline(|newUrls| - MaxDisplay);
        }
      }
    }
  }

  /** The transports `send_notification` knows. */
  datatype Channel = Ntfy | Telegram

  /** A message handed to a transport. */
  datatype Delivery = Delivery(channel: Channel, message: string)

  /** The transport the lower-cased method names, if any. */
  function ChannelFor(name: string): (r: Option<Channel>)
    ensures r == Some(Ntfy) <==> Lower(name) == "ntfy"
    ensures r == Some(Telegram) <==> Lower(name) == "telegram"
  {
    var m := Lower(name);
    if m == "ntfy" then Some(Ntfy)
    else if m == "telegram" then Some(Telegram)
    else None
  }

  /** `send_notification(settings, message)`: an unknown method sends
      nothing and returns normally; a sender that raises makes the call
      raise (`Err`). */
  function SendNotification(name: string, message: string, senderRaises: bool): (r: Result<Option<Delivery>, string>)
    ensures ChannelFor(name).None? ==> r == Ok(None)
    ensures ChannelFor(name).Some? ==>
      (r.Err? <==> senderRaises) &&
      (r.Ok? ==> r.value == Some(Delivery(ChannelFor(name).value, message)))
  {
    match ChannelFor(name)
    case None => Ok(None)
    case Some(channel) =>
      if senderRaises then Err("notification sender failed") else Ok(Some(Delivery(channel, message)))
  }

  /** The method is matched without regard to ASCII case. */
  lemma MethodCaseIsIgnored()
    ensures ChannelFor("NTFY") == Some(Ntfy) && ChannelFor("Ntfy") == Some(Ntfy)
    ensures ChannelFor("Telegram") == Some(Telegram)
    ensures ChannelFor("email") == None
  {
    NtfyInCapitals();
    NtfyCapitalised();
    TelegramCapitalised();
    EmailIsUnknown();
  }

  lemma NtfyInCapitals()
    ensures ChannelFor("NTFY") == Some(Ntfy)
  {
    ChannelOfName("NTFY", "ntfy");
  }

  lemma NtfyCapitalised()
    ensures ChannelFor("Ntfy") == Some(Ntfy)
  {
    ChannelOfName("Ntfy", "ntfy");
  }

  lemma TelegramCapitalised()
    ensures ChannelFor("Telegram") == Some(Telegram)
  {
    ChannelOfName("Telegram", "telegram");
  }

  lemma EmailIsUnknown()
    ensures ChannelFor("email") == None
  {
    ChannelOfName("email", "email");
  }

  /** The channel of a name whose lower-case form is known. */
  lemma ChannelOfName(name: string, lowered: string)
    requires |name| == |lowered|
    requires forall i :: 0 <= i < |name| ==>
      ('A' <= name[i] <= 'Z' && lowered[i] == (name[i] as int + 32) as char) || (IsAsciiLower(name[i]) && lowered[i] == name[i])
    ensures lowered == "ntfy" ==> ChannelFor(name) == Some(Ntfy)
    ensures lowered == "telegram" ==> ChannelFor(name) == Some(Telegram)
    ensures lowered != "ntfy" && lowered != "telegram" ==> ChannelFor(name) == None
  {
    LowerOfAscii(name, lowered);
  }

  // ---------------------------------------------------------------------
  // The loop

  /** The settings the loop reads. */
  datatype MonitorConfig = MonitorConfig(locationName: string, notificationMethod: string, runOnce: bool)

  /** The loop's state: the store and the in-memory previous count. */
  datatype MonitorState = MonitorState(store: Store, previousCount: int)

  /** What one iteration meets from the outside. */
  datatype CycleInput = CycleInput(
    countReply: CountReply,
    respond: string -> PageResponse,
    txn: Txn,
    senderRaises: bool)

  /** The end of one iteration: the loop goes on (or stops, in single-shot
      mode) with its new state, having requested the given page URLs,
      found the given new URLs and handed over the given message; or an
      exception escaped the loop. */
  datatype Outcome =
    | Next(state: MonitorState, requests: seq<string>, newUrls: seq<string>, sent: Option<Delivery>, stop: bool)
    | Crashed(state: MonitorState, requests: seq<string>, reason: string)

  /** Start-up: the previous count is read from the store. */
  function StartMonitor(store: Store): (m: MonitorState)
    ensures m.previousCount == GetPropertyCount(store).count
    ensures m.store.snaps == store.snaps
    ensures CountKey in store.meta && ParseInt(store.meta[CountKey]).Some? ==> m.store == store
  {
    var read := GetPropertyCount(store);
    MonitorState(read.store, read.count)
  }

  /** The notification step of the loop: on an increase the message is
      composed and sent, and a sender failure is swallowed. */
  function Notify(config: MonitorConfig, current: int, previous: int, newUrls: seq<string>, senderRaises: bool)
    : (r: Option<Delivery>)
    ensures r.Some? ==> current > previous
    ensures r.Some? ==> r.value.message == ComposeMessage(config.locationName, current, newUrls)
    ensures r.Some? ==> Some(r.value.channel) == ChannelFor(config.notificationMethod)
    ensures current > previous && ChannelFor(config.notificationMethod).Some? && !senderRaises ==> r.Some?
    ensures senderRaises ==> r.None?
  {
    if current > previous then
      match SendNotification(config.notificationMethod, ComposeMessage(config.locationName, current, newUrls), senderRaises)
      case Ok(sent) => sent
      case Err(_) => None
    else None
  }

  /** One pass through the body of the `while True` loop. */
  method Cycle(config: MonitorConfig, payload: seq<Field>, m: MonitorState, input: CycleInput)
    returns (o: Outcome)
    // A failed count fetch changes nothing and the loop goes on.
    ensures FetchPropertyCount(input.countReply).Err? ==> o == Next(m, [], [], None, false)
    // An unchanged count writes, fetches and sends nothing.
    ensures FetchPropertyCount(input.countReply) == Ok(m.previousCount) ==>
      o == Next(m, [], [], None, config.runOnce)
    // A changed count is stored before anything else can fail, and the
    // listing pages are requested for that count.
    ensures FetchPropertyCount(input.countReply).Ok? && FetchPropertyCount(input.countReply).value != m.previousCount ==>
      var c := FetchPropertyCount(input.countReply).value;
      && GetPropertyCount(o.state.store).count == c
      && RequestedInOrder(PageUrls(payload), o.requests)
      && (c >= 0 ==> |o.requests| <= TotalPages(c))
      && (c >= 0 && AllPagesAnswer(PageUrls(payload), TotalPages(c), input.respond) ==>
            |o.requests| == TotalPages(c))
      && (c < 0 ==> o.requests == [] && o.Crashed?)
    // Only a negative count or a failed store transaction escapes the loop.
    ensures o.Crashed? ==>
      && FetchPropertyCount(input.countReply).Ok?
      && (FetchPropertyCount(input.countReply).value < 0 || input.txn.Abort?)
    ensures o.Next? && FetchPropertyCount(input.countReply).Ok? ==>
      var c := FetchPropertyCount(input.countReply).value;
      && o.state.previousCount == c
      && o.stop == config.runOnce
      && (c != m.previousCount ==>
            && (AllPagesAnswer(PageUrls(payload), TotalPages(c), input.respond) ==>
                  && CurrentListings(o.state.store) == Dedup(Harvest(Responses(o.requests, input.respond)))
                  && o.newUrls == Minus(CurrentListings(o.state.store), set u | u in CurrentListings(m.store))
                  && PreviousListings(o.state.store) == CurrentListings(m.store)
                  && NewListings(o.state.store) == o.newUrls
                  && NoDups(CurrentListings(o.state.store))
                  && (forall u :: u in o.newUrls <==>
                        u in CurrentListings(o.state.store) && u !in CurrentListings(m.store)))
            && (!AllPagesAnswer(PageUrls(payload), TotalPages(c), input.respond) ==>
                  o.newUrls == [] && o.state.store == SetPropertyCount(m.store, c)))
    // The notification step sees the new count and the new URLs; a
    // failing sender does not stop the loop.
    ensures o.Next? && o.sent.Some? ==> FetchPropertyCount(input.countReply).Ok?
    ensures o.Next? && FetchPropertyCount(input.countReply).Ok? ==>
      o.sent == Notify(config, FetchPropertyCount(input.countReply).value, m.previousCount, o.newUrls, input.senderRaises)
  {
    var fetched := FetchPropertyCount(input.countReply);
    if fetched.Err? {
      return Next(m, [], [], None, false);
    }
    var current := fetched.value;
    if current == m.previousCount {
      return Next(m, [], [], None, config.runOnce);
    }
    o := Refresh(config, payload, m, input, current);
  }

  /** The rest of the pass once the count has changed to `current`: store
      it, fetch the listings, update the snapshots and notify. */
  method Refresh(config: MonitorConfig, payload: seq<Field>, m: MonitorState, input: CycleInput, current: int)
    returns (o: Outcome)
    requires current != m.previousCount
    ensures GetPropertyCount(o.state.store).count == current
    ensures RequestedInOrder(PageUrls(payload), o.requests)
    ensures current >= 0 ==> |o.requests| <= TotalPages(current)
    ensures current < 0 ==> o.requests == [] && o.Crashed?
    ensures o.Crashed? ==> current < 0 || input.txn.Abort?
    ensures o.Next? ==> o.state.previousCount == current && o.stop == config.runOnce
    // When every page answers, pages 1..n are all requested, and the
    // de-duplicated harvest becomes the `current` snapshot.
    ensures current >= 0 && AllPagesAnswer(PageUrls(payload), TotalPages(current), input.respond) ==>
      |o.requests| == TotalPages(current)
    ensures o.Next? && AllPagesAnswer(PageUrls(payload), TotalPages(current), input.respond) ==>
      && CurrentListings(o.state.store) == Dedup(Harvest(Responses(o.requests, input.respond)))
      && o.newUrls == Minus(CurrentListings(o.state.store), set u | u in CurrentListings(m.store))
    ensures o.Next? && AllPagesAnswer(PageUrls(payload), TotalPages(current), input.respond) ==>
      && PreviousListings(o.state.store) == CurrentListings(m.store)
      && NewListings(o.state.store) == o.newUrls
      && NoDups(CurrentListings(o.state.store))
      && (forall u :: u in o.newUrls <==>
            u in CurrentListings(o.state.store) && u !in CurrentListings(m.store))
    ensures o.Next? && !AllPagesAnswer(PageUrls(payload), TotalPages(current), input.respond) ==>
      o.newUrls == [] && o.state.store == SetPropertyCount(m.store, current)
    ensures o.Next? ==> o.sent == Notify(config, current, m.previousCount, o.newUrls, input.senderRaises)
  {
    var store := SetPropertyCount(m.store, current);
    CountRoundTrip(m.store, current);
    var f := FetchListingUrls(payload, current, input.respond);
    if f.result.Err? && f.result.error.NegativeCount? {
      return Crashed(MonitorState(store, m.previousCount), f.requested, "Count cannot be negative");
    }
    o := Conclude(config, m, store, current, f, input);
  }

  /** The end of the pass once the listings are fetched: a complete fetch
      replaces the snapshots, a failed one leaves them, and the change is
      announced. */
  method Conclude(config: MonitorConfig, m: MonitorState, store: Store, current: int, f: Fetch, input: CycleInput)
    returns (o: Outcome)
    requires store == SetPropertyCount(m.store, current)
    requires f.result.Ok? ==> NoDups(f.result.value)
    requires f.result.Err? ==> !f.result.error.NegativeCount?
    ensures o.requests == f.requested
    ensures GetPropertyCount(o.state.store).count == current
    ensures o.Crashed? ==> input.txn.Abort?
    ensures o.Next? ==> o.state.previousCount == current && o.stop == config.runOnce
    ensures o.Next? && f.result.Ok? ==>
      && PreviousListings(o.state.store) == CurrentListings(m.store)
      && NewListings(o.state.store) == o.newUrls
      && NoDups(CurrentListings(o.state.store))
      && (forall u :: u in o.newUrls <==>
            u in CurrentListings(o.state.store) && u !in CurrentListings(m.store))
    // A complete fetch is recorded as the `current` snapshot, and the new
    // URLs are its URLs that the old `current` lacked, in fetched order.
    ensures o.Next? && f.result.Ok? ==>
      && CurrentListings(o.state.store) == f.result.value
      && o.newUrls == Minus(f.result.value, set u | u in CurrentListings(m.store))
    ensures o.Next? && f.result.Err? ==> o.newUrls == [] && o.state.store == store
    ensures o.Crashed? ==> o.state.store == store
    ensures o.Next? ==> o.sent == Notify(config, current, m.previousCount, o.newUrls, input.senderRaises)
  {
    CountRoundTrip(m.store, current);
    var next := store;
    var newUrls: seq<string> := [];
    if f.result.Ok? {
      var u := UpdateCurrentListings(store, f.result.value, input.txn);
      if u.result.Err? {
        return Crashed(MonitorState(u.store, m.previousCount), f.requested, u.result.error);
      }
      CountIgnoresSnapshots(u.store, store);
      next := u.store;
      newUrls := u.result.value;
    }
    var sent := Notify(config, current, m.previousCount, newUrls, input.senderRaises);
    return Next(MonitorState(next, current), f.requested, newUrls, sent, config.runOnce);
  }

  /** The notification side: the message lists both under the header. */
  lemma TwoNewListingsAnnounced(location: string, u1: string, u2: string)
    ensures Notify(MonitorConfig(location, "telegram", false), 12, 10, [u1, u2], false)
      == Some(Delivery(Telegram, Join("\n", [Header(location, 12), "New listings:", u1, u2])))
  {
    ChannelOfName("telegram", "telegram");
    MessageLinesOfTwo(location, 12, u1, u2);
  }

  lemma MessageLinesOfTwo(location: string, count: int, u1: string, u2: string)
    ensures MessageLines(location, count, [u1, u2]) == [Header(location, count), "New listings:", u1, u2]
  {
    var lines := MessageLines(location, count, [u1, u2]);
    assert lines[2..4] == [u1, u2];
  }

  /** A count going from 10 to 12 with two listings that were not in the
      `current` snapshot: the store reports exactly those two and the
      message names both. */
  lemma TwoNewListingsScenario(s: Store, location: string, u1: string, u2: string)
    requires u1 != u2 && u1 !in CurrentListings(s) && u2 !in CurrentListings(s)
    ensures
      var update := UpdateCurrentListings(s, CurrentListings(s) + [u1, u2], Commit);
      && update.result == Ok([u1, u2])
      && Notify(MonitorConfig(location, "telegram", false), 12, 10, update.result.value, false)
           == Some(Delivery(Telegram, Join("\n", [Header(location, 12), "New listings:", u1, u2])))
  {
    AppendedListingsAreNew(s, [u1, u2]);
    TwoNewListingsAnnounced(location, u1, u2);
  }
}
