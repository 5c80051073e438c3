/** The chat-id helper of app/util/chat_id.py: collecting the chats named in
    Telegram `getUpdates` results, one record per chat id in order of first
    appearance, and the one-line label printed for each. `None` stands for
    an exception escaping the helper. */
module ChatId {
  import opened Wrappers
  import opened Text
  import opened Json

  /** The fields copied from a chat object; a missing field is `None`. */
  datatype ChatRecord = ChatRecord(
    id: JValue,
    chatType: JValue,
    title: JValue,
    username: JValue,
    firstName: JValue,
    lastName: JValue)

  /** The update keys whose value may carry a `chat` object, in scan order. */
  const Containers: seq<string> := ["message", "edited_message", "channel_post", "my_chat_member"]

  function IdOf(chat: seq<Field>): JValue {
    Get(chat, "id")
  }

  function RecordOf(chat: seq<Field>): (r: ChatRecord)
    ensures r.id == IdOf(chat)
  {
    ChatRecord(Get(chat, "id"), Get(chat, "type"), Get(chat, "title"),
               Get(chat, "username"), Get(chat, "first_name"), Get(chat, "last_name"))
  }

  // ---------------------------------------------------------------------
  // Where chats are found

  /** The chat of one container: present when both the container's value
      and its `chat` are objects. */
  function ContainerChat(update: seq<Field>, key: string): (r: Option<seq<Field>>)
    ensures r.Some? <==> Get(update, key).JObj? && Get(Get(update, key).fields, "chat").JObj?
  {
    var payload := Get(update, key);
    if payload.JObj? && Get(payload.fields, "chat").JObj? then Some(Get(payload.fields, "chat").fields)
    else None
  }

  /** The chats of the given containers of one update, in key order. */
  function ContainerChats(update: seq<Field>, keys: seq<string>): (r: seq<seq<Field>>)
    ensures |r| <= |keys|
    // One key contributes its chat, if it has one; with
    // `ContainerChatsConcat` this fixes the order of every scan.
    ensures |keys| == 1 ==> (r == [] <==> ContainerChat(update, keys[0]).None?)
    ensures |keys| == 1 && ContainerChat(update, keys[0]).Some? ==> r == [ContainerChat(update, keys[0]).value]
  {
    if |keys| == 0 then []
    else
      var rest := ContainerChats(update, keys[1..]);
      match ContainerChat(update, keys[0])
      case Some(c) => [c] + rest
      case None => rest
  }

  /** Scanning two lists of keys one after the other collects the chats of
      the first, then those of the second. */
  lemma {:induction false} ContainerChatsConcat(update: seq<Field>, a: seq<string>, b: seq<string>)
    ensures ContainerChats(update, a + b) == ContainerChats(update, a) + ContainerChats(update, b)
    decreases |a|
  {
    if |a| > 0 {
      assert (a + b)[0] == a[0] && (a + b)[1..] == a[1..] + b;
      ContainerChatsConcat(update, a[1..], b);
    } else {
      assert a + b == b;
    }
  }

  /** A chat is collected exactly when one of the containers yields it. */
  lemma {:induction false} ContainerChatsMembers(update: seq<Field>, keys: seq<string>)
    ensures forall c :: c in ContainerChats(update, keys) <==>
      exists k :: 0 <= k < |keys| && ContainerChat(update, keys[k]) == Some(c)
  {
    if |keys| > 0 {
      var rest := ContainerChats(update, keys[1..]);
      ContainerChatsMembers(update, keys[1..]);
      forall c ensures c in rest <==> exists k :: 1 <= k < |keys| && ContainerChat(update, keys[k]) == Some(c) {
        if c in rest {
          var k :| 0 <= k < |keys[1..]| && ContainerChat(update, keys[1..][k]) == Some(c);
          assert ContainerChat(update, keys[k + 1]) == Some(c);
        }
        if exists k :: 1 <= k < |keys| && ContainerChat(update, keys[k]) == Some(c) {
          var k :| 1 <= k < |keys| && ContainerChat(update, keys[k]) == Some(c);
          assert keys[1..][k - 1] == keys[k];
        }
      }
    }
  }

  /** The chat of `callback_query.message.chat`. When `callback_query` is an
      object, a missing `message` or `chat` reads as an empty object; one
      that is present but not an object has no `.get` and raises. */
  function CallbackChat(update: seq<Field>): (r: Option<seq<seq<Field>>>)
    ensures !Get(update, "callback_query").JObj? ==> r == Some([])
    ensures r.Some? ==> |r.value| <= 1
    ensures Get(update, "callback_query").JObj? ==>
      var query := Get(update, "callback_query").fields;
      var message := Lookup(query, "message");
      // No `message`: the default `{}` has no chat, so the chat is `{}`.
      && (message.None? ==> r == Some([[]]))
      // A `message` that is not an object raises.
      && (message.Some? && !message.value.JObj? ==> r.None?)
      // In an object `message`: no `chat` gives `{}`, a `chat` that is not
      // an object raises, and an object `chat` is the one collected.
      && (message.Some? && message.value.JObj? ==>
            var chat := Lookup(message.value.fields, "chat");
            && (chat.None? ==> r == Some([[]]))
            && (chat.Some? && !chat.value.JObj? ==> r.None?)
            && (chat.Some? && chat.value.JObj? ==> r == Some([chat.value.fields])))
  {
    var query := Get(update, "callback_query");
    if !query.JObj? then Some([])
    else
      var message := Lookup(query.fields, "message").GetOr(JObj([]));
      if !message.JObj? then None
      else
        var chat := Lookup(message.fields, "chat").GetOr(JObj([]));
        if !chat.JObj? then None else Some([chat.fields])
  }

  /** The chats one update offers, in the order the loop examines them. An
      update that is not an object has no `.get` and raises. */
  function UpdateChats(update: JValue): (r: Option<seq<seq<Field>>>)
    ensures !update.JObj? ==> r.None?
    ensures update.JObj? ==> (r.Some? <==> CallbackChat(update.fields).Some?)
    ensures r.Some? ==> |r.value| <= |Containers| + 1
    // The chats of the four containers, in key order, then the callback chat.
    ensures r.Some? ==>
      var inContainers := ContainerChats(update.fields, Containers);
      && |inContainers| <= |r.value|
      && r.value[..|inContainers|] == inContainers
      && r.value[|inContainers|..] == CallbackChat(update.fields).value
  {
    if !update.JObj? then None
    else
      match CallbackChat(update.fields)
      case None => None
      case Some(extra) => Some(ContainerChats(update.fields, Containers) + extra)
  }

  /** The chat a container yields, as a list of zero or one chats. */
  function Listed(chat: Option<seq<Field>>): (r: seq<seq<Field>>)
    ensures |r| <= 1 && (r == [] <==> chat.None?)
  {
    if chat.Some? then [chat.value] else []
  }

  /** The chats of one update in the loop's order: `message`,
      `edited_message`, `channel_post`, `my_chat_member`, then the callback
      query's. */
  lemma UpdateChatsInKeyOrder(update: JValue)
    requires UpdateChats(update).Some?
    ensures UpdateChats(update).value ==
      Listed(ContainerChat(update.fields, "message"))
      + Listed(ContainerChat(update.fields, "edited_message"))
      + Listed(ContainerChat(update.fields, "channel_post"))
      + Listed(ContainerChat(update.fields, "my_chat_member"))
      + CallbackChat(update.fields).value
  {
    ContainerChatsOfFour(update.fields, "message", "edited_message", "channel_post", "my_chat_member");
  }

  lemma ContainerChatsOfOne(update: seq<Field>, key: string)
    ensures ContainerChats(update, [key]) == Listed(ContainerChat(update, key))
  {
  }

  lemma ContainerChatsOfFour(update: seq<Field>, a: string, b: string, c: string, d: string)
    ensures ContainerChats(update, [a, b, c, d]) ==
      Listed(ContainerChat(update, a)) + Listed(ContainerChat(update, b))
      + Listed(ContainerChat(update, c)) + Listed(ContainerChat(update, d))
  {
    assert [a, b, c, d] == [a] + [b] + [c] + [d];
    ContainerChatsConcat(update, [a] + [b] + [c], [d]);
    ContainerChatsConcat(update, [a] + [b], [c]);
    ContainerChatsConcat(update, [a], [b]);
    ContainerChatsOfOne(update, a);
    ContainerChatsOfOne(update, b);
    ContainerChatsOfOne(update, c);
    ContainerChatsOfOne(update, d);
  }

  /** The chats of an update are those of the recognised containers whose
      value and `chat` are objects, and that of the callback query; nothing
      else is looked at. */
  lemma UpdateChatsMembers(update: JValue)
    requires UpdateChats(update).Some?
    ensures forall c :: c in UpdateChats(update).value <==>
      (exists k :: 0 <= k < |Containers| && ContainerChat(update.fields, Containers[k]) == Some(c))
      || c in CallbackChat(update.fields).value
  {
    ContainerChatsMembers(update.fields, Containers);
  }

  /** The chats of all updates in scan order, or `None` if one raises. */
  function ChatsOf(updates: seq<JValue>): Option<seq<seq<Field>>> {
    if |updates| == 0 then Some([])
    else
      match UpdateChats(updates[0])
      case None => None
      case Some(first) =>
        match ChatsOf(updates[1..])
        case None => None
        case Some(rest) => Some(first + rest)
  }

  /** The scan succeeds exactly when every update can be scanned. */
  lemma {:induction false} ChatsOfSucceeds(updates: seq<JValue>)
    ensures ChatsOf(updates).Some? <==> forall i :: 0 <= i < |updates| ==> UpdateChats(updates[i]).Some?
  {
    if |updates| > 0 {
      ChatsOfSucceeds(updates[1..]);
      if ChatsOf(updates[1..]).None? {
        var i :| 0 <= i < |updates[1..]| && UpdateChats(updates[1..][i]).None?;
        assert updates[1..][i] == updates[i + 1];
      } else {
        forall i | 1 <= i < |updates| ensures UpdateChats(updates[i]).Some? {
          assert updates[i] == updates[1..][i - 1];
        }
      }
    }
  }

  // ---------------------------------------------------------------------
  // Deduplication

  /** Every collected id can be looked up in a dictionary. */
  predicate Keyed(acc: seq<ChatRecord>) {
    forall k :: 0 <= k < |acc| ==> Hashable(acc[k].id)
  }

  /** `chat_id in chats`: some record's id equals `id` as a dictionary key. */
  predicate Known(acc: seq<ChatRecord>, id: JValue)
    requires Keyed(acc) && Hashable(id)
  {
    exists k :: 0 <= k < |acc| && KeyEq(acc[k].id, id)
  }

  /** No two records share a dictionary key. */
  predicate DistinctIds(acc: seq<ChatRecord>) {
    && Keyed(acc)
    && forall i, j :: 0 <= i < j < |acc| ==> !KeyEq(acc[i].id, acc[j].id)
  }

  /** Every id the chats carry can be looked up; `None` is hashable. */
  predicate AllIdsHashable(chats: seq<seq<Field>>) {
    forall i :: 0 <= i < |chats| ==> Hashable(IdOf(chats[i]))
  }

  /** The body of the loops: a chat with a `None` id or an id already
      present adds nothing; an unhashable id raises `TypeError`; any other
      chat adds its record at the end. */
  function AddChats(acc: seq<ChatRecord>, chats: seq<seq<Field>>): (r: Option<seq<ChatRecord>>)
    requires Keyed(acc)
    ensures r.Some? <==> AllIdsHashable(chats)
    ensures r.Some? ==> Keyed(r.value)
    // Records already present are never replaced or moved.
    ensures r.Some? ==> |acc| <= |r.value| && r.value[..|acc|] == acc
    ensures r.Some? && DistinctIds(acc) ==> DistinctIds(r.value)
    decreases |chats|
  {
    if |chats| == 0 then Some(acc)
    else
      var id := IdOf(chats[0]);
      AllIdsHashableTail(chats);
      if id.JNull? then AddChats(acc, chats[1..])
      else if !Hashable(id) then None
      else if Known(acc, id) then AddChats(acc, chats[1..])
      else
        var next := acc + [RecordOf(chats[0])];
        assert next[..|acc|] == acc;
        AddChats(next, chats[1..])
  }

  /** The hashability of all ids is that of the first and of the rest. */
  lemma AllIdsHashableTail(chats: seq<seq<Field>>)
    requires |chats| > 0
    ensures AllIdsHashable(chats) <==> Hashable(IdOf(chats[0])) && AllIdsHashable(chats[1..])
  {
    assert forall i :: 1 <= i < |chats| ==> chats[i] == chats[1..][i - 1];
  }

  /** `_extract_chat_records(updates)`. */
  function ExtractChatRecords(updates: seq<JValue>): (r: Option<seq<ChatRecord>>)
    ensures r.Some? <==> ChatsOf(updates).Some? && AllIdsHashable(ChatsOf(updates).value)
    ensures r.Some? ==> DistinctIds(r.value)
    ensures (exists i :: 0 <= i < |updates| && !updates[i].JObj?) ==> r.None?
  {
    ChatsOfSucceeds(updates);
    match ChatsOf(updates)
    case None => None
    case Some(chats) => AddChats([], chats)
  }

  // ---------------------------------------------------------------------
  // Reference definition: the chats whose id is not a key of an earlier one

  /** The chat at `i` carries an id, and no earlier chat carries an id equal
      to it as a dictionary key. */
  predicate IsFirst(chats: seq<seq<Field>>, i: int)
    requires AllIdsHashable(chats) && 0 <= i < |chats|
  {
    && !IdOf(chats[i]).JNull?
    && forall j :: 0 <= j < i ==> !KeyEq(IdOf(chats[j]), IdOf(chats[i]))
  }

  /** The records of the first `n` chats that are first for their id, in
      chat order. */
  function FirstsUpTo(chats: seq<seq<Field>>, n: nat): (r: seq<ChatRecord>)
    requires AllIdsHashable(chats) && n <= |chats|
    ensures Keyed(r)
  {
    if n == 0 then []
    else FirstsUpTo(chats, n - 1) + (if IsFirst(chats, n - 1) then [RecordOf(chats[n - 1])] else [])
  }

  /** A non-null id is a key of the records so far exactly when an earlier
      chat carries it. */
  lemma {:induction false} FirstsKnown(chats: seq<seq<Field>>, n: nat, id: JValue)
    requires AllIdsHashable(chats) && n <= |chats|
    requires Hashable(id) && !id.JNull?
    ensures Known(FirstsUpTo(chats, n), id) <==> EarlierKey(chats, n, id)
  {
    if n > 0 {
      FirstsKnown(chats, n - 1, id);
      KnownStep(chats, n, id, FirstsUpTo(chats, n - 1), FirstsUpTo(chats, n));
    }
  }

  /** One chat further: the records known are extended exactly as the
      earlier keys are. */
  lemma KnownStep(chats: seq<seq<Field>>, n: nat, id: JValue, before: seq<ChatRecord>, now: seq<ChatRecord>)
    requires AllIdsHashable(chats) && 0 < n <= |chats|
    requires Hashable(id) && !id.JNull? && Keyed(before) && Keyed(now)
    requires now == before + (if IsFirst(chats, n - 1) then [RecordOf(chats[n - 1])] else [])
    requires Known(before, id) <==> EarlierKey(chats, n - 1, id)
    ensures Known(now, id) <==> EarlierKey(chats, n, id)
  {
    EarlierKeyStep(chats, n, id);
    var last := IdOf(chats[n - 1]);
    if IsFirst(chats, n - 1) {
      KnownAppend(before, RecordOf(chats[n - 1]), id);
    } else {
      assert now == before;
      if KeyEq(last, id) {
        assert !last.JNull?;
        var j :| 0 <= j < n - 1 && KeyEq(IdOf(chats[j]), last);
        KeyEqIsEquivalence(IdOf(chats[j]), last, id);
        assert EarlierKey(chats, n - 1, id);
      }
    }
  }

  /** Some chat before `n` carries an id equal to `id` as a key. */
  predicate EarlierKey(chats: seq<seq<Field>>, n: nat, id: JValue)
    requires AllIdsHashable(chats) && n <= |chats| && Hashable(id)
  {
    exists j :: 0 <= j < n && KeyEq(IdOf(chats[j]), id)
  }

  lemma EarlierKeyStep(chats: seq<seq<Field>>, n: nat, id: JValue)
    requires AllIdsHashable(chats) && 0 < n <= |chats| && Hashable(id)
    ensures EarlierKey(chats, n, id) <==> EarlierKey(chats, n - 1, id) || KeyEq(IdOf(chats[n - 1]), id)
  {
  }

  /** Appending a record adds exactly its id to the known ones. */
  lemma KnownAppend(acc: seq<ChatRecord>, rec: ChatRecord, id: JValue)
    requires Keyed(acc) && Hashable(rec.id) && Hashable(id)
    ensures Keyed(acc + [rec])
    ensures Known(acc + [rec], id) <==> Known(acc, id) || KeyEq(rec.id, id)
  {
    var now := acc + [rec];
    if Known(acc, id) {
      var k :| 0 <= k < |acc| && KeyEq(acc[k].id, id);
      assert now[k] == acc[k];
    }
    if KeyEq(rec.id, id) {
      assert now[|acc|] == rec;
    }
  }

  /** The record is that of a chat before `n` that is first for its id. */
  predicate FromFirst(chats: seq<seq<Field>>, rec: ChatRecord, n: nat)
    requires AllIdsHashable(chats) && n <= |chats|
  {
    exists i :: 0 <= i < n && IsFirst(chats, i) && rec == RecordOf(chats[i])
  }

  /** Every record of the reference is the record of a chat that is first
      for its id. */
  lemma {:induction false} FirstsOrigin(chats: seq<seq<Field>>, n: nat)
    requires AllIdsHashable(chats) && n <= |chats|
    ensures forall k :: 0 <= k < |FirstsUpTo(chats, n)| ==> FromFirst(chats, FirstsUpTo(chats, n)[k], n)
  {
    if n > 0 {
      FirstsOrigin(chats, n - 1);
      var before := FirstsUpTo(chats, n - 1);
      var now := FirstsUpTo(chats, n);
      forall k | 0 <= k < |now| ensures FromFirst(chats, now[k], n) {
        if k < |before| {
          assert FromFirst(chats, before[k], n - 1);
          var i :| 0 <= i < n - 1 && IsFirst(chats, i) && before[k] == RecordOf(chats[i]);
          assert now[k] == before[k];
          assert 0 <= i < n && IsFirst(chats, i) && now[k] == RecordOf(chats[i]);
        } else {
          assert IsFirst(chats, n - 1);
          assert now[k] == RecordOf(chats[n - 1]);
        }
      }
    }
  }

  /** One turn of the loop takes the reference for `n` chats to the
      reference for `n + 1`. */
  lemma AddChatsStep(chats: seq<seq<Field>>, n: nat)
    requires AllIdsHashable(chats) && n < |chats|
    ensures AddChats(FirstsUpTo(chats, n), chats[n..]) == AddChats(FirstsUpTo(chats, n + 1), chats[n + 1..])
  {
    var acc := FirstsUpTo(chats, n);
    var rest := chats[n..];
    var id := IdOf(chats[n]);
    assert rest[0] == chats[n];
    assert rest[1..] == chats[n + 1..];
    AllIdsHashableTail(rest);
    if !id.JNull? {
      FirstsKnown(chats, n, id);
      if Known(acc, id) {
        var j :| 0 <= j < n && KeyEq(IdOf(chats[j]), id);
        assert !IsFirst(chats, n);
        assert FirstsUpTo(chats, n + 1) == acc;
        assert AddChats(acc, rest) == AddChats(acc, rest[1..]);
      } else {
        assert IsFirst(chats, n);
        assert AddChats(acc, rest) == AddChats(acc + [RecordOf(chats[n])], rest[1..]);
      }
    } else {
      assert FirstsUpTo(chats, n + 1) == acc;
      assert AddChats(acc, rest) == AddChats(acc, rest[1..]);
    }
  }

  /** The loop computes the reference: scanning the chats from record list
      `FirstsUpTo(chats, n)` on ends with all first-for-their-id records. */
  lemma {:induction false} AddChatsFromFirsts(chats: seq<seq<Field>>, n: nat)
    requires AllIdsHashable(chats) && n <= |chats|
    ensures AddChats(FirstsUpTo(chats, n), chats[n..]) == Some(FirstsUpTo(chats, |chats|))
    decreases |chats| - n
  {
    if n < |chats| {
      AddChatsStep(chats, n);
      AddChatsFromFirsts(chats, n + 1);
    } else {
      assert chats[n..] == [];
    }
  }

  /** `_extract_chat_records` returns the records of the chats that are first
      for their id, in order of appearance. */
  lemma ExtractIsFirsts(updates: seq<JValue>)
    requires ChatsOf(updates).Some? && AllIdsHashable(ChatsOf(updates).value)
    ensures ExtractChatRecords(updates) == Some(FirstsUpTo(ChatsOf(updates).value, |ChatsOf(updates).value|))
  {
    var chats := ChatsOf(updates).value;
    AddChatsFromFirsts(chats, 0);
    assert chats[0..] == chats;
  }

  /** Every non-null id met while scanning has a record, and every record
      is the one of the first chat with that id: later chats never replace
      its fields. */
  lemma ExtractCompleteAndFirstWins(updates: seq<JValue>)
    requires ChatsOf(updates).Some? && AllIdsHashable(ChatsOf(updates).value)
    ensures
      var chats := ChatsOf(updates).value;
      var records := ExtractChatRecords(updates).value;
      && Keyed(records)
      && (forall i :: 0 <= i < |chats| && !IdOf(chats[i]).JNull? ==> Known(records, IdOf(chats[i])))
      && (forall k :: 0 <= k < |records| ==> FromFirst(chats, records[k], |chats|))
  {
    var chats := ChatsOf(updates).value;
    ExtractIsFirsts(updates);
    FirstsOrigin(chats, |chats|);
    forall i | 0 <= i < |chats| && !IdOf(chats[i]).JNull?
      ensures Known(FirstsUpTo(chats, |chats|), IdOf(chats[i]))
    {
      FirstsKnown(chats, |chats|, IdOf(chats[i]));
      KeyEqIsEquivalence(IdOf(chats[i]), IdOf(chats[i]), IdOf(chats[i]));
    }
  }

  // ---------------------------------------------------------------------
  // Labels

  /** Python's `a or b`. */
  function Or(a: JValue, b: JValue): (r: JValue)
    ensures Truthy(r) <==> Truthy(a) || Truthy(b)
  {
    if Truthy(a) then a else b
  }

  /** `" ".join(name for name in (first, last) if name)`; `None` when a
      kept name is not a string and `join` raises. */
  function FullName(first: JValue, last: JValue): (r: Option<string>)
    ensures r.Some? <==> (Truthy(first) ==> first.JStr?) && (Truthy(last) ==> last.JStr?)
    // The names kept, joined by one space.
    ensures r.Some? && Truthy(first) && Truthy(last) ==> r.value == first.s + " " + last.s
    ensures r.Some? && Truthy(first) && !Truthy(last) ==> r.value == first.s
    ensures r.Some? && !Truthy(first) && Truthy(last) ==> r.value == last.s
    ensures r.Some? && !Truthy(first) && !Truthy(last) ==> r.value == ""
  {
    var names := (if Truthy(first) then [first] else []) + (if Truthy(last) then [last] else []);
    if exists k :: 0 <= k < |names| && !names[k].JStr? then None
    else if |names| == 0 then Some("")
    else if |names| == 1 then Some(names[0].s)
    else Some(names[0].s + " " + names[1].s)
  }

  /** The name shown for a chat: `title or username`, else the joined first
      and last names; `None` inside means no name is shown. */
  function DisplayName(c: ChatRecord): (r: Option<Option<string>>)
    // A truthy title wins, then a truthy username.
    ensures Truthy(c.title) ==> r == Some(Some(PyStr(c.title)))
    ensures !Truthy(c.title) && Truthy(c.username) ==> r == Some(Some(PyStr(c.username)))
    // Otherwise the names decide: joining a truthy name that is not a
    // string raises, no truthy name shows nothing, and the joined names
    // are shown otherwise.
    ensures !Truthy(c.title) && !Truthy(c.username) ==>
      && (r.None? <==> FullName(c.firstName, c.lastName).None?)
      && (r == Some(None) <==> !Truthy(c.firstName) && !Truthy(c.lastName))
      && (r.Some? && r.value.Some? ==> r.value.value == FullName(c.firstName, c.lastName).value)
  {
    var name := Or(c.title, c.username);
    if Truthy(name) then Some(Some(PyStr(name)))
    else
      match FullName(c.firstName, c.lastName)
      case None => None
      case Some(full) => if full != "" then Some(Some(full)) else Some(None)
  }

  /** The parts of the label: id, type and, when there is one, the name. */
  function LabelParts(c: ChatRecord): (r: Option<seq<string>>)
    ensures r.Some? ==> 2 <= |r.value| <= 3
    ensures r.Some? ==> r.value[0] == "id=" + PyStr(c.id)
    ensures r.Some? ==> r.value[1] == "type=" + (if Truthy(c.chatType) then PyStr(c.chatType) else "unknown")
  {
    match DisplayName(c)
    case None => None
    case Some(name) =>
      var parts := ["id=" + PyStr(c.id), "type=" + PyStr(Or(c.chatType, JStr("unknown")))];
      if name.Some? then Some(parts + ["name=" + name.value]) else Some(parts)
  }

  /** The line printed for one chat. */
  function ChatLabel(c: ChatRecord): (r: Option<string>)
    ensures r.Some? <==> LabelParts(c).Some?
    ensures r.Some? ==> r.value == " - " + Join(", ", LabelParts(c).value)
  {
    match LabelParts(c)
    case None => None
    case Some(parts) => Some(" - " + Join(", ", parts))
  }

  /** A truthy title is shown whatever else the chat has. */
  lemma TitleIsPreferred(c: ChatRecord)
    requires Truthy(c.title)
    ensures LabelParts(c).Some? && |LabelParts(c).value| == 3
    ensures LabelParts(c).value[2] == "name=" + PyStr(c.title)
  {
  }

  /** Without a title, a truthy username is shown. */
  lemma UsernameWithoutTitle(c: ChatRecord)
    requires !Truthy(c.title) && Truthy(c.username)
    ensures LabelParts(c).Some? && |LabelParts(c).value| == 3
    ensures LabelParts(c).value[2] == "name=" + PyStr(c.username)
  {
  }

  /** Without title and username, the first and last names are shown,
      joined by a space, leaving out a falsy one; a truthy name that is not
      a string makes the join raise. */
  lemma FullNameWithoutTitleOrUsername(c: ChatRecord)
    requires !Truthy(c.title) && !Truthy(c.username)
    ensures LabelParts(c).Some? <==>
      (Truthy(c.firstName) ==> c.firstName.JStr?) && (Truthy(c.lastName) ==> c.lastName.JStr?)
    ensures LabelParts(c).Some? && Truthy(c.firstName) && Truthy(c.lastName) ==>
      |LabelParts(c).value| == 3 && LabelParts(c).value[2] == "name=" + (c.firstName.s + " " + c.lastName.s)
    ensures LabelParts(c).Some? && Truthy(c.firstName) && !Truthy(c.lastName) ==>
      |LabelParts(c).value| == 3 && LabelParts(c).value[2] == "name=" + c.firstName.s
    ensures LabelParts(c).Some? && !Truthy(c.firstName) && Truthy(c.lastName) ==>
      |LabelParts(c).value| == 3 && LabelParts(c).value[2] == "name=" + c.lastName.s
    ensures !Truthy(c.firstName) && !Truthy(c.lastName) ==> LabelParts(c).Some? && |LabelParts(c).value| == 2
  {
  }

  /** A chat with no name at all gets only its id and type. */
  lemma NoNameGivesTwoParts(c: ChatRecord)
    requires !Truthy(c.title) && !Truthy(c.username) && !Truthy(c.firstName) && !Truthy(c.lastName)
    ensures LabelParts(c).Some? && |LabelParts(c).value| == 2
  {
  }
}
