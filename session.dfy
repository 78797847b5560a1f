/** The session engine of the bot (`XianyuLive`): how an inbound frame of
    the messaging socket is acknowledged, classified and routed, the
    per-conversation manual override, and the clocked rules that keep the
    connection alive (heartbeats, token refresh, reconnect delay).

    The clock is an explicit `now` (seconds, as `time.time()` gives it; an
    ISO text where a timestamp is stored). Decryption, mid generation, the
    item API and the reply generator are parameters. */
module Session {
  import opened Common
  import opened Context

  // ---------------------------------------------------------------------
  // Configuration

  datatype Config = Config(heartbeatInterval: int, heartbeatTimeout: int,
                           tokenRefreshInterval: int, tokenRetryInterval: int,
                           manualModeTimeout: int, messageExpireTime: int,
                           toggleKeywords: string)

  /** The values used when the environment sets none. */
  const DefaultConfig := Config(15, 5, 3600, 300, 3600, 300000, "。")

  /** Seconds the token loop sleeps between two checks when no refresh
      was due. */
  const TokenCheckPeriod: real := 60.0

  /** Seconds the connection loop waits before reconnecting after an
      unplanned disconnect. */
  const ReconnectPause: real := 5.0

  // ---------------------------------------------------------------------
  // Frames as the socket delivers them (after JSON parsing)

  /** `message["1"]["10"]` of a chat event. */
  datatype Reminder = Reminder(title: Option<string>, senderUserId: Option<string>,
                               content: Option<string>, url: Option<string>)

  /** `message["1"]` when it is a dict: fields "5" (create time, already
      passed through `int()`; None when absent or not convertible), "2"
      (the conversation) and "10" (None when absent or not a dict). */
  datatype ChatBody = ChatBody(createTime: Option<int>, conversation: Option<string>,
                               reminder: Option<Reminder>)

  /** An element of `message["1"]` when that is a list; `EntryDict` holds
      the entry's field "1". */
  datatype Entry = EntryDict(first: Option<Scalar>) | EntryOther

  /** The shapes field "1" of a decrypted message takes. */
  datatype Field1 = F1Absent | F1Str(s: string) | F1List(entries: seq<Entry>)
                  | F1Dict(chat: ChatBody) | F1Other

  /** `message["3"]` when it is a dict; a field that is absent or not a
      string is None (both compare unequal to every string). */
  datatype Field3 = Field3(needPush: Option<string>, redReminder: Option<string>)

  /** A decrypted message. A decrypted JSON value that is not a dict
      behaves as `Msg(F1Absent, None)`. */
  datatype Msg = Msg(f1: Field1, f3: Option<Field3>)

  /** The `data` of a sync item: text that already decodes as base64 JSON,
      or ciphertext with what decryption and parsing yield (None when
      either fails). */
  datatype Payload = PlainJson | Encrypted(decrypted: Option<Msg>)

  datatype SyncItem = SyncItem(data: Option<Payload>)

  /** `body`: without a `syncPushPackage`, with one that lacks `data`, or
      with its `data` list. */
  datatype Body = NoSync | SyncNoData | SyncData(items: seq<SyncItem>)

  datatype Frame = Frame(headers: Option<map<string, string>>, code: Option<int>, body: Body)

  // ---------------------------------------------------------------------
  // Acknowledgements

  /** Header fields an ack repeats when the inbound frame carries them. */
  const EchoedHeaders: set<string> := {"app-key", "ua", "dt"}

  /** Copy header `k` from `h` into `acc` when `h` has it. */
  function Echo(h: map<string, string>, k: string, acc: map<string, string>): map<string, string> {
    if k in h then acc[k := h[k]] else acc
  }

  /** The ack headers for a frame with headers `h`, under message id `mid`:
      the mid, the sid (empty when absent) and the echoed fields present. */
  function AckHeaders(h: map<string, string>, mid: string): (r: map<string, string>)
    ensures r.Keys == {"mid", "sid"} + (EchoedHeaders * h.Keys)
    ensures "mid" in r && r["mid"] == mid
    ensures "sid" in r && r["sid"] == (if "sid" in h then h["sid"] else "")
    ensures forall k :: k in EchoedHeaders && k in h ==> r[k] == h[k]
  {
    var base := map["mid" := mid, "sid" := if "sid" in h then h["sid"] else ""];
    Echo(h, "dt", Echo(h, "ua", Echo(h, "app-key", base)))
  }

  /** The ack `handle_message` sends first (its code is always 200): None
      when the frame has no headers, where building it fails; the frame's
      mid is reused, or a fresh one made. */
  function HandlerAck(headers: Option<map<string, string>>, freshMid: string): (r: Option<map<string, string>>)
    ensures r.None? <==> headers.None?
  {
    match headers
    case None => None
    case Some(h) => Some(AckHeaders(h, if "mid" in h then h["mid"] else freshMid))
  }

  /** The ack the receive loop sends for a frame whose headers carry a mid. */
  function LoopAck(h: map<string, string>): (r: map<string, string>)
    requires "mid" in h
  {
    AckHeaders(h, h["mid"])
  }

  /** A frame with a mid is acknowledged twice with the same headers: once
      by the receive loop, once inside `handle_message`. */
  lemma DoubleAck(h: map<string, string>, freshMid: string)
    requires "mid" in h
    ensures HandlerAck(Some(h), freshMid) == Some(LoopAck(h))
  {
  }

  // ---------------------------------------------------------------------
  // Frame classification

  /** `handle_heartbeat_response`: a frame with a mid and code 200. */
  predicate IsHeartbeatResponse(f: Frame) {
    f.headers.Some? && "mid" in f.headers.value && f.code == Some(200)
  }

  /** `is_sync_package` */
  predicate IsSyncPackage(f: Frame) {
    f.body.SyncData? && |f.body.items| > 0
  }

  /** `is_chat_message` */
  predicate IsChatMessage(m: Msg) {
    m.f1.F1Dict? && m.f1.chat.reminder.Some? && m.f1.chat.reminder.value.content.Some?
  }

  /** `is_typing_status` */
  predicate IsTypingStatus(m: Msg) {
    m.f1.F1List? && |m.f1.entries| > 0 && m.f1.entries[0].EntryDict?
    && m.f1.entries[0].first.Some? && m.f1.entries[0].first.value.SStr?
    && Contains(m.f1.entries[0].first.value.s, "@goofish")
  }

  /** `is_system_message` */
  predicate IsSystemMessage(m: Msg) {
    m.f3.Some? && m.f3.value.needPush == Some("false")
  }

  /** The order states that end processing with a log line. */
  const OrderStates: seq<string> := ["等待买家付款", "交易关闭", "等待卖家发货"]

  /** The order state announced by a message, when its handling returns
      early: only when field "1" is a string, since otherwise taking the
      buyer id out of it fails and the failure is ignored. */
  function OrderNotice(m: Msg): (r: Option<string>)
    ensures r.Some? <==> m.f3.Some? && m.f3.value.redReminder.Some?
                         && m.f3.value.redReminder.value in OrderStates && m.f1.F1Str?
  {
    if m.f3.Some? && m.f3.value.redReminder.Some? && m.f3.value.redReminder.value in OrderStates
       && m.f1.F1Str?
    then Some(m.f3.value.redReminder.value)
    else None
  }

  /** `message_stripped in toggle_keywords` */
  predicate IsToggleKeyword(keywords: string, message: string) {
    Contains(keywords, Strip(message))
  }

  /** A message of nothing but whitespace is always a toggle command, and
      so is any one keyword character with whitespace around it. */
  lemma ToggleKeywordCases(keywords: string, message: string, k: nat, pad: string, pad2: string)
    ensures AllSpace(message) ==> IsToggleKeyword(keywords, message)
    ensures k < |keywords| && !IsSpace(keywords[k]) && AllSpace(pad) && AllSpace(pad2) ==>
              IsToggleKeyword(keywords, pad + [keywords[k]] + pad2)
  {
    if AllSpace(message) {
      assert Strip(message) == [];
      assert OccursAt(keywords, [], 0);
      ContainsAt(keywords, [], 0);
    }
    if k < |keywords| && !IsSpace(keywords[k]) && AllSpace(pad) && AllSpace(pad2) {
      PaddingStripped(pad, [keywords[k]], pad2);
      assert keywords[k..k + 1] == [keywords[k]];
      ContainsAt(keywords, [keywords[k]], k);
    }
  }

  /** Whitespace around a word does not survive `strip()`. */
  lemma PaddingStripped(pad: string, w: string, pad2: string)
    requires AllSpace(pad) && AllSpace(pad2) && |w| > 0 && !IsSpace(w[0]) && !IsSpace(w[|w| - 1])
    ensures Strip(pad + w + pad2) == w
  {
    assert pad + w + pad2 == pad + (w + pad2);
    LStripPad(pad, w + pad2);
    RStripPad(w, pad2);
  }

  lemma {:induction false} LStripPad(pad: string, w: string)
    requires AllSpace(pad) && |w| > 0 && !IsSpace(w[0])
    ensures LStrip(pad + w) == w
    decreases |pad|
  {
    if pad != [] {
      assert (pad + w)[1..] == pad[1..] + w;
      LStripPad(pad[1..], w);
    } else {
      assert pad + w == w;
    }
  }

  lemma {:induction false} RStripPad(w: string, pad: string)
    requires AllSpace(pad) && |w| > 0 && !IsSpace(w[|w| - 1])
    ensures RStrip(w + pad) == w
    decreases |pad|
  {
    if pad != [] {
      assert (w + pad)[..|w + pad| - 1] == w + pad[..|pad| - 1];
      RStripPad(w, pad[..|pad| - 1]);
    } else {
      assert w + pad == w;
    }
  }

  /** A message older than the expiry window, in milliseconds. */
  predicate IsStale(now: real, createTime: int, expireMs: int) {
    now * 1000.0 - createTime as real > expireMs as real
  }

  /** `url.split("itemId=")[1].split("&")[0] if "itemId=" in url else None` */
  function ItemIdOf(url: string): (r: Option<string>)
    ensures r.Some? <==> Contains(url, "itemId=")
    ensures r.Some? ==>
              var i := Find(url, "itemId=").value;
              StartsWith(url[i + 7..], r.value) && !Contains(r.value, "&") && !Contains(r.value, "itemId=")
  {
    if Contains(url, "itemId=") then
      SplitSecond(url, "itemId=");
      var after := Split(url, "itemId=")[1];
      ItemIdIsPrefix(url);
      Some(Before(after, "&"))
    else None
  }

  lemma ItemIdIsPrefix(url: string)
    requires Contains(url, "itemId=")
    ensures |Split(url, "itemId=")| >= 2
    ensures var i := Find(url, "itemId=").value;
            var id := Before(Split(url, "itemId=")[1], "&");
            StartsWith(url[i + 7..], id) && !Contains(id, "itemId=")
  {
    SplitSecond(url, "itemId=");
    var i := Find(url, "itemId=").value;
    var rest := url[i + 7..];
    var piece := Before(rest, "itemId=");
    var id := Before(piece, "&");
    StartsWithTransitive(rest, piece, id);
    PrefixNotContains(piece, id, "itemId=");
  }

  /** The conversation id: field "2" up to its first `@`. */
  function ChatIdOf(conversation: string): (r: string)
    ensures StartsWith(conversation, r) && !Contains(r, "@")
  {
    Before(conversation, "@")
  }

  /** A chat event that passed every filter. */
  datatype Event = Event(chatId: string, itemId: string, senderId: string, senderName: string,
                         content: string, system: bool)

  /** Why a frame got no further than its ack. */
  datatype StopReason = NotSync | NoData | PlainPayload | DecryptFailed | Order(state: string)
                      | Typing | NotChat | MissingField | Expired | NoItemId

  datatype Route = Stop(reason: StopReason)
                 | OperatorToggle(ev: Event)
                 | OperatorNote(ev: Event)
                 | Customer(ev: Event)

  /** The decrypted message a sync frame carries, or why there is none. */
  function Decode(f: Frame): (r: Result<Msg, StopReason>)
    ensures r.Ok? <==> IsSyncPackage(f) && f.body.items[0].data.Some?
                       && f.body.items[0].data.value.Encrypted?
                       && f.body.items[0].data.value.decrypted.Some?
    ensures r == Err(NotSync) <==> !IsSyncPackage(f)
  {
    if !IsSyncPackage(f) then Err(NotSync)
    else
      match f.body.items[0].data
      case None => Err(NoData)
      case Some(PlainJson) => Err(PlainPayload)
      case Some(Encrypted(None)) => Err(DecryptFailed)
      case Some(Encrypted(Some(m))) => Ok(m)
  }

  /** The event of a chat message, or why it is dropped: a missing field
      raises inside the handler, which drops the frame. */
  function ExtractEvent(m: Msg, now: real, expireMs: int): (r: Result<Event, StopReason>)
    requires IsChatMessage(m)
    ensures r.Ok? ==>
              var c := m.f1.chat;
              var rem := c.reminder.value;
              c.createTime.Some? && !IsStale(now, c.createTime.value, expireMs) &&
              rem.url.Some? && ItemIdOf(rem.url.value) == Some(r.value.itemId) && r.value.itemId != "" &&
              c.conversation.Some? && r.value.chatId == ChatIdOf(c.conversation.value) &&
              rem.senderUserId == Some(r.value.senderId) && rem.content == Some(r.value.content) &&
              rem.title == Some(r.value.senderName) && r.value.system == IsSystemMessage(m)
    ensures var c := m.f1.chat;
            var rem := c.reminder.value;
            c.createTime.Some? && rem.title.Some? && rem.senderUserId.Some? &&
            !IsStale(now, c.createTime.value, expireMs) && rem.url.Some? && c.conversation.Some? &&
            ItemIdOf(rem.url.value).Some? && ItemIdOf(rem.url.value).value != "" ==>
              r == Ok(Event(ChatIdOf(c.conversation.value), ItemIdOf(rem.url.value).value, rem.senderUserId.value,
                            rem.title.value, rem.content.value, IsSystemMessage(m)))
    ensures r == Err(Expired) <==>
              var c := m.f1.chat;
              var rem := c.reminder.value;
              c.createTime.Some? && rem.title.Some? && rem.senderUserId.Some? &&
              IsStale(now, c.createTime.value, expireMs)
  {
    var c := m.f1.chat;
    var rem := c.reminder.value;
    if c.createTime.None? || rem.title.None? || rem.senderUserId.None? then Err(MissingField)
    else if IsStale(now, c.createTime.value, expireMs) then Err(Expired)
    else if rem.url.None? || c.conversation.None? then Err(MissingField)
    else
      var item := ItemIdOf(rem.url.value);
      if item.None? || item.value == "" then Err(NoItemId)
      else Ok(Event(ChatIdOf(c.conversation.value), item.value, rem.senderUserId.value,
                    rem.title.value, rem.content.value, IsSystemMessage(m)))
  }

  /** Who the event comes from decides its handling: the operator's own
      keyword toggles the override, another operator message is only
      recorded, anything else is a customer message. */
  function RouteEvent(ev: Event, myId: string, keywords: string): (r: Route)
    ensures r.OperatorToggle? <==> ev.senderId == myId && IsToggleKeyword(keywords, ev.content)
    ensures r.OperatorNote? <==> ev.senderId == myId && !IsToggleKeyword(keywords, ev.content)
    ensures r.Customer? <==> ev.senderId != myId
    ensures !r.Stop? && r.ev == ev
  {
    if ev.senderId == myId then
      if IsToggleKeyword(keywords, ev.content) then OperatorToggle(ev) else OperatorNote(ev)
    else Customer(ev)
  }

  /** The routing part of `handle_message`, up to the point where state
      changes. */
  function Classify(f: Frame, now: real, myId: string, cfg: Config): (r: Route)
    ensures Decode(f).Err? ==> r == Stop(Decode(f).error)
    ensures !r.Stop? ==>
              Decode(f).Ok? && IsChatMessage(Decode(f).value) && !IsTypingStatus(Decode(f).value) &&
              OrderNotice(Decode(f).value).None? &&
              ExtractEvent(Decode(f).value, now, cfg.messageExpireTime) == Ok(r.ev) &&
              r == RouteEvent(r.ev, myId, cfg.toggleKeywords)
    ensures Decode(f).Ok? && IsChatMessage(Decode(f).value) ==>
              var ex := ExtractEvent(Decode(f).value, now, cfg.messageExpireTime);
              r == if ex.Ok? then RouteEvent(ex.value, myId, cfg.toggleKeywords) else Stop(ex.error)
    ensures Decode(f).Ok? && IsTypingStatus(Decode(f).value) ==> r == Stop(Typing)
    ensures Decode(f).Ok? && OrderNotice(Decode(f).value).Some? ==>
              r == Stop(Order(OrderNotice(Decode(f).value).value))
    ensures (Decode(f).Ok? && !IsChatMessage(Decode(f).value) && !IsTypingStatus(Decode(f).value) &&
             OrderNotice(Decode(f).value).None?) ==> r == Stop(NotChat)
  {
    match Decode(f)
    case Err(why) => Stop(why)
    case Ok(m) =>
      if OrderNotice(m).Some? then Stop(Order(OrderNotice(m).value))
      else if IsTypingStatus(m) then Stop(Typing)
      else if !IsChatMessage(m) then Stop(NotChat)
      else
        match ExtractEvent(m, now, cfg.messageExpireTime)
        case Err(why) => Stop(why)
        case Ok(ev) => RouteEvent(ev, myId, cfg.toggleKeywords)
  }

  // ---------------------------------------------------------------------
  // Outbound chat messages

  /** The addressing of `send_msg`: the conversation and both receivers. */
  datatype Outgoing = Outgoing(cid: string, receivers: seq<string>, text: string)

  function SendMsg(chatId: string, toId: string, myId: string, text: string): (r: Outgoing)
    ensures |r.receivers| == 2 && r.text == text
  {
    Outgoing(chatId + "@goofish", [toId + "@goofish", myId + "@goofish"], text)
  }

  /** A reply goes back to the conversation it answers: the id read from a
      sent message's address is the id it was sent to. */
  lemma SendMsgAddressRoundTrip(chatId: string, toId: string, myId: string, text: string)
    requires !Contains(chatId, "@")
    ensures ChatIdOf(SendMsg(chatId, toId, myId, text).cid) == chatId
    ensures ChatIdOf(SendMsg(chatId, toId, myId, text).receivers[0]) == Before(toId, "@")
  {
    assert chatId + "@goofish" == chatId + ['@'] + "goofish";
    BeforeChar(chatId, '@', "goofish");
    BeforeGoofish(toId);
  }

  lemma BeforeGoofish(s: string)
    ensures Before(s + "@goofish", "@") == Before(s, "@")
  {
    var t := s + "@goofish";
    if Contains(s, "@") {
      var i := Find(s, "@").value;
      assert t[i..i + 1] == s[i..i + 1];
      assert OccursAt(t, "@", i);
      NoneBeforeInPrefix(s, "@goofish", '@', i);
      assert Find(t, "@").value == i;
      assert t[..i] == s[..i];
    } else {
      assert t == s + ['@'] + "goofish";
      BeforeChar(s, '@', "goofish");
    }
  }

  /** The text the reply generator receives about the item. */
  function ItemDescription(desc: string, soldPrice: Scalar): string {
    desc + ";当前商品售卖价格为:" + ScalarText(soldPrice)
  }

  /** What the item text for the reply generator is, from the item cache
      and the item API: the cached entry's, else that of a fetched item that
      has both a description and a sold price; None otherwise. */
  function DescriptionOf(cache: map<string, CachedItem>, itemId: string,
                         itemApi: string -> Option<RawItem>): (d: Option<string>)
    ensures itemId in cache ==> d.Some?
    ensures itemId !in cache ==>
              (d.Some? <==> itemApi(itemId).Some? && itemApi(itemId).value.desc.Some? &&
                            itemApi(itemId).value.soldPrice.Some?)
  {
    if itemId in cache then Some(ItemDescription(cache[itemId].desc, cache[itemId].soldPrice))
    else
      match itemApi(itemId)
      case None => None
      case Some(raw) =>
        if raw.desc.Some? && raw.soldPrice.Some?
        then Some(ItemDescription(raw.desc.value, raw.soldPrice.value))
        else None
  }

  /** What the reply generator returns: the reply and the intent it saw. */
  /** The item cache after the item text is looked up: an uncached item
      that the item API returns is cached, whatever fields it lacks. */
  function CacheAfterDescribe(cache: map<string, CachedItem>, itemId: string,
                              itemApi: string -> Option<RawItem>, nowIso: string): map<string, CachedItem>
  {
    if itemId !in cache && itemApi(itemId).Some? then cache[itemId := Simplify(itemApi(itemId).value, nowIso)]
    else cache
  }

  datatype BotAnswer = BotAnswer(text: string, intent: string)

  /** The bargain counts after a reply: a price intent counts one more
      bargain for the chat. */
  function BargainsAfter(bargains: map<string, nat>, chat: string, intent: string): map<string, nat> {
    if intent == "price" then bargains[chat := BargainOf(bargains, chat) + 1] else bargains
  }

  // ---------------------------------------------------------------------
  // Manual override as a value

  datatype ManualState = ManualState(convs: set<string>, stamps: map<string, real>)

  ghost predicate ManualValid(s: ManualState) {
    s.convs == s.stamps.Keys
  }

  /** `enter_manual_mode` */
  function Enter(s: ManualState, chat: string, now: real): (r: ManualState)
    ensures r.convs == s.convs + {chat} && r.stamps == s.stamps[chat := now]
  {
    ManualState(s.convs + {chat}, s.stamps[chat := now])
  }

  /** `exit_manual_mode` */
  function Exit(s: ManualState, chat: string): (r: ManualState)
    ensures r.convs == s.convs - {chat} && r.stamps == s.stamps - {chat}
  {
    ManualState(s.convs - {chat}, s.stamps - {chat})
  }

  /** `is_manual_mode`: the answer and the state afterwards, since an
      expired override is removed while it is checked. */
  function IsManual(s: ManualState, chat: string, now: real, timeout: int): (r: (bool, ManualState))
    ensures chat !in s.convs ==> r == (false, s)
    ensures chat in s.convs && chat in s.stamps && now - s.stamps[chat] > timeout as real ==>
              r == (false, Exit(s, chat))
    ensures r.0 <==> chat in s.convs && (chat in s.stamps ==> now - s.stamps[chat] <= timeout as real)
    ensures r.0 ==> r.1 == s
  {
    if chat !in s.convs then (false, s)
    else if chat in s.stamps && now - s.stamps[chat] > timeout as real then (false, Exit(s, chat))
    else (true, s)
  }

  /** `toggle_manual_mode`: "auto" after leaving the override, "manual"
      after entering it. */
  function Toggle(s: ManualState, chat: string, now: real, timeout: int): (r: (string, ManualState))
    ensures r.0 == "auto" <==> IsManual(s, chat, now, timeout).0
    ensures r.0 == "auto" || r.0 == "manual"
  {
    var (active, s1) := IsManual(s, chat, now, timeout);
    if active then ("auto", Exit(s1, chat)) else ("manual", Enter(s1, chat, now))
  }

  /** Every operation keeps the set and the timestamp keys equal. */
  lemma ManualOperationsKeepValid(s: ManualState, chat: string, now: real, timeout: int)
    requires ManualValid(s)
    ensures ManualValid(Enter(s, chat, now)) && ManualValid(Exit(s, chat))
    ensures ManualValid(IsManual(s, chat, now, timeout).1)
    ensures ManualValid(Toggle(s, chat, now, timeout).1)
  {
  }

  /** Toggling a chat in automatic mode takes it over at `now`; toggling it
      back before the timeout releases it and restores the state. Other
      chats are untouched either way. */
  lemma ToggleRoundTrip(s: ManualState, chat: string, now: real, later: real, timeout: int)
    requires ManualValid(s) && chat !in s.convs
    requires now <= later && later - now <= timeout as real
    ensures var (m1, s1) := Toggle(s, chat, now, timeout);
            m1 == "manual" && chat in s1.convs && s1.stamps[chat] == now &&
            var (m2, s2) := Toggle(s1, chat, later, timeout);
            m2 == "auto" && s2 == s
    ensures forall c :: c != chat ==>
              (c in Toggle(s, chat, now, timeout).1.convs <==> c in s.convs) &&
              (c in s.stamps ==> Toggle(s, chat, now, timeout).1.stamps[c] == s.stamps[c])
  {
    var s1 := Toggle(s, chat, now, timeout).1;
    assert s1 == Enter(s, chat, now);
    var s2 := Toggle(s1, chat, later, timeout).1;
    assert s2 == Exit(s1, chat);
    assert s2.stamps == s.stamps;
  }

  /** An override lasts exactly `timeout` seconds: still active at the
      limit, removed from both tables right after it. */
  lemma ManualExpiry(s: ManualState, chat: string, entered: real, timeout: int, after: real)
    requires ManualValid(s)
    requires after > 0.0
    ensures var s1 := Enter(s, chat, entered);
            IsManual(s1, chat, entered + timeout as real, timeout).0 &&
            IsManual(s1, chat, entered + timeout as real + after, timeout) == (false, Exit(s1, chat)) &&
            chat !in Exit(s1, chat).convs && chat !in Exit(s1, chat).stamps
  {
  }

  // ---------------------------------------------------------------------
  // Heartbeats and the token timer

  /** What the heartbeat loop sees: one of its one-second ticks, or the
      receive loop recording a heartbeat response. */
  datatype HeartbeatEvent = Tick(t: real) | Response(t: real)

  datatype HeartbeatRun = HeartbeatRun(probes: seq<real>, lastSent: real, lastResponse: real,
                                       consumed: nat, timedOut: bool)

  /** The heartbeat loop over a run of events, from the given send and
      response times: a probe whenever `interval` has passed since the
      last one, and a stop at the first tick that finds the last response
      older than `interval + timeout`. */
  function Heartbeats(events: seq<HeartbeatEvent>, lastSent: real, lastResponse: real,
                      interval: int, timeout: int): (r: HeartbeatRun)
    decreases |events|
    ensures r.consumed <= |events|
  {
    if events == [] then HeartbeatRun([], lastSent, lastResponse, 0, false)
    else
      match events[0]
      case Response(t) =>
        var rest := Heartbeats(events[1..], lastSent, t, interval, timeout);
        HeartbeatRun(rest.probes, rest.lastSent, rest.lastResponse, rest.consumed + 1, rest.timedOut)
      case Tick(t) =>
        var send := t - lastSent >= interval as real;
        var sent := if send then t else lastSent;
        if t - lastResponse > (interval + timeout) as real then
          HeartbeatRun(if send then [t] else [], sent, lastResponse, 1, true)
        else
          var rest := Heartbeats(events[1..], sent, lastResponse, interval, timeout);
          HeartbeatRun((if send then [t] else []) + rest.probes, rest.lastSent, rest.lastResponse,
                       rest.consumed + 1, rest.timedOut)
  }

  /** What a finished heartbeat run reports, with `probes` sent before it. */
  function After(probes: seq<real>, r: HeartbeatRun): (seq<real>, real, real, bool) {
    (probes + r.probes, r.lastSent, r.lastResponse, r.timedOut)
  }

  function Outcome(r: HeartbeatRun): (seq<real>, real, real, bool) {
    (r.probes, r.lastSent, r.lastResponse, r.timedOut)
  }

  /** The loop of `heartbeat_loop` on its two clocks: a probe when
      `interval` has passed since the last one, and a stop at the first tick
      that finds the last response too old. */
  method RunHeartbeats(events: seq<HeartbeatEvent>, lastSent: real, lastResponse: real,
                       interval: int, timeout: int)
    returns (probes: seq<real>, sentAt: real, heardAt: real, timedOut: bool)
    ensures (probes, sentAt, heardAt, timedOut) == Outcome(Heartbeats(events, lastSent, lastResponse, interval, timeout))
  {
    sentAt, heardAt := lastSent, lastResponse;
    probes := [];
    timedOut := false;
    var todo := events;
    assert [] + Heartbeats(events, lastSent, lastResponse, interval, timeout).probes ==
           Heartbeats(events, lastSent, lastResponse, interval, timeout).probes;
    while todo != []
      invariant Outcome(Heartbeats(events, lastSent, lastResponse, interval, timeout)) ==
                After(probes, Heartbeats(todo, sentAt, heardAt, interval, timeout))
      decreases |todo|
    {
      ghost var now := After(probes, Heartbeats(todo, sentAt, heardAt, interval, timeout));
      match todo[0] {
        case Response(t) =>
          assert now == After(probes, Heartbeats(todo[1..], sentAt, t, interval, timeout));
          heardAt := t;
        case Tick(t) =>
          var probe := if t - sentAt >= interval as real then [t] else [];
          var sent := if t - sentAt >= interval as real then t else sentAt;
          if t - heardAt > (interval + timeout) as real {
            assert now == (probes + probe, sent, heardAt, true);
            probes, sentAt, timedOut := probes + probe, sent, true;
            return;
          }
          ghost var rest := Heartbeats(todo[1..], sent, heardAt, interval, timeout);
          assert now == (probes + (probe + rest.probes), rest.lastSent, rest.lastResponse, rest.timedOut);
          assert probes + (probe + rest.probes) == (probes + probe) + rest.probes;
          probes, sentAt := probes + probe, sent;
      }
      todo := todo[1..];
    }
    assert probes + [] == probes;
  }

  /** Each probe comes at least `interval` after the one before it, the
      first one at least `interval` after `start`. */
  ghost predicate Spaced(probes: seq<real>, start: real, interval: int) {
    (|probes| > 0 ==> probes[0] - start >= interval as real) &&
    forall i :: 0 < i < |probes| ==> probes[i] - probes[i - 1] >= interval as real
  }

  lemma SpacedCons(t: real, rest: seq<real>, start: real, interval: int)
    requires t - start >= interval as real && Spaced(rest, t, interval)
    ensures Spaced([t] + rest, start, interval)
  {
    var p := [t] + rest;
    forall i | 0 < i < |p|
      ensures p[i] - p[i - 1] >= interval as real
    {
      assert p[i] == rest[i - 1];
      if i > 1 {
        assert p[i - 1] == rest[i - 2];
      }
    }
  }

  /** Probes are at least `interval` apart, the first one at least
      `interval` after the last probe before the run. */
  lemma {:induction false} HeartbeatSpacing(events: seq<HeartbeatEvent>, lastSent: real, lastResponse: real,
                                            interval: int, timeout: int)
    ensures Spaced(Heartbeats(events, lastSent, lastResponse, interval, timeout).probes, lastSent, interval)
    decreases |events|
  {
    if events != [] {
      match events[0]
      case Response(t) =>
        HeartbeatSpacing(events[1..], lastSent, t, interval, timeout);
      case Tick(t) =>
        var send := t - lastSent >= interval as real;
        var sent := if send then t else lastSent;
        if t - lastResponse <= (interval + timeout) as real {
          HeartbeatSpacing(events[1..], sent, lastResponse, interval, timeout);
          var rest := Heartbeats(events[1..], sent, lastResponse, interval, timeout);
          if send {
            SpacedCons(t, rest.probes, lastSent, interval);
            assert Heartbeats(events, lastSent, lastResponse, interval, timeout).probes == [t] + rest.probes;
          } else {
            assert Heartbeats(events, lastSent, lastResponse, interval, timeout).probes == rest.probes;
          }
        }
    }
  }

  /** The send clock ends at the last probe, or where it started when no
      probe was sent. */
  lemma {:induction false} HeartbeatLastSent(events: seq<HeartbeatEvent>, lastSent: real, lastResponse: real,
                                             interval: int, timeout: int)
    ensures var r := Heartbeats(events, lastSent, lastResponse, interval, timeout);
            r.lastSent == (if r.probes == [] then lastSent else r.probes[|r.probes| - 1])
    decreases |events|
  {
    if events != [] {
      match events[0]
      case Response(t) =>
        HeartbeatLastSent(events[1..], lastSent, t, interval, timeout);
      case Tick(t) =>
        var send := t - lastSent >= interval as real;
        var sent := if send then t else lastSent;
        if t - lastResponse <= (interval + timeout) as real {
          HeartbeatLastSent(events[1..], sent, lastResponse, interval, timeout);
          var rest := Heartbeats(events[1..], sent, lastResponse, interval, timeout);
          var p := (if send then [t] else []) + rest.probes;
          assert Heartbeats(events, lastSent, lastResponse, interval, timeout).probes == p;
          assert rest.probes != [] ==> p[|p| - 1] == rest.probes[|rest.probes| - 1];
        }
    }
  }

  /** The loop stops only at a tick that finds the last response older
      than `interval + timeout`; otherwise it consumes every event. */
  lemma {:induction false} HeartbeatStop(events: seq<HeartbeatEvent>, lastSent: real, lastResponse: real,
                                         interval: int, timeout: int)
    ensures var r := Heartbeats(events, lastSent, lastResponse, interval, timeout);
            (!r.timedOut ==> r.consumed == |events|) &&
            (r.timedOut ==>
               r.consumed > 0 && events[r.consumed - 1].Tick? &&
               events[r.consumed - 1].t - r.lastResponse > (interval + timeout) as real)
    decreases |events|
  {
    if events != [] {
      var t := events[0].t;
      var next := if events[0].Response? then t else lastResponse;
      var sent := if events[0].Tick? && t - lastSent >= interval as real then t else lastSent;
      if events[0].Response? || t - lastResponse <= (interval + timeout) as real {
        HeartbeatStop(events[1..], sent, next, interval, timeout);
        var rest := Heartbeats(events[1..], sent, next, interval, timeout);
        if rest.timedOut {
          assert events[rest.consumed] == events[1..][rest.consumed - 1];
        }
      }
    }
  }

  /** While responses keep arriving within the window, the loop never
      stops. */
  lemma {:induction false} HeartbeatsKeepAlive(events: seq<HeartbeatEvent>, lastSent: real, lastResponse: real,
                                               interval: int, timeout: int)
    requires forall i :: 0 <= i < |events| && events[i].Tick? ==>
               events[i].t - LastResponseBefore(events, i, lastResponse) <= (interval + timeout) as real
    ensures !Heartbeats(events, lastSent, lastResponse, interval, timeout).timedOut
    decreases |events|
  {
    if events != [] {
      var t := events[0].t;
      var next := if events[0].Response? then t else lastResponse;
      var sent := if events[0].Tick? && t - lastSent >= interval as real then t else lastSent;
      forall i | 0 <= i < |events[1..]| && events[1..][i].Tick?
        ensures events[1..][i].t - LastResponseBefore(events[1..], i, next) <= (interval + timeout) as real
      {
        LastResponseShift(events, i, lastResponse);
      }
      HeartbeatsKeepAlive(events[1..], sent, next, interval, timeout);
    }
  }

  /** The time of the latest response among the first `i` events. */
  function LastResponseBefore(events: seq<HeartbeatEvent>, i: nat, initial: real): real
    requires i <= |events|
    decreases i
  {
    if i == 0 then initial
    else if events[i - 1].Response? then events[i - 1].t
    else LastResponseBefore(events, i - 1, initial)
  }

  lemma {:induction false} LastResponseShift(events: seq<HeartbeatEvent>, i: nat, initial: real)
    requires events != [] && i < |events| - 1
    ensures LastResponseBefore(events[1..], i, if events[0].Response? then events[0].t else initial)
            == LastResponseBefore(events, i + 1, initial)
    decreases i
  {
    if i > 0 {
      LastResponseShift(events, i - 1, initial);
    }
  }

  /** Event `i` is a tick that finds the latest response before it older
      than `interval + timeout`. */
  predicate Late(events: seq<HeartbeatEvent>, i: nat, lastResponse: real, interval: int, timeout: int)
    requires i < |events|
  {
    events[i].Tick? && events[i].t - LastResponseBefore(events, i, lastResponse) > (interval + timeout) as real
  }

  lemma LateShift(events: seq<HeartbeatEvent>, j: nat, lastResponse: real, interval: int, timeout: int)
    requires events != [] && j < |events| - 1
    ensures Late(events[1..], j, if events[0].Response? then events[0].t else lastResponse, interval, timeout)
            <==> Late(events, j + 1, lastResponse, interval, timeout)
  {
    LastResponseShift(events, j, lastResponse);
    assert events[1..][j] == events[j + 1];
  }

  /** A late tick stops the loop, at that tick or before it. */
  lemma {:induction false} HeartbeatTimesOut(events: seq<HeartbeatEvent>, lastSent: real, lastResponse: real,
                                             interval: int, timeout: int, i: nat)
    requires i < |events| && Late(events, i, lastResponse, interval, timeout)
    ensures var r := Heartbeats(events, lastSent, lastResponse, interval, timeout);
            r.timedOut && r.consumed <= i + 1
    decreases i
  {
    if i > 0 {
      var t := events[0].t;
      var next := if events[0].Response? then t else lastResponse;
      var sent := if events[0].Tick? && t - lastSent >= interval as real then t else lastSent;
      if events[0].Response? || t - lastResponse <= (interval + timeout) as real {
        LateShift(events, i - 1, lastResponse, interval, timeout);
        HeartbeatTimesOut(events[1..], sent, next, interval, timeout, i - 1);
      }
    }
  }

  /** When the loop stops, it stops at the first late tick: the last event
      it consumed is late and none before it is. */
  lemma {:induction false} HeartbeatFirstLate(events: seq<HeartbeatEvent>, lastSent: real, lastResponse: real,
                                              interval: int, timeout: int)
    ensures var r := Heartbeats(events, lastSent, lastResponse, interval, timeout);
            r.timedOut ==>
              0 < r.consumed && Late(events, r.consumed - 1, lastResponse, interval, timeout) &&
              forall j :: 0 <= j < r.consumed - 1 ==> !Late(events, j, lastResponse, interval, timeout)
    decreases |events|
  {
    if events != [] {
      var t := events[0].t;
      var next := if events[0].Response? then t else lastResponse;
      var sent := if events[0].Tick? && t - lastSent >= interval as real then t else lastSent;
      if events[0].Response? || t - lastResponse <= (interval + timeout) as real {
        HeartbeatFirstLate(events[1..], sent, next, interval, timeout);
        var rest := Heartbeats(events[1..], sent, next, interval, timeout);
        if rest.timedOut {
          LateShift(events, rest.consumed - 1, lastResponse, interval, timeout);
          forall j | 0 <= j < rest.consumed
            ensures !Late(events, j, lastResponse, interval, timeout)
          {
            if j > 0 {
              LateShift(events, j - 1, lastResponse, interval, timeout);
            }
          }
        }
      }
    }
  }

  datatype TokenAction = Restart | RetryAfter(seconds: real) | CheckAfter(seconds: real)

  /** One pass of `token_refresh_loop`: a refresh is attempted only when
      the interval has passed; a new token restarts the connection, a
      failed attempt waits the retry interval, and otherwise the loop
      checks again a minute later. */
  function TokenDecision(now: real, lastRefresh: real, cfg: Config, fetched: Option<string>): (r: TokenAction)
    ensures r == Restart <==> now - lastRefresh >= cfg.tokenRefreshInterval as real
                              && fetched.Some? && fetched.value != ""
    ensures r == CheckAfter(TokenCheckPeriod) <==> now - lastRefresh < cfg.tokenRefreshInterval as real
  {
    if now - lastRefresh >= cfg.tokenRefreshInterval as real then
      if fetched.Some? && fetched.value != "" then Restart
      else RetryAfter(cfg.tokenRetryInterval as real)
    else CheckAfter(TokenCheckPeriod)
  }

  /** Seconds the connection loop waits before connecting again. */
  function ReconnectDelay(restartFlag: bool): (d: real)
    ensures d == 0.0 <==> restartFlag
    ensures !restartFlag ==> d == ReconnectPause
  {
    if restartFlag then 0.0 else ReconnectPause
  }

  // ---------------------------------------------------------------------
  // The session object

  /** The connection's clocks, token and restart flag at one moment. */
  datatype LinkState = LinkState(heartbeatSent: real, heartbeatHeard: real, tokenRefreshed: real,
                                 token: string, restart: bool)

  class XianyuLive {
    const myId: string
    const cfg: Config
    const context: ChatContextManager

    var lastHeartbeatTime: real
    var lastHeartbeatResponse: real
    var lastTokenRefreshTime: real
    /** The connection token; "" stands for both "none yet" and an empty
        token, which behave alike. */
    var currentToken: string
    var connectionRestartFlag: bool
    var manualConversations: set<string>
    var manualTimestamps: map<string, real>

    ghost predicate Valid()
      reads this, context
    {
      manualConversations == manualTimestamps.Keys && context.Valid()
    }

    function Manual(): ManualState
      reads this
    {
      ManualState(manualConversations, manualTimestamps)
    }

    function Link(): LinkState
      reads this
    {
      LinkState(lastHeartbeatTime, lastHeartbeatResponse, lastTokenRefreshTime, currentToken, connectionRestartFlag)
    }

    constructor (myId: string, cfg: Config, maxHistory: nat)
      ensures Valid() && fresh(context)
      ensures this.myId == myId && this.cfg == cfg
      ensures Manual() == ManualState({}, map[]) && currentToken == "" && !connectionRestartFlag
      ensures lastHeartbeatTime == 0.0 && lastHeartbeatResponse == 0.0 && lastTokenRefreshTime == 0.0
    {
      this.myId := myId;
      this.cfg := cfg;
      context := new ChatContextManager(maxHistory);
      lastHeartbeatTime, lastHeartbeatResponse, lastTokenRefreshTime := 0.0, 0.0, 0.0;
      currentToken := "";
      connectionRestartFlag := false;
      manualConversations, manualTimestamps := {}, map[];
    }

    method EnterManualMode(chat: string, now: real)
      requires Valid()
      modifies this
      ensures Valid()
      ensures Manual() == Enter(old(Manual()), chat, now)
      ensures Link() == old(Link())
    {
      manualConversations := manualConversations + {chat};
      manualTimestamps := manualTimestamps[chat := now];
    }

    method ExitManualMode(chat: string)
      requires Valid()
      modifies this
      ensures Valid()
      ensures Manual() == Exit(old(Manual()), chat)
      ensures Link() == old(Link())
    {
      manualConversations := manualConversations - {chat};
      if chat in manualTimestamps {
        manualTimestamps := manualTimestamps - {chat};
      }
    }

    method IsManualMode(chat: string, now: real) returns (active: bool)
      requires Valid()
      modifies this
      ensures Valid()
      ensures (active, Manual()) == IsManual(old(Manual()), chat, now, cfg.manualModeTimeout)
      ensures Link() == old(Link())
    {
      if chat !in manualConversations {
        return false;
      }
      if chat in manualTimestamps {
        if now - manualTimestamps[chat] > cfg.manualModeTimeout as real {
          ExitManualMode(chat);
          return false;
        }
      }
      return true;
    }

    method ToggleManualMode(chat: string, now: real) returns (mode: string)
      requires Valid()
      modifies this
      ensures Valid()
      ensures (mode, Manual()) == Toggle(old(Manual()), chat, now, cfg.manualModeTimeout)
      ensures Link() == old(Link())
    {
      var active := IsManualMode(chat, now);
      if active {
        ExitManualMode(chat);
        mode := "auto";
      } else {
        EnterManualMode(chat, now);
        mode := "manual";
      }
    }

    /** `refresh_token` with what the token request produced. */
    method RefreshToken(fetched: Option<string>, now: real) returns (token: Option<string>)
      modifies this
      ensures token == fetched
      ensures fetched.Some? ==> currentToken == fetched.value && lastTokenRefreshTime == now
      ensures fetched.None? ==> currentToken == old(currentToken) && lastTokenRefreshTime == old(lastTokenRefreshTime)
      ensures Manual() == old(Manual()) && connectionRestartFlag == old(connectionRestartFlag)
      ensures lastHeartbeatTime == old(lastHeartbeatTime) && lastHeartbeatResponse == old(lastHeartbeatResponse)
    {
      if fetched.Some? {
        currentToken := fetched.value;
        lastTokenRefreshTime := now;
      }
      token := fetched;
    }

    /** One pass of the token loop. */
    method TokenTick(now: real, fetched: Option<string>) returns (action: TokenAction)
      modifies this
      ensures action == TokenDecision(now, old(lastTokenRefreshTime), cfg, fetched)
      ensures connectionRestartFlag == (old(connectionRestartFlag) || action == Restart)
      ensures var due := now - old(lastTokenRefreshTime) >= cfg.tokenRefreshInterval as real;
              (due && fetched.Some? ==> currentToken == fetched.value && lastTokenRefreshTime == now) &&
              (!due || fetched.None? ==>
                 currentToken == old(currentToken) && lastTokenRefreshTime == old(lastTokenRefreshTime))
      ensures lastHeartbeatTime == old(lastHeartbeatTime) && lastHeartbeatResponse == old(lastHeartbeatResponse)
      ensures Manual() == old(Manual())
    {
      if now - lastTokenRefreshTime >= cfg.tokenRefreshInterval as real {
        var token := RefreshToken(fetched, now);
        if token.Some? && token.value != "" {
          connectionRestartFlag := true;
          return Restart;
        }
        return RetryAfter(cfg.tokenRetryInterval as real);
      }
      return CheckAfter(TokenCheckPeriod);
    }

    /** Connecting: the restart flag is cleared, a token is fetched when
        there is none or it is due, and without a token the connection
        fails; on success both heartbeat clocks start at `now`. */
    method Connect(now: real, fetched: Option<string>) returns (ok: bool)
      modifies this
      ensures !connectionRestartFlag
      ensures ok <==> currentToken != ""
      ensures ok ==> lastHeartbeatTime == now && lastHeartbeatResponse == now
      ensures !ok ==> lastHeartbeatTime == old(lastHeartbeatTime) && lastHeartbeatResponse == old(lastHeartbeatResponse)
      ensures var due := old(currentToken) == "" ||
                         now - old(lastTokenRefreshTime) >= cfg.tokenRefreshInterval as real;
              (due && fetched.Some? ==> currentToken == fetched.value && lastTokenRefreshTime == now) &&
              (!due || fetched.None? ==>
                 currentToken == old(currentToken) && lastTokenRefreshTime == old(lastTokenRefreshTime))
      ensures Manual() == old(Manual())
    {
      connectionRestartFlag := false;
      if currentToken == "" || now - lastTokenRefreshTime >= cfg.tokenRefreshInterval as real {
        var _ := RefreshToken(fetched, now);
      }
      if currentToken == "" {
        return false;
      }
      lastHeartbeatTime := now;
      lastHeartbeatResponse := now;
      return true;
    }

    /** `heartbeat_loop` over a run of events; it returns the probe times. */
    method HeartbeatLoop(events: seq<HeartbeatEvent>) returns (probes: seq<real>, timedOut: bool)
      modifies this
      ensures var run := Heartbeats(events, old(lastHeartbeatTime), old(lastHeartbeatResponse),
                                     cfg.heartbeatInterval, cfg.heartbeatTimeout);
              probes == run.probes && timedOut == run.timedOut &&
              lastHeartbeatTime == run.lastSent && lastHeartbeatResponse == run.lastResponse
      ensures Manual() == old(Manual())
    {
      var sentAt, heardAt;
      probes, sentAt, heardAt, timedOut :=
        RunHeartbeats(events, lastHeartbeatTime, lastHeartbeatResponse, cfg.heartbeatInterval, cfg.heartbeatTimeout);
      lastHeartbeatTime, lastHeartbeatResponse := sentAt, heardAt;
    }

    /** The effect of the customer branch, from the manual tables, chats,
        item cache and bargain counts before it: the buyer's message is
        recorded; a reply is sent exactly when the chat is not under manual
        override, the message is not a system message and the item can be
        described; the reply is the generator's answer to the history that
        now ends with the buyer's message, and it joins that history. */
    ghost predicate CustomerHandled(ev: Event, now: real, nowIso: string,
                                    itemApi: string -> Option<RawItem>,
                                    bot: (string, string, seq<Turn>, string) -> BotAnswer,
                                    manual0: ManualState, t0: Tables, sent: Option<Outgoing>)
      reads this, context
    {
      var chat := ev.chatId;
      var withUser := Recorded(t0.chats, chat, Message(ev.senderId, ev.itemId, "user", ev.content, nowIso),
                               context.maxHistory);
      var active := !IsManual(manual0, chat, now, cfg.manualModeTimeout).0 && !ev.system;
      var description := DescriptionOf(t0.itemCache, ev.itemId, itemApi);
      Manual() == IsManual(manual0, chat, now, cfg.manualModeTimeout).1 &&
      context.chatOrder == (if chat in t0.chats then t0.order else t0.order + [chat]) &&
      context.itemCache == (if active then CacheAfterDescribe(t0.itemCache, ev.itemId, itemApi, nowIso)
                            else t0.itemCache) &&
      (sent.Some? <==> active && description.Some?) &&
      (sent.None? ==> context.chats == withUser && context.bargains == t0.bargains) &&
      (sent.Some? ==>
         var answer := bot(ev.content, description.value,
                           ContextOf(withUser[chat], BargainOf(t0.bargains, chat)), ev.itemId);
         sent.value == SendMsg(chat, ev.senderId, myId, answer.text) &&
         context.chats == Recorded(withUser, chat, Message(myId, ev.itemId, "assistant", answer.text, nowIso),
                                   context.maxHistory) &&
         context.bargains == BargainsAfter(t0.bargains, chat, answer.intent))
    }

    /** The effect of `handle_message` for each route, from the state
        before it: a stop changes nothing, the operator's keyword toggles
        the override, another operator message is recorded as the
        assistant's, and a customer message is handled as above. */
    ghost predicate Routed(route: Route, now: real, nowIso: string,
                           itemApi: string -> Option<RawItem>,
                           bot: (string, string, seq<Turn>, string) -> BotAnswer,
                           manual0: ManualState, t0: Tables, sent: Option<Outgoing>)
      reads this, context
    {
      match route
      case Stop(_) => Manual() == manual0 && context.State() == t0 && sent.None?
      case OperatorToggle(ev) =>
        Manual() == Toggle(manual0, ev.chatId, now, cfg.manualModeTimeout).1 &&
        context.State() == t0 && sent.None?
      case OperatorNote(ev) =>
        Manual() == manual0 && sent.None? &&
        context.State() ==
          t0.(chats := Recorded(t0.chats, ev.chatId, Message(myId, ev.itemId, "assistant", ev.content, nowIso),
                                context.maxHistory),
              order := if ev.chatId in t0.chats then t0.order else t0.order + [ev.chatId])
      case Customer(ev) =>
        CustomerHandled(ev, now, nowIso, itemApi, bot, manual0, t0, sent)
    }

    /** The customer branch of `handle_message`: the message is recorded
        first; a reply is generated and sent only outside manual mode, for
        a non-system message whose item is known or can be fetched. */
    method HandleCustomer(ev: Event, now: real, nowIso: string,
                          itemApi: string -> Option<RawItem>,
                          bot: (string, string, seq<Turn>, string) -> BotAnswer)
      returns (sent: Option<Outgoing>)
      requires Valid()
      modifies this, context
      ensures Valid()
      ensures Manual() == IsManual(old(Manual()), ev.chatId, now, cfg.manualModeTimeout).1
      ensures var withUser := Recorded(old(context.chats), ev.chatId,
                                       Message(ev.senderId, ev.itemId, "user", ev.content, nowIso),
                                       context.maxHistory);
              (sent.None? ==> context.chats == withUser) &&
              (sent.Some? ==>
                 !IsManual(old(Manual()), ev.chatId, now, cfg.manualModeTimeout).0 && !ev.system &&
                 sent.value == SendMsg(ev.chatId, ev.senderId, myId, sent.value.text) &&
                 context.chats == Recorded(withUser, ev.chatId,
                                           Message(myId, ev.itemId, "assistant", sent.value.text, nowIso),
                                           context.maxHistory))
      ensures CustomerHandled(ev, now, nowIso, itemApi, bot, old(Manual()), old(context.State()), sent)
      ensures Link() == old(Link())
    {
      sent := None;
      context.AddMessage(ev.chatId, ev.senderId, ev.itemId, "user", ev.content, nowIso);
      var manual := IsManualMode(ev.chatId, now);
      if manual || ev.system {
        return;
      }
      var reply := Answer(ev, nowIso, itemApi, bot);
      if reply.None? {
        return;
      }
      var text := reply.value;
      sent := Some(SendMsg(ev.chatId, ev.senderId, myId, text));
    }

    /** The reply to a recorded customer message, when the item can be
        described; the reply then joins the chat's history. */
    method Answer(ev: Event, nowIso: string, itemApi: string -> Option<RawItem>,
                  bot: (string, string, seq<Turn>, string) -> BotAnswer)
      returns (text: Option<string>)
      requires context.Valid() && ev.chatId in context.chats
      modifies context
      ensures context.Valid()
      ensures text.None? ==> context.chats == old(context.chats) && context.bargains == old(context.bargains)
      ensures context.chatOrder == old(context.chatOrder)
      ensures context.itemCache == CacheAfterDescribe(old(context.itemCache), ev.itemId, itemApi, nowIso)
      ensures text.Some? ==>
                context.chats == Recorded(old(context.chats), ev.chatId,
                                          Message(myId, ev.itemId, "assistant", text.value, nowIso), context.maxHistory)
      ensures text.Some? <==> DescriptionOf(old(context.itemCache), ev.itemId, itemApi).Some?
      ensures text.Some? ==>
                text.value == bot(ev.content, DescriptionOf(old(context.itemCache), ev.itemId, itemApi).value,
                                  ContextOf(old(context.chats)[ev.chatId], BargainOf(old(context.bargains), ev.chatId)),
                                  ev.itemId).text
      ensures text.Some? ==>
                var answer := bot(ev.content, DescriptionOf(old(context.itemCache), ev.itemId, itemApi).value,
                                  ContextOf(old(context.chats)[ev.chatId], BargainOf(old(context.bargains), ev.chatId)),
                                  ev.itemId);
                context.bargains == BargainsAfter(old(context.bargains), ev.chatId, answer.intent)
    {
      var description := DescribeItem(ev.itemId, nowIso, itemApi);
      if description.None? {
        return None;
      }
      var t := Reply(ev, description.value, nowIso, bot);
      return Some(t);
    }

    /** The item text for the reply generator: from the cache, or fetched
        and cached; None when the fetch fails or lacks a field the text
        needs. The chat histories are not touched. */
    method DescribeItem(itemId: string, nowIso: string, itemApi: string -> Option<RawItem>)
      returns (description: Option<string>)
      requires context.Valid()
      modifies context
      ensures context.Valid()
      ensures context.chats == old(context.chats) && context.chatOrder == old(context.chatOrder)
      ensures context.bargains == old(context.bargains)
      ensures itemId in old(context.itemCache) ==>
                description == Some(ItemDescription(old(context.itemCache)[itemId].desc,
                                                    old(context.itemCache)[itemId].soldPrice))
      ensures itemId in old(context.itemCache) || itemApi(itemId).None? ==>
                context.itemCache == old(context.itemCache)
      ensures itemId !in old(context.itemCache) && itemApi(itemId).None? ==> description.None?
      ensures itemId !in old(context.itemCache) && itemApi(itemId).Some? ==>
                var raw := itemApi(itemId).value;
                context.itemCache == old(context.itemCache)[itemId := Simplify(raw, nowIso)] &&
                (description.Some? <==> raw.desc.Some? && raw.soldPrice.Some?) &&
                (description.Some? ==> description.value == ItemDescription(raw.desc.value, raw.soldPrice.value))
      ensures description == DescriptionOf(old(context.itemCache), itemId, itemApi)
      ensures context.itemCache == CacheAfterDescribe(old(context.itemCache), itemId, itemApi, nowIso)
    {
      var cached := context.GetItemInfo(itemId);
      if cached.Some? {
        return Some(ItemDescription(cached.value.desc, cached.value.soldPrice));
      }
      var fetched := itemApi(itemId);
      if fetched.None? {
        return None;
      }
      context.SaveItemInfo(itemId, fetched.value, nowIso);
      if fetched.value.desc.None? || fetched.value.soldPrice.None? {
        // reading a missing field of the raw item raises; the frame is dropped
        return None;
      }
      return Some(ItemDescription(fetched.value.desc.value, fetched.value.soldPrice.value));
    }

    /** Generating the reply for a recorded customer message: the context
        goes to the generator, a price intent counts one more bargain, and
        the reply joins the history. */
    method Reply(ev: Event, description: string, nowIso: string,
                 bot: (string, string, seq<Turn>, string) -> BotAnswer)
      returns (text: string)
      requires context.Valid() && ev.chatId in context.chats
      modifies context
      ensures context.Valid()
      ensures var answer := bot(ev.content, description,
                                ContextOf(old(context.chats)[ev.chatId], BargainOf(old(context.bargains), ev.chatId)),
                                ev.itemId);
              text == answer.text &&
              context.bargains == BargainsAfter(old(context.bargains), ev.chatId, answer.intent)
      ensures context.chats == Recorded(old(context.chats), ev.chatId,
                                        Message(myId, ev.itemId, "assistant", text, nowIso), context.maxHistory)
      ensures context.chatOrder == old(context.chatOrder) && context.itemCache == old(context.itemCache)
    {
      var turns := context.GetContext(ev.chatId);
      assert context.chats == old(context.chats) && context.chatOrder == old(context.chatOrder);
      var answer := bot(ev.content, description, turns, ev.itemId);
      if answer.intent == "price" {
        context.IncrementBargain(ev.chatId);
      }
      assert context.chats == old(context.chats);
      context.AddMessage(ev.chatId, myId, ev.itemId, "assistant", answer.text, nowIso);
      text := answer.text;
    }

    /** `handle_message`: its own ack, then the routing, with the state
        changes each route makes. */
    method HandleMessage(f: Frame, now: real, nowIso: string, freshMid: string,
                         itemApi: string -> Option<RawItem>,
                         bot: (string, string, seq<Turn>, string) -> BotAnswer)
      returns (ack: Option<map<string, string>>, route: Route, sent: Option<Outgoing>)
      requires Valid()
      modifies this, context
      ensures Valid()
      ensures ack == HandlerAck(f.headers, freshMid)
      ensures route == Classify(f, now, myId, cfg)
      ensures route.Stop? ==>
                Manual() == old(Manual()) && context.chats == old(context.chats) && sent.None?
      ensures route.OperatorToggle? ==>
                Manual() == Toggle(old(Manual()), route.ev.chatId, now, cfg.manualModeTimeout).1 &&
                context.chats == old(context.chats) && sent.None?
      ensures route.OperatorNote? ==>
                Manual() == old(Manual()) && sent.None? &&
                context.chats == Recorded(old(context.chats), route.ev.chatId,
                                          Message(myId, route.ev.itemId, "assistant", route.ev.content, nowIso),
                                          context.maxHistory)
      ensures route.Customer? && sent.Some? ==>
                !IsManual(old(Manual()), route.ev.chatId, now, cfg.manualModeTimeout).0 &&
                !route.ev.system && sent.value == SendMsg(route.ev.chatId, route.ev.senderId, myId, sent.value.text)
      ensures Routed(route, now, nowIso, itemApi, bot, old(Manual()), old(context.State()), sent)
      ensures Link() == old(Link())
    {
      ack := HandlerAck(f.headers, freshMid);
      route := Classify(f, now, myId, cfg);
      sent := None;
      match route
      case Stop(_) =>
      case OperatorToggle(ev) =>
        var _ := ToggleManualMode(ev.chatId, now);
      case OperatorNote(ev) =>
        context.AddMessage(ev.chatId, myId, ev.itemId, "assistant", ev.content, nowIso);
      case Customer(ev) =>
        sent := HandleCustomer(ev, now, nowIso, itemApi, bot);
    }

    /** One frame of the receive loop: a set restart flag ends the loop, a
        heartbeat response only moves the response clock, and every other
        frame is acknowledged (when it has a mid) and handed on. */
    method OnFrame(f: Frame, now: real, nowIso: string, freshMid: string,
                   itemApi: string -> Option<RawItem>,
                   bot: (string, string, seq<Turn>, string) -> BotAnswer)
      returns (acks: seq<map<string, string>>, sent: Option<Outgoing>, stop: bool)
      requires Valid()
      modifies this, context
      ensures Valid()
      ensures stop <==> old(connectionRestartFlag)
      ensures stop || IsHeartbeatResponse(f) ==> acks == [] && sent.None? && Manual() == old(Manual())
      ensures stop ==> Link() == old(Link()) && context.State() == old(context.State())
      ensures !stop && IsHeartbeatResponse(f) ==>
                Link() == old(Link()).(heartbeatHeard := now) && context.State() == old(context.State())
      ensures !stop && !IsHeartbeatResponse(f) ==> Link() == old(Link())
      ensures !stop && !IsHeartbeatResponse(f) && f.headers.Some? && "mid" in f.headers.value ==>
                acks == [LoopAck(f.headers.value), LoopAck(f.headers.value)]
      ensures !stop && !IsHeartbeatResponse(f) && f.headers.Some? && "mid" !in f.headers.value ==>
                acks == [HandlerAck(f.headers, freshMid).value]
      ensures f.headers.None? ==> acks == []
      ensures !stop && !IsHeartbeatResponse(f) ==>
                Routed(Classify(f, now, myId, cfg), now, nowIso, itemApi, bot, old(Manual()), old(context.State()),
                       sent)
    {
      acks := [];
      sent := None;
      if connectionRestartFlag {
        return [], None, true;
      }
      stop := false;
      if IsHeartbeatResponse(f) {
        lastHeartbeatResponse := now;
        return;
      }
      if f.headers.Some? && "mid" in f.headers.value {
        acks := [LoopAck(f.headers.value)];
      }
      var ack, _, out := HandleMessage(f, now, nowIso, freshMid, itemApi, bot);
      if ack.Some? {
        acks := acks + [ack.value];
      }
      sent := out;
    }
  }
}
