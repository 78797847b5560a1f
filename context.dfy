/** The chat context store of the bot in its file-backed mode
    (`ChatContextManager`): a bounded history per conversation, bargaining
    counters per conversation and a cache of simplified item records.
    Persistence to JSON files is not modelled; the in-memory tables are. */
module Context {
  import opened Common

  /** `max_history` when none is given. */
  const DefaultMaxHistory: nat := 100

  /** One stored chat message. */
  datatype Message = Message(userId: string, itemId: string, role: string,
                             content: string, timestamp: string)

  /** One entry of the context handed to the reply generator. */
  datatype Turn = Turn(role: string, content: string)

  /** The item fields the cache keeps, as they arrive from the item API. */
  datatype RawItem = RawItem(desc: Option<string>, soldPrice: Option<Scalar>, title: Option<string>)

  datatype CachedItem = CachedItem(desc: string, soldPrice: Scalar, title: string, cachedTime: string)

  /** One row of the conversation list. */
  datatype Summary = Summary(chatId: string, userId: string, itemId: string,
                             lastMessageTime: string, messageCount: nat)

  datatype Detail = Detail(chatId: string, userId: string, itemId: string,
                           firstMessageTime: string, lastMessageTime: string,
                           totalMessages: nat, bargainCount: nat, itemInfo: Option<CachedItem>)

  datatype Stats = Stats(totalConversations: nat, totalMessages: nat,
                         cachedItems: nat, activeBargains: nat)

  // ---------------------------------------------------------------------
  // deque(maxlen)

  /** `d.append(x)` on a `deque` bounded by `maxlen`: the oldest element
      falls out once the deque is full. */
  function BoundedAppend<T>(h: seq<T>, x: T, maxlen: nat): (r: seq<T>)
    ensures |h| < maxlen ==> r == h + [x]
    ensures 0 < maxlen <= |h| + 1 ==> |r| == maxlen && r[maxlen - 1] == x
    ensures 0 < maxlen == |h| ==> r == h[1..] + [x]
    ensures maxlen == 0 ==> r == []
    ensures |r| <= maxlen
  {
    var t := h + [x];
    if |t| <= maxlen then t else t[|t| - maxlen..]
  }

  /** The in-place form of a bounded deque: a ring over a fixed array whose
      length is the bound. */
  class BoundedDeque<T> {
    var buf: array<T>
    var start: nat
    var count: nat
    ghost var Contents: seq<T>

    /** Where the i-th element (0 is the oldest) lives in `buf`. */
    function Slot(i: nat): nat
      reads this
    {
      if start + i < buf.Length then start + i else start + i - buf.Length
    }

    ghost predicate Valid()
      reads this, buf
    {
      count <= buf.Length &&
      (buf.Length == 0 ==> start == 0) &&
      (buf.Length > 0 ==> start < buf.Length) &&
      |Contents| == count &&
      forall i :: 0 <= i < count ==> Slot(i) < buf.Length && Contents[i] == buf[Slot(i)]
    }

    function MaxLen(): nat
      reads this
    {
      buf.Length
    }

    constructor (maxlen: nat, filler: T)
      ensures Valid() && fresh(buf)
      ensures Contents == [] && MaxLen() == maxlen
    {
      buf := new T[maxlen](_ => filler);
      start, count := 0, 0;
      Contents := [];
    }

    method Append(x: T)
      requires Valid()
      modifies this, buf
      ensures Valid() && buf == old(buf)
      ensures Contents == BoundedAppend(old(Contents), x, buf.Length)
    {
      if buf.Length == 0 {
        Contents := [];
      } else if count < buf.Length {
        var k := Slot(count);
        buf[k] := x;
        count := count + 1;
        Contents := Contents + [x];
      } else {
        buf[start] := x;
        start := if start + 1 == buf.Length then 0 else start + 1;
        Contents := Contents[1..] + [x];
      }
    }

    /** Iterating the deque from the oldest element. */
    method Items() returns (r: seq<T>)
      requires Valid()
      ensures r == Contents
    {
      r := [];
      var i := 0;
      while i < count
        invariant 0 <= i <= count
        invariant r == Contents[..i]
      {
        r := r + [buf[Slot(i)]];
        i := i + 1;
      }
    }
  }

  // ---------------------------------------------------------------------
  // The manager's tables as values

  /** What `chat_messages.get(chat, [])` yields. */
  function History(chats: map<string, seq<Message>>, chat: string): seq<Message> {
    if chat in chats then chats[chat] else []
  }

  /** The chat table after `msg` joins the bounded history of `chat`. */
  function Recorded(chats: map<string, seq<Message>>, chat: string, msg: Message, maxHistory: nat): (r: map<string, seq<Message>>)
    ensures r.Keys == chats.Keys + {chat}
    ensures r[chat] == BoundedAppend(History(chats, chat), msg, maxHistory)
    ensures forall c :: c in chats && c != chat ==> r[c] == chats[c]
  {
    chats[chat := BoundedAppend(History(chats, chat), msg, maxHistory)]
  }

  /** `bargain_counts.get(chat, 0)` */
  function BargainOf(bargains: map<string, nat>, chat: string): nat {
    if chat in bargains then bargains[chat] else 0
  }

  /** The system line that tells the reply generator how often the
      customer has bargained. */
  function BargainNote(n: nat): string {
    "议价次数: " + NatToString(n)
  }

  /** The note of one count is never the note of another. */
  lemma BargainNoteInjective(m: nat, n: nat)
    requires BargainNote(m) == BargainNote(n)
    ensures m == n
  {
    var p := "议价次数: ";
    assert BargainNote(m)[|p|..] == NatToString(m);
    assert BargainNote(n)[|p|..] == NatToString(n);
    NatToStringInjective(m, n);
  }

  /** The context for a history with `n` bargains recorded: one turn per
      message, in order, then the bargaining note exactly when n > 0. */
  function ContextOf(h: seq<Message>, n: nat): (r: seq<Turn>)
    ensures |r| == |h| + (if n > 0 then 1 else 0)
    ensures forall i :: 0 <= i < |h| ==> r[i] == Turn(h[i].role, h[i].content)
    ensures n > 0 ==> r[|h|] == Turn("system", BargainNote(n))
  {
    seq(|h|, i requires 0 <= i < |h| => Turn(h[i].role, h[i].content))
      + (if n > 0 then [Turn("system", BargainNote(n))] else [])
  }

  function SummaryOf(chat: string, h: seq<Message>): (r: Summary)
    requires h != []
  {
    Summary(chat, h[0].userId, h[0].itemId, h[|h| - 1].timestamp, |h|)
  }

  /** One summary per non-empty history, in table order. */
  function Summaries(order: seq<string>, chats: map<string, seq<Message>>): (r: seq<Summary>)
    decreases |order|
    ensures |r| <= |order|
    ensures forall k :: 0 <= k < |r| ==>
              r[k].chatId in order && History(chats, r[k].chatId) != [] &&
              r[k] == SummaryOf(r[k].chatId, History(chats, r[k].chatId))
  {
    if order == [] then []
    else
      var c := order[|order| - 1];
      var front := Summaries(order[..|order| - 1], chats);
      if History(chats, c) == [] then front else front + [SummaryOf(c, History(chats, c))]
  }

  /** Every non-empty history in the table has a summary. */
  lemma {:induction false} SummariesComplete(order: seq<string>, chats: map<string, seq<Message>>, k: nat)
    requires k < |order| && History(chats, order[k]) != []
    ensures SummaryOf(order[k], History(chats, order[k])) in Summaries(order, chats)
    decreases |order|
  {
    if k < |order| - 1 {
      SummariesComplete(order[..|order| - 1], chats, k);
    }
  }

  /** Histories of chats outside `order`, empty or not, do not matter. */
  lemma {:induction false} SummariesIgnoreOthers(order: seq<string>, chats: map<string, seq<Message>>,
                                                 c: string, h: seq<Message>)
    requires c !in order
    ensures Summaries(order, chats[c := h]) == Summaries(order, chats)
    decreases |order|
  {
    if order != [] {
      SummariesIgnoreOthers(order[..|order| - 1], chats, c, h);
      assert History(chats[c := h], order[|order| - 1]) == History(chats, order[|order| - 1]);
    }
  }

  function LastTime(s: Summary): string {
    s.lastMessageTime
  }

  /** `get_all_conversations(limit)`: the summaries, newest last message
      first, cut to `limit`. */
  function ConversationsOf(order: seq<string>, chats: map<string, seq<Message>>, limit: int): seq<Summary> {
    PySlice(SortDesc(Summaries(order, chats), LastTime), 0, limit)
  }

  /** The listing is ordered by last message time, newest first; for a
      non-negative limit it holds `min(limit, n)` of the `n` non-empty
      chats, and they are the most recent ones; each row describes a
      non-empty history. */
  lemma ConversationsOrdered(order: seq<string>, chats: map<string, seq<Message>>, limit: int)
    ensures SortedDesc(ConversationsOf(order, chats, limit), LastTime)
    ensures var n := |Summaries(order, chats)|;
            limit >= 0 ==> |ConversationsOf(order, chats, limit)| == if limit < n then limit else n
    ensures TopOf(ConversationsOf(order, chats, limit), Summaries(order, chats), LastTime)
    ensures forall s :: s in ConversationsOf(order, chats, limit) ==>
              History(chats, s.chatId) != [] &&
              s.messageCount == |History(chats, s.chatId)| &&
              s.userId == History(chats, s.chatId)[0].userId
  {
    var all := Summaries(order, chats);
    var r := ConversationsOf(order, chats, limit);
    SortedTop(all, LastTime, limit);
    assert multiset(r) <= multiset(all);
    forall s | s in r
      ensures History(chats, s.chatId) != [] && s.messageCount == |History(chats, s.chatId)|
      ensures s.userId == History(chats, s.chatId)[0].userId
    {
      assert s in multiset(r);
      var k :| 0 <= k < |all| && all[k] == s;
    }
  }

  /** With a limit at least the number of non-empty chats, every one of
      them is listed. */
  lemma ConversationsListAll(order: seq<string>, chats: map<string, seq<Message>>, limit: int, k: nat)
    requires k < |order| && History(chats, order[k]) != [] && limit >= |order|
    ensures SummaryOf(order[k], History(chats, order[k])) in ConversationsOf(order, chats, limit)
  {
    var all := Summaries(order, chats);
    SummariesComplete(order, chats, k);
    var sorted := SortDesc(all, LastTime);
    assert SummaryOf(order[k], History(chats, order[k])) in multiset(sorted);
    assert ConversationsOf(order, chats, limit) == sorted;
  }

  function TotalMessages(order: seq<string>, chats: map<string, seq<Message>>): nat
    decreases |order|
  {
    if order == [] then 0
    else TotalMessages(order[..|order| - 1], chats) + |History(chats, order[|order| - 1])|
  }

  lemma {:induction false} TotalMessagesIgnoreOthers(order: seq<string>, chats: map<string, seq<Message>>,
                                                     c: string, h: seq<Message>)
    requires c !in order
    ensures TotalMessages(order, chats[c := h]) == TotalMessages(order, chats)
    decreases |order|
  {
    if order != [] {
      TotalMessagesIgnoreOthers(order[..|order| - 1], chats, c, h);
    }
  }

  /** The chats with a positive bargain count. */
  function Bargaining(bargains: map<string, nat>): set<string> {
    set c | c in bargains && bargains[c] > 0
  }

  /** `get_stats()`: `total_conversations` counts every chat in the table,
      empty ones included, `total_messages` sums their history lengths and
      `active_bargains` counts the chats with a positive count. */
  function StatsOf(order: seq<string>, chats: map<string, seq<Message>>,
                   cache: map<string, CachedItem>, bargains: map<string, nat>): (r: Stats)
    ensures r.totalConversations == |order| && r.totalMessages == TotalMessages(order, chats)
    ensures r.activeBargains == |Bargaining(bargains)| <= |bargains|
    ensures r.cachedItems == |cache|
  {
    assert Bargaining(bargains) <= bargains.Keys;
    SubsetCard(Bargaining(bargains), bargains.Keys);
    Stats(|order|, TotalMessages(order, chats), |cache|, |Bargaining(bargains)|)
  }

  /** Replacing one listed chat's history changes the total by the
      difference of the two lengths. */
  lemma {:induction false} TotalMessagesUpdate(order: seq<string>, chats: map<string, seq<Message>>,
                                               c: string, h: seq<Message>)
    requires Distinct(order) && c in order
    ensures TotalMessages(order, chats[c := h]) + |History(chats, c)| == TotalMessages(order, chats) + |h|
    decreases |order|
  {
    var front := order[..|order| - 1];
    assert order == front + [order[|order| - 1]];
    assert Distinct(front) by {
      forall i, j | 0 <= i < j < |front| ensures front[i] != front[j] {
        assert front[i] == order[i] && front[j] == order[j];
      }
    }
    if order[|order| - 1] == c {
      assert c !in front by {
        forall i | 0 <= i < |front| ensures front[i] != c {
          assert front[i] == order[i];
        }
      }
      TotalMessagesIgnoreOthers(front, chats, c, h);
    } else {
      TotalMessagesUpdate(front, chats, c, h);
    }
  }

  /** Recording a message: a new chat adds a conversation; the message
      total grows by one unless the history was already full. */
  lemma StatsAfterRecord(order: seq<string>, chats: map<string, seq<Message>>,
                         cache: map<string, CachedItem>, bargains: map<string, nat>,
                         chat: string, msg: Message, maxHistory: nat)
    requires Distinct(order) && (forall c :: c in chats <==> c in order)
    requires forall c :: c in chats ==> |chats[c]| <= maxHistory
    ensures var order' := if chat in chats then order else order + [chat];
            var before := StatsOf(order, chats, cache, bargains);
            var after := StatsOf(order', Recorded(chats, chat, msg, maxHistory), cache, bargains);
            after.totalConversations == before.totalConversations + (if chat in chats then 0 else 1) &&
            after.totalMessages ==
              before.totalMessages + (if |History(chats, chat)| < maxHistory then 1 else 0) &&
            after.activeBargains == before.activeBargains && after.cachedItems == before.cachedItems
  {
    TotalAfterRecord(order, chats, chat, msg, maxHistory);
  }

  lemma TotalAfterRecord(order: seq<string>, chats: map<string, seq<Message>>,
                         chat: string, msg: Message, maxHistory: nat)
    requires Distinct(order) && (forall c :: c in chats <==> c in order)
    requires forall c :: c in chats ==> |chats[c]| <= maxHistory
    ensures var order' := if chat in chats then order else order + [chat];
            TotalMessages(order', Recorded(chats, chat, msg, maxHistory)) ==
              TotalMessages(order, chats) + (if |History(chats, chat)| < maxHistory then 1 else 0)
  {
    var h := BoundedAppend(History(chats, chat), msg, maxHistory);
    assert |h| == |History(chats, chat)| + (if |History(chats, chat)| < maxHistory then 1 else 0);
    assert Recorded(chats, chat, msg, maxHistory) == chats[chat := h];
    if chat in chats {
      TotalMessagesUpdate(order, chats, chat, h);
    } else {
      assert History(chats, chat) == [];
      TotalNewChat(order, chats, chat, h);
    }
  }

  /** A chat joining the end of the order adds its history's length. */
  lemma TotalNewChat(order: seq<string>, chats: map<string, seq<Message>>, chat: string, h: seq<Message>)
    requires chat !in order
    ensures TotalMessages(order + [chat], chats[chat := h]) == TotalMessages(order, chats) + |h|
  {
    var order' := order + [chat];
    assert order'[..|order'| - 1] == order;
    TotalMessagesIgnoreOthers(order, chats, chat, h);
  }

  /** One more bargain makes the chat active, counting it once. */
  lemma StatsAfterBargain(order: seq<string>, chats: map<string, seq<Message>>,
                          cache: map<string, CachedItem>, bargains: map<string, nat>, chat: string)
    ensures var before := StatsOf(order, chats, cache, bargains);
            var after := StatsOf(order, chats, cache, bargains[chat := BargainOf(bargains, chat) + 1]);
            after.activeBargains == before.activeBargains + (if BargainOf(bargains, chat) == 0 then 1 else 0) &&
            after.totalMessages == before.totalMessages && after.totalConversations == before.totalConversations
  {
    var b' := bargains[chat := BargainOf(bargains, chat) + 1];
    if BargainOf(bargains, chat) == 0 {
      assert Bargaining(b') == Bargaining(bargains) + {chat};
    } else {
      assert Bargaining(b') == Bargaining(bargains);
    }
  }

  lemma SubsetCard<T>(a: set<T>, b: set<T>)
    requires a <= b
    ensures |a| <= |b|
  {
    if a != {} {
      var x :| x in a;
      SubsetCard(a - {x}, b - {x});
    }
  }

  /** Reading the context of an unknown chat leaves an empty history in the
      table: the statistics count one more conversation and no more
      messages, yet the listing is the same as before. */
  lemma UnknownChatCountedNotListed(order: seq<string>, chats: map<string, seq<Message>>,
                                     cache: map<string, CachedItem>, bargains: map<string, nat>,
                                     c: string, limit: int)
    requires forall x :: x in chats <==> x in order
    requires c !in chats
    ensures StatsOf(order + [c], chats[c := []], cache, bargains).totalConversations
            == StatsOf(order, chats, cache, bargains).totalConversations + 1
    ensures StatsOf(order + [c], chats[c := []], cache, bargains).totalMessages
            == StatsOf(order, chats, cache, bargains).totalMessages
    ensures ConversationsOf(order + [c], chats[c := []], limit) == ConversationsOf(order, chats, limit)
  {
    var chats' := chats[c := []];
    var order' := order + [c];
    assert order'[..|order'| - 1] == order;
    SummariesIgnoreOthers(order, chats, c, []);
    TotalMessagesIgnoreOthers(order, chats, c, []);
    assert Summaries(order', chats') == Summaries(order, chats');
  }

  /** `get_conversation_detail(chat)` */
  function DetailOf(chats: map<string, seq<Message>>, bargains: map<string, nat>,
                    cache: map<string, CachedItem>, chat: string): (r: Option<Detail>)
    ensures r.None? <==> History(chats, chat) == []
    ensures r.Some? ==>
              var h := History(chats, chat);
              r.value.totalMessages == |h| && r.value.userId == h[0].userId &&
              r.value.itemId == h[0].itemId && r.value.bargainCount == BargainOf(bargains, chat) &&
              (r.value.itemInfo.Some? <==> h[0].itemId != "" && h[0].itemId in cache)
  {
    var h := History(chats, chat);
    if h == [] then None
    else
      var first := h[0];
      var info := if first.itemId != "" && first.itemId in cache then Some(cache[first.itemId]) else None;
      Some(Detail(chat, first.userId, first.itemId, first.timestamp, h[|h| - 1].timestamp,
                  |h|, BargainOf(bargains, chat), info))
  }

  /** What `save_item_info` keeps of an item in file mode. */
  function Simplify(raw: RawItem, now: string): (r: CachedItem)
    ensures r.desc == (if raw.desc.Some? then raw.desc.value else "")
    ensures r.soldPrice == (if raw.soldPrice.Some? then raw.soldPrice.value else SInt(0))
    ensures r.title == (if raw.title.Some? then raw.title.value else "")
    ensures r.cachedTime == now
  {
    CachedItem(if raw.desc.Some? then raw.desc.value else "",
               if raw.soldPrice.Some? then raw.soldPrice.value else SInt(0),
               if raw.title.Some? then raw.title.value else "",
               now)
  }

  // ---------------------------------------------------------------------
  // The manager

  /** The manager's four tables at one moment. */
  datatype Tables = Tables(chats: map<string, seq<Message>>, order: seq<string>,
                           bargains: map<string, nat>, itemCache: map<string, CachedItem>)

  class ChatContextManager {
    const maxHistory: nat
    var chats: map<string, seq<Message>>
    /** The table's keys in insertion order, as a Python dict iterates them. */
    var chatOrder: seq<string>
    var bargains: map<string, nat>
    var itemCache: map<string, CachedItem>

    function State(): Tables
      reads this
    {
      Tables(chats, chatOrder, bargains, itemCache)
    }

    ghost predicate Valid()
      reads this
    {
      Distinct(chatOrder) &&
      (forall c :: c in chats <==> c in chatOrder) &&
      (forall c :: c in chats ==> |chats[c]| <= maxHistory)
    }

    constructor (maxHistory: nat)
      ensures Valid() && this.maxHistory == maxHistory
      ensures chats == map[] && chatOrder == [] && bargains == map[] && itemCache == map[]
    {
      this.maxHistory := maxHistory;
      chats, chatOrder, bargains, itemCache := map[], [], map[], map[];
    }

    /** `chat_messages[chat]` on the default dict: an unknown chat gets an
        empty history, added last. */
    method Touch(chat: string)
      requires Valid()
      modifies this
      ensures Valid()
      ensures chats == old(chats)[chat := History(old(chats), chat)]
      ensures chatOrder == if chat in old(chats) then old(chatOrder) else old(chatOrder) + [chat]
      ensures bargains == old(bargains) && itemCache == old(itemCache)
    {
      if chat !in chats {
        chats := chats[chat := []];
        chatOrder := chatOrder + [chat];
      }
    }

    /** `add_message_by_chat`: the message joins the chat's bounded history. */
    method AddMessage(chat: string, userId: string, itemId: string, role: string,
                      content: string, now: string)
      requires Valid()
      modifies this
      ensures Valid()
      ensures chats == Recorded(old(chats), chat, Message(userId, itemId, role, content, now), maxHistory)
      ensures chatOrder == if chat in old(chats) then old(chatOrder) else old(chatOrder) + [chat]
      ensures bargains == old(bargains) && itemCache == old(itemCache)
    {
      ghost var before := chats;
      Touch(chat);
      var msg := Message(userId, itemId, role, content, now);
      var h := chats[chat];
      assert h == History(before, chat);
      var touched := chats;
      chats := touched[chat := BoundedAppend(h, msg, maxHistory)];
      assert chats.Keys == touched.Keys;
      assert chats == Recorded(before, chat, msg, maxHistory);
    }

    /** `get_context_by_chat` */
    method GetContext(chat: string) returns (r: seq<Turn>)
      requires Valid()
      modifies this
      ensures Valid()
      ensures r == ContextOf(History(old(chats), chat), BargainOf(bargains, chat))
      ensures chats == old(chats)[chat := History(old(chats), chat)]
      ensures chatOrder == if chat in old(chats) then old(chatOrder) else old(chatOrder) + [chat]
      ensures bargains == old(bargains) && itemCache == old(itemCache)
    {
      Touch(chat);
      var h := chats[chat];
      r := [];
      var i := 0;
      while i < |h|
        invariant 0 <= i <= |h|
        invariant |r| == i
        invariant forall k :: 0 <= k < i ==> r[k] == Turn(h[k].role, h[k].content)
      {
        r := r + [Turn(h[i].role, h[i].content)];
        i := i + 1;
      }
      var n := if chat in bargains then bargains[chat] else 0;
      if n > 0 {
        r := r + [Turn("system", BargainNote(n))];
      }
    }

    /** `increment_bargain_count_by_chat` */
    method IncrementBargain(chat: string)
      requires Valid()
      modifies this
      ensures Valid()
      ensures bargains == old(bargains)[chat := BargainOf(old(bargains), chat) + 1]
      ensures chats == old(chats) && chatOrder == old(chatOrder) && itemCache == old(itemCache)
    {
      var n := if chat in bargains then bargains[chat] else 0;
      bargains := bargains[chat := n + 1];
    }

    /** `get_bargain_count_by_chat` */
    function GetBargain(chat: string): (n: nat)
      reads this
      ensures chat in bargains ==> n == bargains[chat]
      ensures chat !in bargains ==> n == 0
    {
      BargainOf(bargains, chat)
    }

    /** `save_item_info` */
    method SaveItemInfo(itemId: string, raw: RawItem, now: string)
      modifies this
      ensures itemCache == old(itemCache)[itemId := Simplify(raw, now)]
      ensures chats == old(chats) && chatOrder == old(chatOrder) && bargains == old(bargains)
    {
      itemCache := itemCache[itemId := Simplify(raw, now)];
    }

    /** `get_item_info` */
    function GetItemInfo(itemId: string): (r: Option<CachedItem>)
      reads this
      ensures r.Some? <==> itemId in itemCache
      ensures r.Some? ==> r.value == itemCache[itemId]
    {
      if itemId in itemCache then Some(itemCache[itemId]) else None
    }

    /** `get_all_conversations(limit)` */
    method GetAllConversations(limit: int) returns (r: seq<Summary>)
      ensures r == ConversationsOf(chatOrder, chats, limit)
    {
      var conv := [];
      var i := 0;
      while i < |chatOrder|
        invariant 0 <= i <= |chatOrder|
        invariant conv == Summaries(chatOrder[..i], chats)
      {
        assert chatOrder[..i + 1][..i] == chatOrder[..i];
        var c := chatOrder[i];
        if c in chats && chats[c] != [] {
          conv := conv + [SummaryOf(c, chats[c])];
        }
        i := i + 1;
      }
      assert chatOrder[..i] == chatOrder;
      r := PySlice(SortDesc(conv, LastTime), 0, limit);
    }

    /** `get_conversation_detail(chat)` */
    function GetDetail(chat: string): Option<Detail>
      reads this
    {
      DetailOf(chats, bargains, itemCache, chat)
    }

    /** `get_stats()` */
    function GetStats(): Stats
      reads this
    {
      StatsOf(chatOrder, chats, itemCache, bargains)
    }
  }
}
