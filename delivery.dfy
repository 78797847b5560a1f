/** The automatic delivery manager in its file-backed mode
    (`DeliveryManager`): a table of delivery configurations keyed by item
    id, an append-only list of delivery records, stock accounting where
    -1 means unlimited, record queries and the delivery message builder.
    Writing the tables to JSON files is not modelled. */
module Delivery {
  import opened Common

  /** The stock value that means "unlimited". */
  const Unlimited: int := -1

  /** A configuration as a caller passes it: every field may be missing. */
  datatype ConfigInput = ConfigInput(deliveryType: Option<string>, content: Option<string>,
                                     code: Option<string>, customMessage: Option<string>,
                                     isEnabled: Option<bool>, stockCount: Option<int>)

  /** A stored configuration. */
  datatype DeliveryConfig = DeliveryConfig(itemId: string, deliveryType: string, content: string,
                                           code: string, customMessage: string, isEnabled: bool,
                                           stockCount: int, updatedAt: string, createdAt: string)

  /** A delivery as a caller reports it. */
  datatype RecordInput = RecordInput(orderId: Option<string>, itemId: Option<string>, buyerId: Option<string>,
                                     chatId: Option<string>, deliveryType: Option<string>,
                                     content: Option<string>, status: Option<string>,
                                     errorMessage: Option<string>)

  datatype DeliveryRecord = DeliveryRecord(id: nat, orderId: string, itemId: string, buyerId: string,
                                           chatId: string, deliveryType: string, content: string,
                                           deliveryTime: string, status: string, errorMessage: string)

  datatype DeliveryStats = DeliveryStats(totalConfigs: nat, enabledConfigs: nat,
                                         totalDeliveries: nat, successDeliveries: nat)

  function OrElse<T>(o: Option<T>, d: T): (r: T)
    ensures o.Some? ==> r == o.value
    ensures o.None? ==> r == d
  {
    if o.Some? then o.value else d
  }

  // ---------------------------------------------------------------------
  // Saving a configuration

  /** The entry `save_delivery_config` writes as the code stands: the entry
      is rebuilt from scratch, so the "created only once" stamp is written
      again on every save. */
  function SaveEntryAsWritten(itemId: string, c: ConfigInput, now: string): (r: DeliveryConfig)
    ensures r.createdAt == now
  {
    DeliveryConfig(itemId, OrElse(c.deliveryType, "netdisk"), OrElse(c.content, ""), OrElse(c.code, ""),
                   OrElse(c.customMessage, ""), OrElse(c.isEnabled, true), OrElse(c.stockCount, Unlimited),
                   now, now)
  }

  /** Saving a stored entry again, as the code stands, moves its creation
      time to the time of the new save: the re-saved entry differs from the
      stored one in both stamps. */
  lemma CreatedAtRestamped(e: DeliveryConfig, now: string)
    requires e.createdAt != now
    ensures SaveEntryAsWritten(e.itemId, AsInput(e), now) == e.(updatedAt := now, createdAt := now)
    ensures SaveEntryAsWritten(e.itemId, AsInput(e), now) != e.(updatedAt := now)
  {
  }

  /** The entry `save_delivery_config` writes: the given fields with their
      defaults (type "netdisk", texts "", enabled, unlimited stock), the
      update time, and the creation time of an earlier entry when there is
      one. */
  function SaveEntry(previous: Option<DeliveryConfig>, itemId: string, c: ConfigInput, now: string): (r: DeliveryConfig)
    ensures r.itemId == itemId && r.updatedAt == now
    ensures r.deliveryType == OrElse(c.deliveryType, "netdisk") && r.content == OrElse(c.content, "")
    ensures r.code == OrElse(c.code, "") && r.customMessage == OrElse(c.customMessage, "")
    ensures r.isEnabled == OrElse(c.isEnabled, true) && r.stockCount == OrElse(c.stockCount, Unlimited)
    ensures r.createdAt == if previous.Some? then previous.value.createdAt else now
  {
    var built := SaveEntryAsWritten(itemId, c, now);
    if previous.Some? then built.(createdAt := previous.value.createdAt) else built
  }

  /** An entry's fields as a configuration to save again. */
  function AsInput(e: DeliveryConfig): ConfigInput {
    ConfigInput(Some(e.deliveryType), Some(e.content), Some(e.code), Some(e.customMessage),
                Some(e.isEnabled), Some(e.stockCount))
  }

  /** Saving a stored entry again changes only its update time. */
  lemma {:induction false} ResaveKeepsEntry(e: DeliveryConfig, now: string)
    ensures SaveEntry(Some(e), e.itemId, AsInput(e), now) == e.(updatedAt := now)
  {
  }

  // ---------------------------------------------------------------------
  // Stock

  /** `check_stock` for a stored stock value. */
  predicate InStock(stock: int) {
    stock == Unlimited || stock > 0
  }

  /** `decrease_stock` on a stored stock value: whether it succeeds and the
      stock afterwards. */
  function Decrease(stock: int, count: int): (r: (bool, int))
    ensures stock == Unlimited ==> r == (true, stock)
    ensures stock != Unlimited && stock < count ==> r == (false, stock)
    ensures stock != Unlimited && stock >= count ==> r == (true, stock - count)
  {
    if stock == Unlimited then (true, stock)
    else if stock < count then (false, stock)
    else (true, stock - count)
  }

  /** A limited stock stays limited and never goes negative through a
      decrease, and taking the whole remaining stock leaves the item out
      of stock. */
  lemma DecreaseKeepsLimited(stock: int, count: int)
    requires stock != Unlimited && stock >= 0
    ensures Decrease(stock, count).1 != Unlimited
    ensures Decrease(stock, count).1 >= 0
    ensures Decrease(stock, count).0 && count > 0 ==> Decrease(stock, count).1 < stock
    ensures !InStock(Decrease(stock, stock).1)
  {
  }

  // ---------------------------------------------------------------------
  // Records

  function MakeRecord(id: nat, r: RecordInput, now: string): (d: DeliveryRecord)
    ensures d.id == id && d.deliveryTime == now
    ensures d.status == OrElse(r.status, "success")
    ensures d.itemId == OrElse(r.itemId, "") && d.buyerId == OrElse(r.buyerId, "")
  {
    DeliveryRecord(id, OrElse(r.orderId, ""), OrElse(r.itemId, ""), OrElse(r.buyerId, ""),
                   OrElse(r.chatId, ""), OrElse(r.deliveryType, ""), OrElse(r.content, ""),
                   now, OrElse(r.status, "success"), OrElse(r.errorMessage, ""))
  }

  function DeliveryTime(d: DeliveryRecord): string {
    d.deliveryTime
  }

  predicate Matches(d: DeliveryRecord, itemId: string, buyerId: string) {
    (itemId == "" || d.itemId == itemId) && (buyerId == "" || d.buyerId == buyerId)
  }

  /** The two filters of the query, an empty value meaning no filter. */
  function Narrow(records: seq<DeliveryRecord>, itemId: string, buyerId: string): (r: seq<DeliveryRecord>)
    ensures forall d :: d in r <==> d in records && Matches(d, itemId, buyerId)
  {
    var byItem := if itemId != "" then Filter(records, (d: DeliveryRecord) => d.itemId == itemId) else records;
    FilterMembers(records, (d: DeliveryRecord) => d.itemId == itemId);
    var byBuyer := if buyerId != "" then Filter(byItem, (d: DeliveryRecord) => d.buyerId == buyerId) else byItem;
    FilterMembers(byItem, (d: DeliveryRecord) => d.buyerId == buyerId);
    byBuyer
  }

  /** `get_delivery_records(item_id, buyer_id, limit)` */
  function RecordsQuery(records: seq<DeliveryRecord>, itemId: string, buyerId: string, limit: int): seq<DeliveryRecord> {
    PySlice(SortDesc(Narrow(records, itemId, buyerId), DeliveryTime), 0, limit)
  }

  /** The query returns recorded deliveries that match every given filter,
      newest first; for a non-negative limit it returns `min(limit, n)` of
      the `n` matching records, and they are the most recent ones. */
  lemma RecordsQuerySound(records: seq<DeliveryRecord>, itemId: string, buyerId: string, limit: int)
    ensures SortedDesc(RecordsQuery(records, itemId, buyerId, limit), DeliveryTime)
    ensures var n := |Narrow(records, itemId, buyerId)|;
            limit >= 0 ==> |RecordsQuery(records, itemId, buyerId, limit)| == if limit < n then limit else n
    ensures TopOf(RecordsQuery(records, itemId, buyerId, limit), Narrow(records, itemId, buyerId), DeliveryTime)
    ensures forall d :: d in RecordsQuery(records, itemId, buyerId, limit) ==>
              d in records && Matches(d, itemId, buyerId)
  {
    var narrowed := Narrow(records, itemId, buyerId);
    var r := RecordsQuery(records, itemId, buyerId, limit);
    SortedTop(narrowed, DeliveryTime, limit);
    forall d | d in r ensures d in records && Matches(d, itemId, buyerId) {
      assert d in multiset(r);
      assert d in multiset(narrowed);
    }
  }

  /** With a limit of at least the number of records, every matching record
      is returned. */
  lemma RecordsQueryComplete(records: seq<DeliveryRecord>, itemId: string, buyerId: string, limit: int)
    requires limit >= |records|
    ensures forall d :: d in records && Matches(d, itemId, buyerId) ==>
              d in RecordsQuery(records, itemId, buyerId, limit)
  {
    var narrowed := Narrow(records, itemId, buyerId);
    var sorted := SortDesc(narrowed, DeliveryTime);
    FilterLength(narrowed, records, itemId, buyerId);
    assert RecordsQuery(records, itemId, buyerId, limit) == sorted;
    forall d | d in records && Matches(d, itemId, buyerId)
      ensures d in RecordsQuery(records, itemId, buyerId, limit)
    {
      assert d in multiset(narrowed);
    }
  }

  lemma FilterLength(narrowed: seq<DeliveryRecord>, records: seq<DeliveryRecord>, itemId: string, buyerId: string)
    requires narrowed == Narrow(records, itemId, buyerId)
    ensures |narrowed| <= |records|
  {
    var byItem := if itemId != "" then Filter(records, (d: DeliveryRecord) => d.itemId == itemId) else records;
    assert |byItem| <= |records|;
  }

  // ---------------------------------------------------------------------
  // Delivery messages

  /** What the caller knows about the item; None also stands for an empty
      dict, which is falsy. */
  datatype ItemFields = ItemFields(title: Option<string>, soldPrice: Option<Scalar>)

  const NetdiskHead := "您好！感谢购买，以下是商品资源：\n\n"
  const NetdiskLink := "📦 网盘链接："
  const NetdiskCode := "🔑 提取码："
  const NetdiskTail := "\n请及时保存，如有问题请随时联系我。祝您使用愉快！"
  const CardkeyHead := "您好！感谢购买，以下是您的卡密信息：\n\n"
  const CardkeyLine := "🎟️ 卡密："
  const CardkeyTail := "\n请妥善保管，如有问题请随时联系我。"

  /** The custom template with its placeholders filled in: `{content}` and
      `{code}` always, `{title}` and `{price}` only when item fields are
      given. A template without placeholders comes back unchanged. */
  function FillTemplate(c: DeliveryConfig, item: Option<ItemFields>): (m: string)
    ensures !Contains(c.customMessage, "{content}") && !Contains(c.customMessage, "{code}") &&
            !Contains(c.customMessage, "{title}") && !Contains(c.customMessage, "{price}") ==>
              m == c.customMessage
  {
    var m1 := Replace(c.customMessage, "{content}", c.content);
    var m2 := Replace(m1, "{code}", c.code);
    if item.None? then m2
    else
      var m3 := Replace(m2, "{title}", OrElse(item.value.title, ""));
      Replace(m3, "{price}", if item.value.soldPrice.Some? then ScalarText(item.value.soldPrice.value) else "")
  }

  /** `build_delivery_message` */
  function BuildDeliveryMessage(c: DeliveryConfig, item: Option<ItemFields>): (m: string)
    ensures c.customMessage != "" ==> m == FillTemplate(c, item)
    ensures c.customMessage == "" && c.deliveryType != "netdisk" && c.deliveryType != "cardkey" ==> m == c.content
  {
    if c.customMessage != "" then FillTemplate(c, item)
    else if c.deliveryType == "netdisk" then
      NetdiskHead + NetdiskLink + c.content + "\n"
      + (if c.code != "" then NetdiskCode + c.code + "\n" else "")
      + NetdiskTail
    else if c.deliveryType == "cardkey" then
      CardkeyHead + CardkeyLine + c.content + "\n" + CardkeyTail
    else c.content
  }

  /** Without a custom template the message carries the delivery content,
      and a netdisk message carries the extraction code when one is set. */
  lemma MessageCarriesContent(c: DeliveryConfig, item: Option<ItemFields>)
    requires c.customMessage == ""
    ensures Contains(BuildDeliveryMessage(c, item), c.content)
    ensures c.deliveryType == "netdisk" && c.code != "" ==> Contains(BuildDeliveryMessage(c, item), c.code)
  {
    if c.deliveryType == "netdisk" {
      NetdiskLayout(NetdiskHead, NetdiskLink, c.content, NetdiskCode, c.code, NetdiskTail);
    } else if c.deliveryType == "cardkey" {
      CardkeyLayout(CardkeyHead, CardkeyLine, c.content, CardkeyTail);
    } else {
      assert BuildDeliveryMessage(c, item) == [] + c.content + [];
      ContainsInside([], c.content, []);
    }
  }

  /** The netdisk layout, whatever its fixed texts, contains the link and
      the extraction code it is given. */
  lemma NetdiskLayout(head: string, link: string, content: string, codeLabel: string, code: string, tail: string)
    ensures Contains(head + link + content + "\n" + (if code != "" then codeLabel + code + "\n" else "") + tail, content)
    ensures code != "" ==>
              Contains(head + link + content + "\n" + (if code != "" then codeLabel + code + "\n" else "") + tail, code)
  {
    var m := head + link + content + "\n" + (if code != "" then codeLabel + code + "\n" else "") + tail;
    var rest := "\n" + (if code != "" then codeLabel + code + "\n" else "") + tail;
    assert m == (head + link) + content + rest;
    ContainsInside(head + link, content, rest);
    if code != "" {
      var pre := head + link + content + "\n" + codeLabel;
      assert m == pre + code + ("\n" + tail);
      ContainsInside(pre, code, "\n" + tail);
    }
  }

  /** The card-key layout contains the key it is given. */
  lemma CardkeyLayout(head: string, line: string, content: string, tail: string)
    ensures Contains(head + line + content + "\n" + tail, content)
  {
    assert head + line + content + "\n" + tail == (head + line) + content + ("\n" + tail);
    ContainsInside(head + line, content, "\n" + tail);
  }

  /** A template whose only placeholder is `{content}` receives the
      delivery content in its place, with or without item fields. */
  lemma TemplateFillsContent(c: DeliveryConfig, item: Option<ItemFields>, pre: string, post: string)
    requires c.customMessage == pre + "{content}" + post
    requires '{' !in pre && '{' !in post && '{' !in c.content
    ensures FillTemplate(c, item) == pre + c.content + post
  {
    ReplaceLeading(pre, "{content}", post, c.content);
    NoLeadNoContains(post, "{content}");
    BraceFree(pre + c.content + post);
  }

  /** A template whose only placeholder is `{code}` receives the
      extraction code in its place. */
  lemma TemplateFillsCode(c: DeliveryConfig, item: Option<ItemFields>, pre: string, post: string)
    requires c.customMessage == pre + "{code}" + post
    requires '{' !in pre && '{' !in post && '{' !in c.code
    ensures FillTemplate(c, item) == pre + c.code + post
  {
    OtherPlaceholderAbsent(pre, "{code}", post, "{content}", 3);
    ReplaceLeading(pre, "{code}", post, c.code);
    NoLeadNoContains(post, "{code}");
    BraceFree(pre + c.code + post);
  }

  /** `{title}` is filled only when item fields are given; without them
      the placeholder is sent as written. */
  lemma TemplateTitleNeedsItem(c: DeliveryConfig, pre: string, post: string, title: string, price: Option<Scalar>)
    requires c.customMessage == pre + "{title}" + post
    requires '{' !in pre && '{' !in post && '{' !in title
    ensures FillTemplate(c, None) == c.customMessage
    ensures FillTemplate(c, Some(ItemFields(Some(title), price))) == pre + title + post
  {
    OtherPlaceholderAbsent(pre, "{title}", post, "{content}", 1);
    OtherPlaceholderAbsent(pre, "{title}", post, "{code}", 1);
    ReplaceLeading(pre, "{title}", post, title);
    NoLeadNoContains(post, "{title}");
    NoLeadNoContains(pre + title + post, "{price}");
  }

  /** `{price}` is filled with the text of the sold price only when item
      fields are given. */
  lemma TemplatePriceNeedsItem(c: DeliveryConfig, pre: string, post: string, title: Option<string>, price: Scalar)
    requires c.customMessage == pre + "{price}" + post
    requires '{' !in pre && '{' !in post && '{' !in ScalarText(price)
    ensures FillTemplate(c, None) == c.customMessage
    ensures FillTemplate(c, Some(ItemFields(title, Some(price)))) == pre + ScalarText(price) + post
  {
    OtherPlaceholderAbsent(pre, "{price}", post, "{content}", 1);
    OtherPlaceholderAbsent(pre, "{price}", post, "{code}", 1);
    OtherPlaceholderAbsent(pre, "{price}", post, "{title}", 1);
    ReplaceLeading(pre, "{price}", post, ScalarText(price));
    NoLeadNoContains(post, "{price}");
  }

  /** A text without braces is left alone by the remaining substitutions. */
  lemma BraceFree(m: string)
    requires '{' !in m
    ensures !Contains(m, "{content}") && !Contains(m, "{code}") && !Contains(m, "{title}") && !Contains(m, "{price}")
  {
    NoLeadNoContains(m, "{content}");
    NoLeadNoContains(m, "{code}");
    NoLeadNoContains(m, "{title}");
    NoLeadNoContains(m, "{price}");
  }

  /** The built-in layouts: content and code on their own labelled lines
      between a greeting and a closing line. */
  lemma DefaultLayouts(c: DeliveryConfig, item: Option<ItemFields>)
    requires c.customMessage == ""
    ensures c.deliveryType == "netdisk" && c.code == "" ==>
              BuildDeliveryMessage(c, item) == NetdiskHead + NetdiskLink + c.content + "\n" + NetdiskTail
    ensures c.deliveryType == "netdisk" && c.code != "" ==>
              BuildDeliveryMessage(c, item) ==
                NetdiskHead + NetdiskLink + c.content + "\n" + NetdiskCode + c.code + "\n" + NetdiskTail
    ensures c.deliveryType == "cardkey" ==>
              BuildDeliveryMessage(c, item) == CardkeyHead + CardkeyLine + c.content + "\n" + CardkeyTail
  {
  }

  /** Without an extraction code a netdisk message has no code line (as
      long as the link itself does not carry the code label's key sign). */
  lemma NetdiskWithoutCode(c: DeliveryConfig, item: Option<ItemFields>)
    requires c.customMessage == "" && c.deliveryType == "netdisk" && c.code == ""
    requires NetdiskCode[0] !in c.content
    ensures !Contains(BuildDeliveryMessage(c, item), NetdiskCode)
  {
    var m := NetdiskHead + NetdiskLink + c.content + "\n" + NetdiskTail;
    assert NetdiskCode[0] !in NetdiskHead + NetdiskLink;
    assert NetdiskCode[0] !in "\n" + NetdiskTail;
    assert m == (NetdiskHead + NetdiskLink) + c.content + ("\n" + NetdiskTail);
    NoLeadNoContains(m, NetdiskCode);
  }

  // ---------------------------------------------------------------------
  // Tables as values

  /** The stored configurations in insertion order. */
  function InOrder(keys: seq<string>, configs: map<string, DeliveryConfig>): (r: seq<DeliveryConfig>)
    requires forall k :: k in keys ==> k in configs
    ensures |r| == |keys|
    ensures forall i :: 0 <= i < |keys| ==> r[i] == configs[keys[i]]
  {
    seq(|keys|, i requires 0 <= i < |keys| => configs[keys[i]])
  }

  function IsEnabled(c: DeliveryConfig): bool {
    c.isEnabled
  }

  /** `list_delivery_configs(enabled_only)` */
  function ListConfigs(keys: seq<string>, configs: map<string, DeliveryConfig>, enabledOnly: bool): seq<DeliveryConfig>
    requires forall k :: k in keys ==> k in configs
  {
    if enabledOnly then Filter(InOrder(keys, configs), IsEnabled) else InOrder(keys, configs)
  }

  /** The enabled-only list holds exactly the enabled configurations, the
      full list every configuration. */
  lemma ListConfigsExact(keys: seq<string>, configs: map<string, DeliveryConfig>, k: string)
    requires forall x :: x in keys <==> x in configs
    ensures k in configs ==> configs[k] in ListConfigs(keys, configs, false)
    ensures k in configs && configs[k].isEnabled ==> configs[k] in ListConfigs(keys, configs, true)
    ensures forall c :: c in ListConfigs(keys, configs, true) ==> c.isEnabled && c in configs.Values
  {
    var all := InOrder(keys, configs);
    if k in configs {
      var i :| 0 <= i < |keys| && keys[i] == k;
      assert all[i] == configs[k];
    }
    forall c | c in ListConfigs(keys, configs, true) ensures c.isEnabled && c in configs.Values {
      var i :| 0 <= i < |all| && all[i] == c;
      assert configs[keys[i]] == c;
    }
  }

  /** The key order after `del configs[k]`. */
  function Remove(keys: seq<string>, k: string): (r: seq<string>)
    decreases |keys|
    ensures forall x :: x in r <==> x in keys && x != k
    ensures |r| <= |keys|
  {
    if keys == [] then []
    else (if keys[0] == k then [] else [keys[0]]) + Remove(keys[1..], k)
  }

  lemma {:induction false} RemoveDistinct(keys: seq<string>, k: string)
    requires Distinct(keys)
    ensures Distinct(Remove(keys, k))
    decreases |keys|
  {
    if keys != [] {
      assert Distinct(keys[1..]);
      RemoveDistinct(keys[1..], k);
      assert keys[0] !in keys[1..];
    }
  }

  function IsSuccess(d: DeliveryRecord): bool {
    d.status == "success"
  }

  /** The counts of `get_delivery_stats`. */
  function StatsOf(keys: seq<string>, configs: map<string, DeliveryConfig>, records: seq<DeliveryRecord>): (s: DeliveryStats)
    requires forall k :: k in keys ==> k in configs
    ensures s.enabledConfigs <= s.totalConfigs && s.successDeliveries <= s.totalDeliveries
    ensures s.totalDeliveries == |records|
    ensures s.successDeliveries == |Positions(records, IsSuccess)|
  {
    CountIndices(records, IsSuccess);
    DeliveryStats(|keys|, Count(InOrder(keys, configs), IsEnabled), |records|, Count(records, IsSuccess))
  }

  /** The items whose configuration is enabled. */
  function EnabledItems(configs: map<string, DeliveryConfig>): set<string> {
    set k | k in configs && configs[k].isEnabled
  }

  /** Over a key order without repeats that lists exactly the table, the
      statistics count every configuration once and the enabled ones. */
  lemma StatsCounts(keys: seq<string>, configs: map<string, DeliveryConfig>, records: seq<DeliveryRecord>)
    requires Distinct(keys) && (forall k :: k in keys <==> k in configs)
    ensures StatsOf(keys, configs, records).totalConfigs == |configs|
    ensures StatsOf(keys, configs, records).enabledConfigs == |EnabledItems(configs)|
  {
    EnabledCount(keys, configs);
    DistinctCard(keys);
    assert (set k | k in keys) == configs.Keys;
    assert (set k | k in keys && configs[k].isEnabled) == EnabledItems(configs);
  }

  lemma {:induction false} EnabledCount(keys: seq<string>, configs: map<string, DeliveryConfig>)
    requires Distinct(keys) && forall k :: k in keys ==> k in configs
    ensures Count(InOrder(keys, configs), IsEnabled) == |set k | k in keys && configs[k].isEnabled|
    decreases |keys|
  {
    if keys != [] {
      var init, k := keys[..|keys| - 1], keys[|keys| - 1];
      assert keys == init + [k];
      assert Distinct(init) by {
        forall i, j | 0 <= i < j < |init| ensures init[i] != init[j] {
          assert init[i] == keys[i] && init[j] == keys[j];
        }
      }
      assert k !in init by {
        forall i | 0 <= i < |init| ensures init[i] != k {
          assert init[i] == keys[i];
        }
      }
      EnabledCount(init, configs);
      assert InOrder(keys, configs) == InOrder(init, configs) + [configs[k]];
      FilterSnoc(InOrder(init, configs), configs[k], IsEnabled);
      EnabledAmongSnoc(init, k, configs);
    }
  }

  lemma EnabledAmongSnoc(init: seq<string>, k: string, configs: map<string, DeliveryConfig>)
    requires k !in init && k in configs && forall x :: x in init ==> x in configs
    ensures |set x | x in init + [k] && configs[x].isEnabled| ==
            |set x | x in init && configs[x].isEnabled| + (if configs[k].isEnabled then 1 else 0)
  {
    var all := set x | x in init + [k] && configs[x].isEnabled;
    assert all - {k} == set x | x in init && configs[x].isEnabled;
    CardWithout(all, k);
  }

  /** Saving a configuration adds one to the total for a new item, and the
      enabled count follows the old and the new enabled flag. */
  lemma StatsAfterSave(keys: seq<string>, configs: map<string, DeliveryConfig>, records: seq<DeliveryRecord>,
                       itemId: string, e: DeliveryConfig)
    requires Distinct(keys) && (forall k :: k in keys <==> k in configs)
    ensures var keys' := if itemId in configs then keys else keys + [itemId];
            var before := StatsOf(keys, configs, records);
            var after := StatsOf(keys', configs[itemId := e], records);
            after.totalConfigs == before.totalConfigs + (if itemId in configs then 0 else 1) &&
            after.enabledConfigs + (if itemId in configs && configs[itemId].isEnabled then 1 else 0) ==
              before.enabledConfigs + (if e.isEnabled then 1 else 0) &&
            after.totalDeliveries == before.totalDeliveries && after.successDeliveries == before.successDeliveries
  {
    var keys' := if itemId in configs then keys else keys + [itemId];
    var configs' := configs[itemId := e];
    if itemId !in configs {
      assert Distinct(keys') by {
        forall i, j | 0 <= i < j < |keys'| ensures keys'[i] != keys'[j] {
          if j < |keys| { assert keys'[i] == keys[i] && keys'[j] == keys[j]; }
        }
      }
    }
    StatsCounts(keys, configs, records);
    StatsCounts(keys', configs', records);
    EnabledUpdate(configs, itemId, e);
  }

  /** The enabled count after `configs[itemId := e]`. */
  lemma EnabledUpdate(configs: map<string, DeliveryConfig>, itemId: string, e: DeliveryConfig)
    ensures |EnabledItems(configs[itemId := e])| + (if itemId in configs && configs[itemId].isEnabled then 1 else 0) ==
            |EnabledItems(configs)| + (if e.isEnabled then 1 else 0)
  {
    EnabledElsewhere(configs, itemId, e);
    CardWithout(EnabledItems(configs), itemId);
    CardWithout(EnabledItems(configs[itemId := e]), itemId);
  }

  lemma EnabledElsewhere(configs: map<string, DeliveryConfig>, itemId: string, e: DeliveryConfig)
    ensures EnabledItems(configs[itemId := e]) - {itemId} == EnabledItems(configs) - {itemId}
  {
    var configs' := configs[itemId := e];
    forall k | k != itemId
      ensures k in EnabledItems(configs') <==> k in EnabledItems(configs)
    {
      assert k in configs' <==> k in configs;
      assert k in configs ==> configs'[k] == configs[k];
    }
  }

  lemma CardWithout<T>(a: set<T>, x: T)
    ensures |a| == |a - {x}| + (if x in a then 1 else 0)
  {
    if x in a {
      assert a == (a - {x}) + {x};
    } else {
      assert a == a - {x};
    }
  }

  /** Recording a delivery adds one to the total, and one to the successes
      exactly when its status is "success". */
  lemma StatsAfterRecord(keys: seq<string>, configs: map<string, DeliveryConfig>, records: seq<DeliveryRecord>,
                         d: DeliveryRecord)
    requires forall k :: k in keys ==> k in configs
    ensures var before := StatsOf(keys, configs, records);
            var after := StatsOf(keys, configs, records + [d]);
            after.totalDeliveries == before.totalDeliveries + 1 &&
            after.successDeliveries == before.successDeliveries + (if d.status == "success" then 1 else 0) &&
            after.totalConfigs == before.totalConfigs && after.enabledConfigs == before.enabledConfigs
  {
    FilterSnoc(records, d, IsSuccess);
  }

  // ---------------------------------------------------------------------
  // The manager

  class DeliveryManager {
    var configs: map<string, DeliveryConfig>
    /** The keys of `configs` in insertion order. */
    var keys: seq<string>
    var records: seq<DeliveryRecord>

    ghost predicate Valid()
      reads this
    {
      Distinct(keys) &&
      (forall k :: k in keys <==> k in configs) &&
      (forall k :: k in configs ==> configs[k].itemId == k) &&
      (forall i :: 0 <= i < |records| ==> records[i].id == i + 1)
    }

    constructor ()
      ensures Valid() && configs == map[] && keys == [] && records == []
    {
      configs, keys, records := map[], [], [];
    }

    /** `get_delivery_config` */
    function GetConfig(itemId: string): (r: Option<DeliveryConfig>)
      reads this
    {
      if itemId in configs then Some(configs[itemId]) else None
    }

    /** `save_delivery_config`: always succeeds in this mode. */
    method SaveConfig(itemId: string, c: ConfigInput, now: string) returns (ok: bool)
      requires Valid()
      modifies this
      ensures Valid() && ok
      ensures configs == old(configs)[itemId := SaveEntry(old(GetConfig(itemId)), itemId, c, now)]
      ensures keys == if itemId in old(configs) then old(keys) else old(keys) + [itemId]
      ensures records == old(records)
    {
      var entry := SaveEntry(GetConfig(itemId), itemId, c, now);
      if itemId !in configs {
        keys := keys + [itemId];
      }
      configs := configs[itemId := entry];
      ok := true;
    }

    /** `delete_delivery_config`: true iff the item had a configuration. */
    method DeleteConfig(itemId: string) returns (found: bool)
      requires Valid()
      modifies this
      ensures Valid()
      ensures found == (itemId in old(configs))
      ensures configs == old(configs) - {itemId} && GetConfig(itemId).None?
      ensures keys == if found then Remove(old(keys), itemId) else old(keys)
      ensures records == old(records)
    {
      found := itemId in configs;
      if found {
        configs := configs - {itemId};
        RemoveDistinct(keys, itemId);
        keys := Remove(keys, itemId);
      }
    }

    /** `list_delivery_configs(enabled_only)` */
    function List(enabledOnly: bool): seq<DeliveryConfig>
      requires Valid()
      reads this
    {
      ListConfigs(keys, configs, enabledOnly)
    }

    /** `record_delivery`: the new record gets the next id. */
    method RecordDelivery(r: RecordInput, now: string) returns (ok: bool)
      requires Valid()
      modifies this
      ensures Valid() && ok
      ensures records == old(records) + [MakeRecord(|old(records)| + 1, r, now)]
      ensures configs == old(configs) && keys == old(keys)
    {
      records := records + [MakeRecord(|records| + 1, r, now)];
      ok := true;
    }

    /** `get_delivery_records(item_id, buyer_id, limit)` */
    function GetRecords(itemId: string, buyerId: string, limit: int): seq<DeliveryRecord>
      reads this
    {
      RecordsQuery(records, itemId, buyerId, limit)
    }

    /** `get_delivery_stats` without the success rate. */
    function Stats(): DeliveryStats
      requires Valid()
      reads this
    {
      StatsOf(keys, configs, records)
    }

    /** `check_stock` */
    function CheckStock(itemId: string): (r: bool)
      reads this
      ensures r <==> itemId in configs && InStock(configs[itemId].stockCount)
    {
      itemId in configs && InStock(configs[itemId].stockCount)
    }

    /** `decrease_stock`: an unknown item fails, unlimited stock is left
        alone, too small a stock fails, otherwise the entry is saved again
        with the reduced stock. */
    method DecreaseStock(itemId: string, count: int, now: string) returns (ok: bool)
      requires Valid()
      modifies this
      ensures Valid()
      ensures itemId !in old(configs) ==> !ok && configs == old(configs)
      ensures itemId in old(configs) ==>
                var e := old(configs)[itemId];
                var (success, stock) := Decrease(e.stockCount, count);
                ok == success &&
                configs == (if success && e.stockCount != Unlimited
                            then old(configs)[itemId := e.(stockCount := stock, updatedAt := now)]
                            else old(configs))
      ensures keys == old(keys) && records == old(records)
    {
      if itemId !in configs {
        return false;
      }
      var e := configs[itemId];
      if e.stockCount == Unlimited {
        return true;
      }
      if e.stockCount < count {
        return false;
      }
      var updated := e.(stockCount := e.stockCount - count);
      ResaveKeepsEntry(updated, now);
      ok := SaveConfig(itemId, AsInput(updated), now);
    }
  }
}
