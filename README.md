# Xianyu customer-service agent — a Dafny model

This project models the core of a bot that answers buyers on the Xianyu
second-hand marketplace. The bot keeps a websocket session open, decodes each
pushed frame and records the conversation. It asks a reply generator for an
answer and sends that answer back, unless a human operator has taken the
conversation over. Around that session engine sit five smaller components, all
modelled here:

- a chat context store: bounded per-conversation history, bargain counters and an item cache;
- a delivery manager: per-item delivery configurations, stock, records and delivery messages;
- the marketplace API helper: the cookie jar and the retry "ladders" of the token, login, item and list calls;
- the admin service's helpers: cookie validation and masking, the `.env` upsert, the product list and filter, status normalisation, the sync loop, and prompt validation and preview;
- the product prompt manager: a cache over prompt files with default fallbacks.

Modules follow the program's files:

| module | file | form |
|---|---|---|
| `Common` | (shared) | Python string and slice semantics: `strip`, `split`, `in`, `replace`, slices with negative bounds, `str(int)`, stable filters, the descending sort |
| `Session` | main.py | frame datatypes and pure classifiers; the `XianyuLive` class whose methods update the manual-mode tables, the token and the heartbeat clocks |
| `Context` | context_manager.py | `BoundedDeque` (a ring buffer for `deque(maxlen=…)`) and the `ChatContextManager` class |
| `Delivery` | delivery_manager.py | pure entry and message functions; the `DeliveryManager` class over a config map, its key order and the record list |
| `Apis` | XianyuApis.py | the cookie jar as a sequence; `ApiSession` with the de-duplication loop; the retry ladders as recursive functions over a sequence of replies |
| `AdminCookies`, `AdminProducts`, `AdminPrompts` | web_admin_api.py | pure functions plus the loops the handlers run |
| `Prompts` | product_prompt_manager.py | the `PromptManager` class over a cache, a file map and a config map |

Clocks are parameters. `now` is in seconds for main.py's `time.time()`, and an
ISO string stands for `datetime.now().isoformat()`. Everything else from the
outside world is an input:
- HTTP replies are a sequence of `Reply` values;
- the reply generator, the item-detail call and the decryption are function parameters;
- the files a component reads are maps from path to content.

## Model

| member | source | states |
|---|---|---|
| Common.SortDescSorted | context_manager.py:227 | the descending sort used for conversation and record listings yields a list ordered by the key |
| Common.SortedTop | delivery_manager.py:534-536 | sorting then cutting at `limit` keeps the order and keeps exactly `min(limit, n)` rows; every row left out ranks no higher than any row kept |
| Common.NatToStringRoundTrip | context_manager.py:602-607 | the decimal text of a count reads back as the same count |
| Common.StripKeeps | web_admin_api.py:1431-1435 | a non-space character occurs in a text iff it occurs in the stripped text |
| Common.ReplaceMayLeavePattern | delivery_manager.py:652 | `str.replace` scans left to right once, so a replacement can assemble a new occurrence of the pattern: `"{co{content}ent}"` with `{content}` replaced by `"nt"` becomes `"{content}"` |
| Session.AckHeaders | main.py:286-303 | the handler's ack has exactly the keys `mid`, `sid` and whichever of the echoed headers the frame has; `mid` is the fresh id, `sid` is copied or empty, and echoed values are the frame's |
| Session.HandlerAck | main.py:286-303 | the handler acks exactly the frames that carry headers |
| Session.IsHeartbeatResponse | main.py:495-510 | a heartbeat response is a frame with a `mid` header and code 200 |
| Session.IsSyncPackage | main.py:202-213 | a sync package is a frame whose body carries a non-empty `syncPushPackage.data` list |
| Session.IsChatMessage | main.py:188-200 | a chat message has field "1" as a dict whose field "10" is a dict carrying `reminderContent` |
| Session.IsTypingStatus | main.py:215-229 | a typing status has field "1" as a non-empty list whose first entry's field "1" is a string containing `@goofish` |
| Session.IsSystemMessage | main.py:231-242 | a system message has field "3" whose `needPush` is the string "false" |
| Session.DoubleAck | main.py:558-570 | a frame carrying a `mid` is acked twice with identical headers: once by the receive loop and once by the handler |
| Session.LoopAck | main.py:558-570 | the receive loop's ack reuses the frame's `mid` and repeats its `sid` and echoed headers |
| Session.OrderNotice | main.py:335-354 | a message ends handling as an order notice iff its reminder state is one of the three order states and field "1" is a string |
| Session.ToggleKeywordCases | main.py:244-247 | the stripped message is looked up as a substring of the keyword string, so an all-whitespace message toggles, and so does any single keyword character with whitespace around it |
| Session.IsToggleKeyword | main.py:244-247 | a message toggles iff its stripped text is a substring of the keyword string |
| Session.IsStale | main.py:372 | a message is stale iff `now` in milliseconds minus its create time exceeds the expiry time |
| Session.ItemIdOf | main.py:377-378 | an item id exists iff the reminder URL contains `itemId=`; it is the text after the first `itemId=` up to the next `&` |
| Session.ItemIdIsPrefix | main.py:377-378 | the id is a prefix of the second split part and contains no `&` |
| Session.ChatIdOf | main.py:379 | the chat id is the prefix of the conversation field before the first `@` |
| Session.Decode | main.py:305-333 | a frame decodes iff it is a sync package whose first item carries ciphertext that decrypts; non-sync frames, and only they, stop as `NotSync` |
| Session.ExtractEvent | main.py:365-383 | an event comes only from a fresh message with a create time, a URL with a non-empty item id and a conversation field, and it carries the reminder's sender, name and text; conversely such a message always yields exactly that event; `Expired` iff the required fields exist and the message is older than the expiry time |
| Session.RouteEvent | main.py:385-405 | the seller's own messages are toggles iff they are toggle keywords and notes otherwise; everyone else's go to the customer branch, each as an iff |
| Session.Classify | main.py:305-405 | a decode failure stops with its reason; an order notice, a typing status and a non-chat message stop as such; a decoded chat message is routed by `RouteEvent` exactly when its event extracts, and stops with the extraction's reason otherwise; any routed event comes from such a message |
| Session.SendMsg | main.py:109-153 | a sent message has two receivers and carries the text unchanged |
| Session.SendMsgAddressRoundTrip | main.py:109-153 | reading the chat id back from the sent conversation address gives the chat it was sent to; the first receiver names the buyer |
| Session.ItemDescription | main.py:429 | the generator receives the item description followed by the sold-price sentence |
| Session.DescriptionOf | main.py:415-429 | an item is describable iff it is cached, or it is fetched and has both a description and a sold price |
| Session.Enter | main.py:264-267 | entering manual mode adds the chat and stamps it with the current time |
| Session.Exit | main.py:269-273 | leaving manual mode removes the chat from both tables |
| Session.IsManual | main.py:249-262 | a chat is manual iff it was entered and its stamp is at most the timeout old; an expired chat is removed from both tables; a true answer changes nothing |
| Session.Toggle | main.py:275-282 | the toggle answers "auto" iff the chat was manual, and "manual" otherwise |
| Session.ManualOperationsKeepValid | main.py:249-282 | enter, exit, query and toggle keep the set of manual chats and the stamp table in step |
| Session.ToggleRoundTrip | main.py:264-282 | two toggles within the timeout enter and then leave manual mode and restore the state exactly; other chats are untouched |
| Session.ManualExpiry | main.py:249-262 | a takeover is still active exactly at the timeout and is removed from both tables just after it |
| Session.RunHeartbeats | main.py:475-493 | the loop's probes, clocks and stop flag are those of the heartbeat specification `Heartbeats` |
| Session.HeartbeatSpacing | main.py:482-483 | consecutive probes are at least one interval apart, starting from the last send |
| Session.HeartbeatLastSent | main.py:457-483 | the last-sent clock is the time of the last probe, or unchanged when none was sent |
| Session.HeartbeatStop | main.py:486-488 | the loop stops only at a tick whose last response is older than interval plus timeout; otherwise it consumes every event |
| Session.HeartbeatsKeepAlive | main.py:495-510 | while responses keep arriving within the window, the loop never stops |
| Session.HeartbeatTimesOut | main.py:486-488 | a tick that finds the latest response older than interval plus timeout always stops the loop, at that tick or earlier |
| Session.HeartbeatFirstLate | main.py:475-493 | when the loop stops, the tick it stopped at is late and no earlier tick was: it stops at the first late tick |
| Session.TokenDecision | main.py:78-107 | a restart is requested iff the refresh interval has passed and a non-empty token was fetched; otherwise, before the interval, the loop checks again after 60 seconds |
| Session.ReconnectDelay | main.py:603-608 | a requested restart reconnects at once; any other disconnect waits 5 seconds |
| Session.XianyuLive.constructor | main.py:20-55 | a new session starts with no manual chats, no token and zeroed clocks |
| Session.XianyuLive.EnterManualMode | main.py:264-267 | the session's tables become `Enter` of the old ones; the token and the clocks are untouched |
| Session.XianyuLive.ExitManualMode | main.py:269-273 | the session's tables become `Exit` of the old ones; the token and the clocks are untouched |
| Session.XianyuLive.IsManualMode | main.py:249-262 | answer and new tables are those of `IsManual`, including the removal on expiry; the token and the clocks are untouched |
| Session.XianyuLive.ToggleManualMode | main.py:275-282 | answer and new tables are those of `Toggle`; the token and the clocks are untouched |
| Session.XianyuLive.RefreshToken | main.py:57-76 | a fetched token replaces the current one and stamps the refresh time; a failed fetch changes nothing |
| Session.XianyuLive.TokenTick | main.py:78-107 | one pass of the token loop takes `TokenDecision` and raises the restart flag exactly on a restart; when the interval has passed a fetched token replaces the current one and stamps the refresh time, otherwise (or when the fetch fails) token and refresh time stay; the heartbeat clocks never move |
| Session.XianyuLive.Connect | main.py:512-536 | connecting clears the restart flag; when there is no token or it is due (as `init` tests), a fetched token replaces it and stamps the refresh time, otherwise token and refresh time stay; it succeeds iff a token is then held, and only then resets both heartbeat clocks |
| Session.XianyuLive.HeartbeatLoop | main.py:475-493 | the probes, stop flag and clocks follow `Heartbeats` from the session's clocks |
| Session.XianyuLive.HandleCustomer | main.py:403-451 | the buyer's message is always recorded first (a new chat joins the chat order); a reply is sent iff the chat is not under manual override, the message is not a system message and the item is describable; the reply is the generator's answer to the history ending with the buyer's message and is recorded after it; a price intent counts one more bargain; outside manual mode an uncached item the API returns is cached; nothing else changes, token and clocks included |
| Session.XianyuLive.Answer | main.py:415-451 | a reply exists iff the item is describable; it is the generator's answer and is recorded, a price intent counts one more bargain, and nothing is recorded or counted otherwise; the item cache is `CacheAfterDescribe` of the old one |
| Session.XianyuLive.DescribeItem | main.py:415-429 | the description is `DescriptionOf` the old cache: the cached item, else a fetched one with `desc` and `soldPrice`; the new cache is `CacheAfterDescribe`, so a fetched item is cached as its simplified record even when it lacks a field; chats, chat order and bargains never change |
| Session.XianyuLive.Reply | main.py:431-448 | the generator sees the buyer's text, the item description and the conversation context; a price intent bumps the bargain count; its answer is recorded; chat order and item cache stay |
| Session.XianyuLive.HandleMessage | main.py:284-455 | the ack is `HandlerAck`, the route is `Classify`, and all four context tables, the manual tables and the sent message are the route's: a stop changes nothing, a toggle only the manual tables, an operator note is recorded, and a customer message runs the full customer branch; token and clocks never change |
| Session.XianyuLive.OnFrame | main.py:544-570 | a pending restart stops the loop and changes nothing; a heartbeat response moves only the response clock; other frames with a `mid` are acked twice, with headers but no `mid` once, without headers never; every other frame changes the state and sends exactly as `handle_message` does for its route, leaving token and clocks alone |
| Context.BoundedAppend | context_manager.py:126 | appending to a bounded history keeps at most `maxlen` items, drops the oldest when full and ends with the new item |
| Context.BoundedDeque.Append | context_manager.py:527-538 | the ring buffer's contents become `BoundedAppend` of the old contents |
| Context.BoundedDeque.Items | context_manager.py:595 | iterating the ring buffer yields its contents oldest first |
| Context.Recorded | context_manager.py:527-538 | recording a message creates the chat if needed, bounds its history and leaves every other chat unchanged |
| Context.BargainNoteInjective | context_manager.py:602-607 | different bargain counts give different system notes |
| Context.ContextOf | context_manager.py:590-609 | the context is the history's roles and texts in order, followed by a system note with the count iff the count is positive |
| Context.Summaries | context_manager.py:209-223 | every summary row belongs to a chat with a non-empty history and is computed from it |
| Context.SummariesComplete | context_manager.py:209-223 | every chat with a non-empty history has its row |
| Context.ConversationsOrdered | context_manager.py:205-229 | the listing is sorted by last message time, newest first, holds exactly `min(limit, n)` rows, no chat left out is newer than one listed, and each row counts its chat's messages and names its first user |
| Context.ConversationsListAll | context_manager.py:205-229 | with a limit at least the number of chats, every non-empty chat is listed |
| Context.StatsOf | context_manager.py:373-385 | conversations count the chat order, messages are the sum of the histories' lengths, active bargains are the chats with a positive count, and cached items are the cache size |
| Context.TotalMessagesUpdate | context_manager.py:373-385 | replacing one history changes the message total by the difference in its length |
| Context.StatsAfterRecord | context_manager.py:527-538 | recording a message adds a conversation iff the chat is new and a message unless the history was full, and leaves bargains and cache counts alone |
| Context.StatsAfterBargain | context_manager.py:645-655 | a bargain increment adds an active bargain iff the chat had none, and leaves the message and conversation counts alone |
| Context.UnknownChatCountedNotListed | context_manager.py:590-595 | asking for the context of an unknown chat creates an empty history: it then counts as a conversation with no messages but is never listed |
| Context.DetailOf | context_manager.py:286-315 | a detail exists iff the chat has messages; it reports their number, the first message's user and item, the bargain count, and item info iff that item is cached |
| Context.Simplify | context_manager.py:434-442 | the cached item keeps description, price and title with their defaults and the cache time |
| Context.ChatContextManager.constructor | context_manager.py:113-127 | a new store is empty |
| Context.ChatContextManager.Touch | context_manager.py:595 | reading a chat creates it, appending it to the chat order iff it was new |
| Context.ChatContextManager.AddMessage | context_manager.py:527-538 | the chats become `Recorded` of the old ones, and a new chat joins the end of the order |
| Context.ChatContextManager.GetContext | context_manager.py:590-609 | the result is `ContextOf` the chat's history and bargain count; the chat is created if it was missing |
| Context.ChatContextManager.IncrementBargain | context_manager.py:645-655 | the chat's bargain count rises by one from its current value or zero |
| Context.ChatContextManager.SaveItemInfo | context_manager.py:426-445 | the cache maps the item to its simplified record; nothing else changes |
| Context.ChatContextManager.GetItemInfo | context_manager.py:479-490 | the cached record of an item, present iff the item is cached |
| Context.ChatContextManager.GetBargain | context_manager.py:679-690 | the chat's bargain count, zero when it has none |
| Context.ChatContextManager.GetAllConversations | context_manager.py:205-229 | the loop's result is `ConversationsOf` the chat order and histories |
| Context.ChatContextManager.GetDetail | context_manager.py:286-315 | the store answers `DetailOf` its tables, whose cases are stated by `Context.DetailOf` |
| Context.ChatContextManager.GetStats | context_manager.py:373-385 | the store answers `StatsOf` its tables, whose values are stated by `Context.StatsOf` |
| Delivery.SaveEntryAsWritten | delivery_manager.py:192-209 | the save as written: `created_at` is always the time of this save |
| Delivery.CreatedAtRestamped | delivery_manager.py:205-208 | for every stored entry and every save time other than its creation time, the save as written moves the creation time to the save time, so the entry differs from one whose creation time was kept |
| Delivery.SaveEntry | delivery_manager.py:192-209 | every field takes the given value or its default; the creation time is the first save's |
| Delivery.ResaveKeepsEntry | delivery_manager.py:728-731 | saving a stored entry back through the corrected save path changes only its update time |
| Delivery.Decrease | delivery_manager.py:703-731 | unlimited stock always succeeds unchanged; short stock fails unchanged; otherwise the count is taken off |
| Delivery.DecreaseKeepsLimited | delivery_manager.py:714-731 | limited stock stays limited and non-negative, strictly shrinks on a positive take, and is out of stock after taking it all |
| Delivery.MakeRecord | delivery_manager.py:442-458 | a record takes the next id and the delivery time; status defaults to "success" and ids default to empty |
| Delivery.Narrow | delivery_manager.py:523-531 | a record survives the filters iff it matches the item and buyer given (an empty filter matches all) |
| Delivery.RecordsQuerySound | delivery_manager.py:523-536 | the query is newest first, exactly `min(limit, n)` long over the `n` matching records, no match left out is newer than one returned, and returns only matching records |
| Delivery.RecordsQueryComplete | delivery_manager.py:523-536 | with a large enough limit every matching record is returned |
| Delivery.BuildDeliveryMessage | delivery_manager.py:635-678 | a custom template is filled by `FillTemplate`; other delivery types send the content verbatim |
| Delivery.FillTemplate | delivery_manager.py:649-657 | a template with none of the four placeholders is sent unchanged |
| Delivery.TemplateFillsContent | delivery_manager.py:649-652 | one `{content}` in a brace-free template is replaced by the content |
| Delivery.TemplateFillsCode | delivery_manager.py:649-653 | one `{code}` in a brace-free template is replaced by the extraction code |
| Delivery.TemplateTitleNeedsItem | delivery_manager.py:654-655 | `{title}` is filled from the item's title only when item info is given; without it the template is unchanged |
| Delivery.TemplatePriceNeedsItem | delivery_manager.py:654-656 | `{price}` is filled with the text of the item's price only when item info is given |
| Delivery.BraceFree | delivery_manager.py:649-657 | a text without `{` holds none of the placeholders, so filling leaves it alone |
| Delivery.DefaultLayouts | delivery_manager.py:659-676 | without a template the netdisk message has its exact layout with the code line iff a code is set, and the card-key message its own layout |
| Delivery.NetdiskWithoutCode | delivery_manager.py:660-665 | a netdisk message without a code has no extraction-code line |
| Delivery.MessageCarriesContent | delivery_manager.py:661-678 | without a template the message contains the content, and a netdisk message contains a non-empty code |
| Delivery.InOrder | delivery_manager.py:372-378 | listing follows the insertion order of the keys, one config per key |
| Delivery.ListConfigs | delivery_manager.py:364-378 | the listing over the key order, all or the enabled ones; its contents are stated by `InOrder` and `ListConfigsExact` |
| Delivery.ListConfigsExact | delivery_manager.py:364-378 | every stored config is listed; with `enabled_only` exactly the enabled ones are |
| Delivery.InStock | delivery_manager.py:680-701 | a stored stock value is in stock iff it is unlimited or positive |
| Delivery.Remove | delivery_manager.py:329-345 | deleting a key removes just that key from the order |
| Delivery.StatsOf | delivery_manager.py:589-600 | deliveries count the records and successes count the records whose status is "success"; enabled configs never exceed all configs (their values are stated by `Delivery.StatsCounts`) |
| Delivery.StatsCounts | delivery_manager.py:589-600 | over the stored key order, total configs is the number of configs and enabled configs the number of enabled items |
| Delivery.StatsAfterSave | delivery_manager.py:192-216 | saving a config adds one to the total iff the item is new, moves the enabled count by the change in its flag, and leaves the delivery counts alone |
| Delivery.StatsAfterRecord | delivery_manager.py:442-465 | recording a delivery adds one to deliveries and one to successes iff its status is "success" |
| Delivery.DeliveryManager.constructor | delivery_manager.py:112-134 | a new manager holds no configs and no records |
| Delivery.DeliveryManager.SaveConfig | delivery_manager.py:192-216 | the item maps to `SaveEntry` of its previous entry; a new item joins the end of the order |
| Delivery.DeliveryManager.DeleteConfig | delivery_manager.py:329-345 | deletion succeeds iff the item was configured; afterwards it has no config and the records are untouched |
| Delivery.DeliveryManager.RecordDelivery | delivery_manager.py:442-465 | the record list grows by one record whose id is one more than the old count |
| Delivery.DeliveryManager.CheckStock | delivery_manager.py:680-701 | an item is in stock iff it is configured with unlimited or positive stock |
| Delivery.DeliveryManager.DecreaseStock | delivery_manager.py:703-731 | an unknown item fails unchanged; otherwise the result is `Decrease`'s, and the entry is re-saved only when limited stock was taken |
| Apis.FirstCookie | XianyuApis.py:319-332 | the first cookie with a name is in the jar and has that name; there is none iff no cookie has it |
| Apis.FirstCookieIsFirst | XianyuApis.py:319-332 | the cookie found sits at an index before which no cookie has the name |
| Apis.KeepFirstNames | XianyuApis.py:52-68 | keeping the first cookie per name keeps every name, once |
| Apis.KeepFirstIsFirst | XianyuApis.py:52-68 | each kept cookie is the first of its name |
| Apis.DedupeCorrect | XianyuApis.py:49-71 | after clearing duplicates the names are distinct and unchanged, and each cookie kept is the last one of its name |
| Apis.Dedupe | XianyuApis.py:49-71 | the jar is scanned newest first and the first cookie of each name is kept |
| Apis.ApiSession.ClearDuplicateCookies | XianyuApis.py:49-71 | the loop leaves the jar as `Dedupe` of the old jar |
| Apis.ApiSession.FindCookie | XianyuApis.py:319-332 | the scan returns the first value of the named cookie, if any |
| Apis.JarGet | XianyuApis.py:203 | a name lookup is missing iff no cookie has the name, found iff exactly one does, and a conflict iff several do |
| Apis.DuplicateConflicts | XianyuApis.py:203 | two cookies with one name make the lookup a conflict |
| Apis.TokenOf | XianyuApis.py:203 | the token is the prefix of the cookie value before the first `_` (which sits right after it), or the whole value if it has none |
| Apis.SignToken | XianyuApis.py:203 | the signing token is the token of the `_m_h5_tk` cookie, empty when absent, and none when the lookup conflicts |
| Apis.TokenAfterDedupe | XianyuApis.py:202-203 | after de-duplication the lookup never conflicts; it yields the token of the last `_m_h5_tk` cookie, or empty if there is none |
| Apis.SuccessIsListSuccess | XianyuApis.py:377 | a reply accepted by the token check is accepted by the list check |
| Apis.IsSuccess | XianyuApis.py:215 | a reply succeeds when some `ret` entry contains the full success code |
| Apis.IsListSuccess | XianyuApis.py:377 | the list call accepts any `ret` entry containing `SUCCESS` |
| Apis.IsProtection | XianyuApis.py:217 | an anti-bot rejection is a `ret` entry containing `RGV587_ERROR::SM` |
| Apis.TokenRetryPause | XianyuApis.py:217-221 | after an anti-bot rejection the pause range is `5(retry+1)` to `5(retry+1)+10` seconds, otherwise `2(retry+1)` to `2(retry+1)+2` |
| Apis.ProtectionPausesLonger | XianyuApis.py:217-221 | after an anti-bot rejection the pause is never shorter than after a plain failure, and it grows with the retry count |
| Apis.Store | XianyuApis.py:116-169 | storing a response cookie replaces the jar's cookie with the same name and domain, or appends it |
| Apis.StoreSlot | XianyuApis.py:116-169 | after storing, the cookie is in the jar, nothing else is new, every cookie of another slot is kept, and the length grows only when the slot was empty |
| Apis.StoreReplaces | XianyuApis.py:116-169 | a re-set cookie replaces its old value instead of adding a second one |
| Apis.Absorb | XianyuApis.py:116-169 | a JSON reply's cookies are stored one by one; any other reply leaves the jar |
| Apis.HasLogin | XianyuApis.py:116-169 | a login uses no more replies than given and succeeds only by using one |
| Apis.LoginAtMostTwice | XianyuApis.py:116-169 | a login makes at most two attempts; a conflicting jar fails with no request; without conflicts it succeeds iff one of the first two replies accepts it; success leaves the jar de-duplicated |
| Apis.LoginRetryAfterResetCookie | XianyuApis.py:116-169 | for every cookie and new value: a failed first login that re-sets the jar's one cookie leaves one copy of it, so the second attempt goes ahead and succeeds |
| Apis.TokenDoneIsSuccess | XianyuApis.py:171-241 | a token ladder that succeeds ends on a used reply whose `ret` passes the success check |
| Apis.GetToken | XianyuApis.py:171-241 | the token ladder never uses more replies than it is given |
| Apis.TokenEscalation | XianyuApis.py:172-181 | two plain failures escalate to a login; a failed login ends the program and a successful one restarts the ladder at zero |
| Apis.TwoPlainFailures | XianyuApis.py:213-241 | two plain failures leave the jar alone and hand over to the third rung |
| Apis.OnePlainFailure | XianyuApis.py:213-241 | one plain failure moves to the next rung with the jar unchanged |
| Apis.GetItemInfo | XianyuApis.py:243-305 | the item ladder never uses more replies than it is given |
| Apis.ItemInfoBounded | XianyuApis.py:243-305 | the item call uses at most three replies, and succeeds only on a used reply accepted by the success check |
| Apis.ItemInfoDoneByReply | XianyuApis.py:284-296 | a successful item call returns the `ret` of the last reply it used |
| Apis.ItemInfoGivesUp | XianyuApis.py:243-305 | the item call reports exhaustion only after exactly the remaining attempts, none of them successful |
| Apis.ItemInfoFailsAfterThree | XianyuApis.py:243-305 | conversely, with a usable token and three failed replies, the item call reports exhaustion after exactly those replies |
| Apis.AfterFailureKeepsToken | XianyuApis.py:287-294 | a failed reply never turns a usable signing token into a conflict |
| Apis.UserItemsNeedUserId | XianyuApis.py:319-332 | without a non-empty `unb` cookie the list call fails at once and uses no reply |
| Apis.GetUserItems | XianyuApis.py:307-397 | the list ladder never uses more replies than it is given |
| Apis.UserItemsBounded | XianyuApis.py:307-397 | the list call uses at most three replies and succeeds only on an accepted reply |
| Apis.UserItemsGivesUp | XianyuApis.py:307-397 | the list call reports exhaustion only after exactly the remaining attempts, none of them successful |
| Apis.UserItemsFailAfterThree | XianyuApis.py:307-397 | conversely, with a user id and three plain failures, the list call reports exhaustion after exactly those replies, the jar unchanged |
| AdminCookies.Pairs | web_admin_api.py:1431-1435 | the cookie string gives one pair per `;`-separated part; a part has a key iff it contains `=`, and then its stripped text is the key, `=`, and the value, with no `=` in the key |
| AdminCookies.PairShape | web_admin_api.py:1431-1435 | one part splits at its first `=` into a key without `=` and the rest as value |
| AdminCookies.FoundFields | web_admin_api.py:1431-1435 | the loop finds `unb` (or `cookie2`) iff some part carries that key |
| AdminCookies.ValidateCookieFormat | web_admin_api.py:1420-1448 | the loop's verdict is `CookieVerdict` |
| AdminCookies.CookieVerdict | web_admin_api.py:1420-1448 | the verdict of a cookie string, whose cases are stated by `CookieVerdictCases` |
| AdminCookies.CookieVerdictCases | web_admin_api.py:1424-1445 | a cookie string is valid iff it has a `;` and both required keys; each failure has its exact message, listing the missing keys in order |
| AdminCookies.Mask | web_admin_api.py:1266-1270 | the mask keeps the length, shows the first and last four characters of a value longer than 8, and hides all of a shorter one |
| AdminCookies.MaskReveals | web_admin_api.py:1266-1270 | two values mask alike iff they have the same length and, when longer than 8, the same first and last four characters |
| AdminCookies.CookiePreview | web_admin_api.py:1257-1270 | the preview of a cookie string is `PreviewOf` its pairs |
| AdminCookies.PreviewPairs | web_admin_api.py:1261-1270 | the loop over the pairs computes `PreviewOf` |
| AdminCookies.PreviewKeys | web_admin_api.py:1257-1270 | the preview shows a key iff it is one of the four shown keys and some pair carries it |
| AdminCookies.PreviewShowsLast | web_admin_api.py:1261-1270 | a shown key's preview is the mask of the last pair carrying it |
| AdminCookies.EnvCreateLines | web_admin_api.py:1456-1460 | a missing `.env` becomes one `key=value` line |
| AdminCookies.EnvReplaceLines | web_admin_api.py:1464-1469 | an existing key's lines are replaced in place and no line is added |
| AdminCookies.EnvAppendLines | web_admin_api.py:1470-1472 | a new key is appended after the trailing whitespace is stripped |
| AdminCookies.EnvUpsertIdempotent | web_admin_api.py:1450-1483 | writing the same key and value twice leaves the file as after the first write |
| AdminCookies.UpdateEnv | web_admin_api.py:1450-1483 | the `.env` text after the upsert, whose cases are stated by the three `Env...Lines` lemmas |
| AdminProducts.ProductOf | web_admin_api.py:247-260 | the id is the file name without `_config.json`; present item id, title and category are copied and missing ones take their defaults (the id, "未命名商品", "未分类"); a product is active iff its prompts are configured and a draft otherwise |
| AdminProducts.GetProducts | web_admin_api.py:228-297 | the handler returns the requested page of the matching products and their total count |
| AdminProducts.MatchingCorrect | web_admin_api.py:240-270 | a product is listed iff it comes from a readable file and passes the keyword, category and status filters |
| AdminProducts.UnknownStatusEmpty | web_admin_api.py:255-268 | a status filter other than active or draft lists nothing |
| AdminProducts.NoFilterKeepsReadable | web_admin_api.py:240-274 | without filters every readable file is listed |
| AdminProducts.PageWindow | web_admin_api.py:275-279 | a page is the slice starting at `(page-1)*size`, at most `size` long |
| AdminProducts.RowOnItsPage | web_admin_api.py:275-279 | every row appears on its page at its offset |
| AdminProducts.PageZeroEmpty | web_admin_api.py:275-279 | page zero is empty: the slice starts at a negative index, which Python slicing clamps |
| AdminProducts.NormaliseStatus | web_admin_api.py:941-958 | the normalised status is never empty or zero; its mapping is stated by the lemmas below |
| AdminProducts.StatusCodes | web_admin_api.py:943-951 | every true status whose text in lower case is a key of the table, however it is cased, maps to the table's name: "0" and "on_sale" to ON_SALE, "1" and "sold_out" to SOLD_OUT, "2" to OFFLINE |
| AdminProducts.StatusNumbers | web_admin_api.py:941-951 | every non-zero number is matched by its decimal text: 1 and 2 map to SOLD_OUT and OFFLINE like "1" and "2", and every other number is kept as it is |
| AdminProducts.StatusNames | web_admin_api.py:943-958 | every true status whose lower-case text is not a table key is kept exactly as it is, so the canonical upper-case names map to themselves, and a mixed-case key is still matched |
| AdminProducts.StatusFallsThrough | web_admin_api.py:941-958 | a false or absent status defers to `itemStatus`, and with both false the result is ON_SALE |
| AdminProducts.ZeroFallsThrough | web_admin_api.py:941 | a numeric 0 status is falsy, so the item status is used in its place |
| AdminProducts.NormaliseIdempotent | web_admin_api.py:941-958 | normalising a normalised status changes nothing |
| AdminProducts.SyncPage | web_admin_api.py:1076-1084 | one page's items are split into synced and failed ids |
| AdminProducts.SyncAll | web_admin_api.py:1047-1094 | the loop's totals are `SyncFrom` the first page |
| AdminProducts.SyncBounded | web_admin_api.py:1050-1094 | the sync fetches between one and ten pages; an error or an empty page is the only one fetched and syncs nothing, and so is a short first page |
| AdminProducts.SyncedOfMembers | web_admin_api.py:1076-1084 | an id is synced (failed) iff it is non-empty and an item with it synced (failed) |
| AdminProducts.SyncedFromFetched | web_admin_api.py:1047-1094 | every synced or failed id comes from a page the loop fetched |
| AdminPrompts.ValidatePrompt | web_admin_api.py:641-656 | valid iff there are no errors, iff the text has at least 10 characters and a price prompt has `{price}`; each error and warning appears iff its rule fails, the title warning comes first, and there are never suggestions |
| AdminPrompts.Placeholder | web_admin_api.py:609 | a placeholder is the key with `{` before and `}` after it |
| AdminPrompts.PreviewPrompt | web_admin_api.py:604-619 | the loop's preview, variables and word count are the substituted text, the used variables and the text's length |
| AdminPrompts.VariablesKeys | web_admin_api.py:608-612 | a variable is reported iff its placeholder occurs in the template and the info has the key |
| AdminPrompts.VariablesValues | web_admin_api.py:608-612 | with distinct keys, each reported variable has its info value as text |
| AdminPrompts.PreviewUnchanged | web_admin_api.py:608-612 | a template with no placeholders previews unchanged with no variables |
| Prompts.MergeSettings | product_prompt_manager.py:48-57 | custom settings override the defaults, key by key, and defaults fill the rest |
| Prompts.ItemFile | product_prompt_manager.py:95 | the prompt file name is the item id, `_`, the prompt type and `.txt` |
| Prompts.DefaultPrompt | product_prompt_manager.py:230-240 | a known type whose default file exists reads it, stripped; a known type without its file and an unknown type use the built-in fallback sentence |
| Prompts.InputOf | product_prompt_manager.py:43-57 | present title, description and sold price are copied, missing ones take "商品", "" and 0, and the settings are the merged ones |
| Prompts.Generated | product_prompt_manager.py:60-64 | creation generates exactly the three prompt types, and fails iff one of the three generators raises |
| Prompts.Lookup | product_prompt_manager.py:79-111 | the lookup returns `PromptFor` and leaves the cache as `CacheAfterGet` |
| Prompts.PromptFor | product_prompt_manager.py:79-111 | the answer of a lookup; its cases are stated by `CachedIgnoresFiles`, `UncachedFile` and `UncachedDefault` |
| Prompts.CacheAfterGet | product_prompt_manager.py:91-106 | the cache after a lookup; its cases are stated by the same three lemmas |
| Prompts.PromptManager.constructor | product_prompt_manager.py:15-30 | a new manager starts with an empty cache |
| Prompts.PromptManager.GetProductPrompt | product_prompt_manager.py:79-111 | the answer is `PromptFor` the old cache; the cache becomes `CacheAfterGet` and files are untouched |
| Prompts.PromptManager.CreateProductPrompt | product_prompt_manager.py:32-77 | it reports success iff no generator raises; then it caches the generated prompts, writes one file per type and records the config; on failure no file, config or cache entry changes |
| Prompts.PromptManager.DeleteProductPrompt | product_prompt_manager.py:259-282 | deletion drops the item's cache entry, its three prompt files and its config |
| Prompts.ItemFiles | product_prompt_manager.py:263-266 | deletion's file set never includes the classify file |
| Prompts.CachedIgnoresFiles | product_prompt_manager.py:91-92 | a cached item is answered from the cache alone, "" for a type it lacks, and the cache stays |
| Prompts.UncachedFile | product_prompt_manager.py:95-106 | an uncached item with a file is answered with the stripped file and cached under that type |
| Prompts.UncachedDefault | product_prompt_manager.py:110-111 | an uncached item without a file gets the default and the cache stays |
| Prompts.GetStable | product_prompt_manager.py:79-111 | asking twice gives the same answer |
| Prompts.PartialCacheHidesFiles | product_prompt_manager.py:91-106 | once one type was loaded from its file, other types of that item answer "" even if their files exist |
| Prompts.AfterCreate | product_prompt_manager.py:60-70 | after a successful creation each generated type answers its generated text, and classify answers "" |
| Prompts.AfterDelete | product_prompt_manager.py:259-282 | after deletion the generated types fall back to files or defaults, and an existing classify file still answers |

## Left out

- Websocket I/O, `asyncio` scheduling and concurrency between the heartbeat, token and receive tasks: the loops are modelled one event at a time over a sequence of events.
- Message signing, `generate_mid`, `generate_device_id`, base64 and the decryption of sync payloads: decryption is a parameter and the other helpers are not modelled.
- JSON parsing and serialisation: frames and replies are datatypes, and a decrypted payload that is not an object is modelled as a message without field "1".
- Sleeps and the random back-off (`random.uniform`, `get_smart_delay`): pauses are reported as ranges (`TokenRetryPause`), not taken.
- Persistence: the SQLite branches of the context and delivery stores, the JSON files they write, and the file reads on start-up. Only the in-memory (file-mode) behaviour is modelled.
- Session.XianyuLive.Reply: the reply generator and its intent are a parameter; its prompt prose is not modelled.
- Prompts.Generated: derived only from the generator parameter; the three prompt template texts are not reproduced, so which settings make a template raise (a text `max_discount`, say, that `int(... * 100)` rejects) is left to the parameter, which answers None for them. Failures while writing the files are not modelled.
- `list_product_prompts` lists a directory and reads JSON files, so it is not part of this model.
- `update_env_cookies` writes the `.env` file on disk and is not modelled; the `.env` text transformation of `_update_env_file` is modelled as `UpdateEnv`.
- AdminCookies.UpdateEnv: the replacement value is treated literally; Python's `re.sub` would interpret backslash escapes in it.
- `_get_env_file_modified_time` reads file metadata; it is not modelled.
- The per-item branch of the sync handler, `_sync_single_item`, is not modelled. For each listed item its outcome (synced or failed) is an input.
- The delivery success rate is floating point and is left out of `Delivery.StatsOf`.
- Delivery.SaveEntry: update and creation times take one clock reading, where the code reads the clock twice.
- A reply whose body is not a JSON object sets no cookies in the model; the code would still store any `Set-Cookie` it carried.
- Float arithmetic in the admin product price conversion, and every other handler of the admin service not listed above (they only wrap storage calls in HTTP responses).
- Common.Scalar: JSON values are text or integers only; `str()` of a float (a price such as 99.9), a boolean or `None` is not modelled, so the item description, the template price and the preview variables cover only text and integer values.
- Context.BoundedDeque: a stand-alone ring-buffer refinement of `deque(maxlen=…)`; `ChatContextManager` keeps each history as a sequence updated by `BoundedAppend`, which the ring buffer is proved to implement.
- AdminProducts.MatchingCorrect and AdminProducts.Keep: the keyword filter lowers ASCII letters only; Python's `lower()` also folds other Unicode letters, so the model may miss a match that differs from the keyword only in non-ASCII case.
- Delivery.DeliveryManager.SaveConfig: stores the corrected `SaveEntry`, which keeps the first `created_at`; the code as written re-stamps it on every save (see Findings and `Delivery.SaveEntryAsWritten`).
- Delivery.DeliveryManager.DecreaseStock: the re-save after taking stock uses the corrected `SaveEntry`, so `created_at` is kept where the code as written re-stamps it.
- Delivery.ResaveKeepsEntry: holds for the corrected `SaveEntry` only; for the code as written `Delivery.CreatedAtRestamped` shows that a re-save also moves `created_at`.
- Delivery.TemplateFillsContent, Delivery.TemplateFillsCode, Delivery.TemplateTitleNeedsItem and Delivery.TemplatePriceNeedsItem: stated for templates and values without `{`, because the replacements run one after another and a value may itself contain a later placeholder (`Common.ReplaceMayLeavePattern` shows one pass can even assemble a new one).
- Delivery.NetdiskWithoutCode: assumes the delivery content does not contain the first character of the extraction-code line.
- Apis.Store: a cookie's slot is its name and domain; the path is not modelled, and the jar keeps insertion order where `requests` iterates it sorted by domain, path and name, so "first" and "last" in `FirstCookie` and `Dedupe` refer to insertion order.
- Apis.LoginAtMostTwice: the two-attempt iff is stated when the first reply leaves no conflicting login cookie; when it does (two cookies of one name in different domains), the second attempt fails without a request, as the code's lookup raises.

## Findings

| source | as written | input that shows it | evidently intended | confidence | as-written member | corrected member |
|---|---|---|---|---|---|---|
| delivery_manager.py:195-208 | the config is replaced by a fresh dict before the "first time only" guard, so `created_at` is re-stamped on every save | save the same item at t0, then again at t1: the creation time becomes t1 | `created_at` is set on the first save and kept on later ones | not executed | Delivery.SaveEntryAsWritten, Delivery.CreatedAtRestamped | Delivery.SaveEntry |
