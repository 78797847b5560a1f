/** The HTTP side of the bot (`XianyuApis`): the cookie jar and its
    de-duplication, the signing token taken from the `_m_h5_tk` cookie, the
    classification of a response's `ret` array, and the bounded retry
    ladders of the token, login, item-detail and item-list calls.

    A request is not sent: each call of the ladder takes the next element of
    a finite sequence of replies, so running out of replies is an outcome of
    its own (`OutOfInput`). A response cookie replaces the jar's cookie of
    the same name and domain or is added at the end; the jar is a sequence
    in insertion order. Request signing is not interpreted;
    only the token fed to it is modelled. */
module Apis {
  import opened Common

  datatype Cookie = Cookie(name: string, value: string, domain: string)

  // ---------------------------------------------------------------------
  // The cookie jar
  // ---------------------------------------------------------------------

  function NamesOf(jar: seq<Cookie>): set<string> {
    set c | c in jar :: c.name
  }

  predicate DistinctNames(jar: seq<Cookie>) {
    forall i, j :: 0 <= i < j < |jar| ==> jar[i].name != jar[j].name
  }

  function Reverse<T>(s: seq<T>): (r: seq<T>)
    ensures |r| == |s|
    ensures forall i :: 0 <= i < |s| ==> r[i] == s[|s| - 1 - i]
  {
    if s == [] then [] else Reverse(s[1..]) + [s[0]]
  }

  /** The first cookie of the jar with the given name. */
  function FirstCookie(jar: seq<Cookie>, name: string): (r: Option<Cookie>)
    ensures r.Some? ==> r.value in jar && r.value.name == name
    ensures r.None? <==> name !in NamesOf(jar)
  {
    if jar == [] then None
    else if jar[0].name == name then Some(jar[0])
    else
      assert forall c :: c in jar ==> c == jar[0] || c in jar[1..];
      FirstCookie(jar[1..], name)
  }

  /** The cookie found sits at a position no earlier cookie of that name
      precedes. */
  lemma {:induction false} FirstCookieIsFirst(jar: seq<Cookie>, name: string)
    requires FirstCookie(jar, name).Some?
    ensures exists i :: 0 <= i < |jar| && jar[i] == FirstCookie(jar, name).value &&
                        forall j :: 0 <= j < i ==> jar[j].name != name
    decreases |jar|
  {
    if jar[0].name != name {
      FirstCookieIsFirst(jar[1..], name);
      var i :| 0 <= i < |jar[1..]| && jar[1..][i] == FirstCookie(jar[1..], name).value &&
               forall j :: 0 <= j < i ==> jar[1..][j].name != name;
      assert jar[i + 1] == FirstCookie(jar, name).value;
      assert forall j :: 0 <= j < i + 1 ==> jar[j].name != name by {
        forall j | 0 <= j < i + 1 ensures jar[j].name != name {
          if j > 0 { assert jar[j] == jar[1..][j - 1]; }
        }
      }
    } else {
      assert jar[0] == FirstCookie(jar, name).value;
    }
  }

  /** The last cookie of the jar with the given name. */
  function LastCookie(jar: seq<Cookie>, name: string): Option<Cookie> {
    if jar == [] then None
    else if jar[|jar| - 1].name == name then Some(jar[|jar| - 1])
    else LastCookie(jar[..|jar| - 1], name)
  }

  /** How many cookies of the jar carry the given name. */
  function NameCount(jar: seq<Cookie>, name: string): (n: nat)
    ensures n == 0 <==> name !in NamesOf(jar)
  {
    if jar == [] then 0
    else
      assert forall c :: c in jar ==> c == jar[0] || c in jar[1..];
      (if jar[0].name == name then 1 else 0) + NameCount(jar[1..], name)
  }

  /** The cookies kept when the jar is scanned in order and a cookie is
      added only if no kept cookie has its name yet. */
  function KeepFirst(s: seq<Cookie>): seq<Cookie>
  {
    if s == [] then []
    else
      var kept := KeepFirst(s[..|s| - 1]);
      var c := s[|s| - 1];
      if c.name in NamesOf(kept) then kept else kept + [c]
  }

  /** `clear_duplicate_cookies`: the jar scanned newest first, one cookie
      per name. */
  function Dedupe(jar: seq<Cookie>): seq<Cookie> {
    KeepFirst(Reverse(jar))
  }

  lemma NamesAppend(s: seq<Cookie>, c: Cookie)
    ensures NamesOf(s + [c]) == NamesOf(s) + {c.name}
  {
    assert forall x :: x in s + [c] <==> x in s || x == c;
  }

  lemma FirstCookieAppend(s: seq<Cookie>, c: Cookie, name: string)
    ensures FirstCookie(s + [c], name) ==
            if FirstCookie(s, name).Some? then FirstCookie(s, name)
            else if c.name == name then Some(c) else None
  {
    if s != [] {
      assert (s + [c])[1..] == s[1..] + [c];
      FirstCookieAppend(s[1..], c, name);
    }
  }

  /** The scan keeps every name once, and nothing else. */
  lemma {:induction false} KeepFirstNames(s: seq<Cookie>)
    ensures NamesOf(KeepFirst(s)) == NamesOf(s)
    ensures DistinctNames(KeepFirst(s))
    decreases |s|
  {
    if s != [] {
      var init := s[..|s| - 1];
      var c := s[|s| - 1];
      assert s == init + [c];
      KeepFirstNames(init);
      NamesAppend(init, c);
      if c.name !in NamesOf(KeepFirst(init)) {
        NamesAppend(KeepFirst(init), c);
      }
    }
  }

  /** Each kept cookie is the first of its name in the scanned order. */
  lemma {:induction false} KeepFirstIsFirst(s: seq<Cookie>)
    ensures forall c :: c in KeepFirst(s) ==> FirstCookie(s, c.name) == Some(c)
    decreases |s|
  {
    if s != [] {
      var init := s[..|s| - 1];
      var last := s[|s| - 1];
      assert s == init + [last];
      KeepFirstIsFirst(init);
      KeepFirstNames(init);
      forall c | c in KeepFirst(s) ensures FirstCookie(s, c.name) == Some(c) {
        FirstCookieAppend(init, last, c.name);
        if c !in KeepFirst(init) {
          assert c == last && last.name !in NamesOf(KeepFirst(init));
        }
      }
    }
  }

  lemma {:induction false} FirstOfReverse(jar: seq<Cookie>, name: string)
    ensures FirstCookie(Reverse(jar), name) == LastCookie(jar, name)
    decreases |jar|
  {
    if jar != [] {
      var init := jar[..|jar| - 1];
      var last := jar[|jar| - 1];
      assert Reverse(jar) == [last] + Reverse(init);
      assert Reverse(jar)[1..] == Reverse(init);
      FirstOfReverse(init, name);
    }
  }

  lemma ReverseNames(jar: seq<Cookie>)
    ensures NamesOf(Reverse(jar)) == NamesOf(jar)
  {
    var r := Reverse(jar);
    forall n | n in NamesOf(jar) ensures n in NamesOf(r) {
      var c :| c in jar && c.name == n;
      var i :| 0 <= i < |jar| && jar[i] == c;
      assert r[|jar| - 1 - i] == c;
    }
    forall n | n in NamesOf(r) ensures n in NamesOf(jar) {
      var c :| c in r && c.name == n;
      var i :| 0 <= i < |r| && r[i] == c;
    }
  }

  /** After de-duplication the jar holds one cookie per name, every name of
      the jar is still there, and the cookie kept for a name is its last
      occurrence in the jar. */
  lemma DedupeCorrect(jar: seq<Cookie>)
    ensures DistinctNames(Dedupe(jar))
    ensures NamesOf(Dedupe(jar)) == NamesOf(jar)
    ensures forall c :: c in Dedupe(jar) ==> LastCookie(jar, c.name) == Some(c)
  {
    KeepFirstNames(Reverse(jar));
    ReverseNames(jar);
    KeepFirstIsFirst(Reverse(jar));
    forall c | c in Dedupe(jar) ensures LastCookie(jar, c.name) == Some(c) {
      FirstOfReverse(jar, c.name);
    }
  }

  // ---------------------------------------------------------------------
  // Cookie lookup and the signing token
  // ---------------------------------------------------------------------

  /** The result of `jar.get(name, default)`: a name carried by more than
      one cookie raises a conflict instead of answering. */
  datatype Lookup = Missing | Found(value: string) | Conflict

  function JarGet(jar: seq<Cookie>, name: string): (r: Lookup)
    ensures r.Missing? <==> name !in NamesOf(jar)
    ensures r.Found? ==> NameCount(jar, name) == 1 && r.value == FirstCookie(jar, name).value.value
    ensures r.Conflict? <==> NameCount(jar, name) > 1
  {
    var n := NameCount(jar, name);
    if n == 0 then Missing
    else if n == 1 then Found(FirstCookie(jar, name).value.value)
    else Conflict
  }

  /** The value of the first cookie with that name (`get_user_items`' scan
      of the jar). */
  function FirstValue(jar: seq<Cookie>, name: string): Option<string> {
    match FirstCookie(jar, name)
    case None => None
    case Some(c) => Some(c.value)
  }

  /** The part of a `_m_h5_tk` value before its first `_`. */
  function TokenOf(v: string): (r: string)
    ensures StartsWith(v, r) && !Contains(r, "_")
    ensures !Contains(v, "_") ==> r == v
    ensures Contains(v, "_") ==> |r| < |v| && v[|r|] == '_'
  {
    Before(v, "_")
  }

  /** The token that signs a request, read with `jar.get('_m_h5_tk', '')`:
      `None` when the lookup raises a conflict. */
  function SignToken(jar: seq<Cookie>): Option<string> {
    match JarGet(jar, "_m_h5_tk")
    case Missing => Some(TokenOf(""))
    case Found(v) => Some(TokenOf(v))
    case Conflict => None
  }

  /** The token read by scanning the jar for the first `_m_h5_tk`. */
  function ScanToken(jar: seq<Cookie>): string {
    match FirstValue(jar, "_m_h5_tk")
    case None => ""
    case Some(v) => TokenOf(v)
  }

  lemma {:induction false} CountDistinct(jar: seq<Cookie>, name: string)
    requires DistinctNames(jar)
    ensures NameCount(jar, name) <= 1
    decreases |jar|
  {
    if jar != [] {
      assert DistinctNames(jar[1..]);
      CountDistinct(jar[1..], name);
      if jar[0].name == name {
        assert name !in NamesOf(jar[1..]) by {
          forall c | c in jar[1..] ensures c.name != name {
            var i :| 0 <= i < |jar[1..]| && jar[1..][i] == c;
            assert jar[i + 1] == c;
          }
        }
      }
    }
  }

  /** Absent a `_m_h5_tk` cookie the token is empty. Once the jar has been
      de-duplicated the lookup never conflicts, both ways of reading the
      token agree, and the token comes from the newest `_m_h5_tk` cookie. */
  lemma TokenAfterDedupe(jar: seq<Cookie>)
    ensures "_m_h5_tk" !in NamesOf(jar) ==> SignToken(Dedupe(jar)) == Some("")
    ensures SignToken(Dedupe(jar)) == Some(ScanToken(Dedupe(jar)))
    ensures "_m_h5_tk" in NamesOf(jar) ==>
              LastCookie(jar, "_m_h5_tk").Some? &&
              ScanToken(Dedupe(jar)) == TokenOf(LastCookie(jar, "_m_h5_tk").value.value)
  {
    var d := Dedupe(jar);
    DedupeCorrect(jar);
    CountDistinct(d, "_m_h5_tk");
    assert !Contains("", "_");
    if "_m_h5_tk" in NamesOf(jar) {
      var c := FirstCookie(d, "_m_h5_tk").value;
      assert LastCookie(jar, c.name) == Some(c);
    }
  }

  /** A jar with two cookies of one name answers a lookup of it with a
      conflict, which is why the jar is cleaned before tokens are read. */
  lemma DuplicateConflicts(a: Cookie, b: Cookie, rest: seq<Cookie>)
    requires a.name == b.name
    ensures JarGet([a, b] + rest, a.name) == Conflict
  {
    var jar := [a, b] + rest;
    assert jar[1..] == [b] + rest;
    assert jar[1..][1..] == rest;
  }

  /** The jar of the API session, which `clear_duplicate_cookies` replaces. */
  class ApiSession {
    var cookies: seq<Cookie>

    constructor(jar: seq<Cookie>)
      ensures cookies == jar
    {
      cookies := jar;
    }

    /** Walk the jar newest first and keep a cookie only if its name has not
        been added yet. */
    method ClearDuplicateCookies()
      modifies this
      ensures cookies == Dedupe(old(cookies))
    {
      var list := Reverse(cookies);
      var jar: seq<Cookie> := [];
      var added: set<string> := {};
      var i := 0;
      while i < |list|
        invariant 0 <= i <= |list|
        invariant jar == KeepFirst(list[..i])
        invariant added == NamesOf(jar)
      {
        var c := list[i];
        assert list[..i + 1][..i] == list[..i];
        if c.name !in added {
          NamesAppend(jar, c);
          jar := jar + [c];
          added := added + {c.name};
        }
        i := i + 1;
      }
      assert list[..|list|] == list;
      cookies := jar;
    }

    /** Scan the jar for the first cookie with that name. */
    method FindCookie(name: string) returns (r: Option<string>)
      ensures r == FirstValue(cookies, name)
    {
      var i := 0;
      r := None;
      while i < |cookies|
        invariant 0 <= i <= |cookies|
        invariant FirstValue(cookies, name) == FirstValue(cookies[i..], name)
      {
        if cookies[i].name == name {
          assert cookies[i..][0] == cookies[i];
          r := Some(cookies[i].value);
          return;
        }
        assert cookies[i..][1..] == cookies[i + 1..];
        i := i + 1;
      }
    }
  }

  // ---------------------------------------------------------------------
  // The `ret` array
  // ---------------------------------------------------------------------

  const Success: string := "SUCCESS::调用成功"
  const Protection: string := "RGV587_ERROR::SM"

  /** The token and item-detail calls succeed when some entry carries the
      full success code. */
  predicate IsSuccess(ret: seq<string>) {
    exists i :: 0 <= i < |ret| && Contains(ret[i], Success)
  }

  /** The item-list call is content with the bare word. */
  predicate IsListSuccess(ret: seq<string>) {
    exists i :: 0 <= i < |ret| && Contains(ret[i], "SUCCESS")
  }

  predicate IsProtection(ret: seq<string>) {
    exists i :: 0 <= i < |ret| && Contains(ret[i], Protection)
  }

  /** What counts as success for the token call counts for the list call. */
  lemma SuccessIsListSuccess(ret: seq<string>)
    requires IsSuccess(ret)
    ensures IsListSuccess(ret)
  {
    var i :| 0 <= i < |ret| && Contains(ret[i], Success);
    assert Success == "SUCCESS" + "::调用成功";
    assert Contains(Success, "SUCCESS") by {
      assert OccursAt(Success, "SUCCESS", 0);
      ContainsAt(Success, "SUCCESS", 0);
    }
    ContainsTransitive(ret[i], Success, "SUCCESS");
  }

  /** The range, in whole seconds, of the randomised pause before the next
      token attempt: longer when protection was triggered. */
  function TokenRetryPause(ret: seq<string>, retry: nat): (r: (int, int))
    ensures r.0 < r.1
    ensures IsProtection(ret) ==> r.0 == 5 * (retry + 1) && r.1 == r.0 + 10
    ensures !IsProtection(ret) ==> r.0 == 2 * (retry + 1) && r.1 == r.0 + 2
  {
    if IsProtection(ret) then (5 + retry * 5, 15 + retry * 5) else (2 + retry * 2, 4 + retry * 2)
  }

  /** Every protection pause is at least as long as any ordinary one at the
      same retry count, and both grow with the retry count. */
  lemma ProtectionPausesLonger(a: seq<string>, b: seq<string>, retry: nat)
    requires IsProtection(a) && !IsProtection(b)
    ensures TokenRetryPause(a, retry).0 >= TokenRetryPause(b, retry).1
    ensures TokenRetryPause(a, retry + 1).0 > TokenRetryPause(a, retry).0
    ensures TokenRetryPause(b, retry + 1).0 > TokenRetryPause(b, retry).0
  {
  }

  // ---------------------------------------------------------------------
  // Replies and the retry ladders
  // ---------------------------------------------------------------------

  /** One reply: the request raised (network or decoding error), the body
      was not a JSON object, or it was one. `loginOk` is the truth of
      `content.success` (login replies), `ret` the `ret` array (API
      replies), `setCookies` the cookies it set (so `Set-Cookie` was present
      iff it is non-empty). */
  datatype Reply =
    | Raised
    | NotDict
    | Json(ret: seq<string>, loginOk: bool, setCookies: seq<Cookie>)

  /** Two cookies the jar files in the same place. */
  predicate SameSlot(a: Cookie, b: Cookie) {
    a.name == b.name && a.domain == b.domain
  }

  /** Where the jar files a cookie: the first cookie with the same name and
      domain. */
  function SlotIndex(jar: seq<Cookie>, c: Cookie): (r: Option<nat>)
    ensures r.Some? ==> r.value < |jar| && SameSlot(jar[r.value], c)
    ensures r.Some? ==> forall j :: 0 <= j < r.value ==> !SameSlot(jar[j], c)
    ensures r.None? ==> forall j :: 0 <= j < |jar| ==> !SameSlot(jar[j], c)
  {
    if jar == [] then None
    else if SameSlot(jar[0], c) then Some(0)
    else match SlotIndex(jar[1..], c)
      case None => None
      case Some(k) => Some(k + 1)
  }

  /** Storing one response cookie: it takes the place of the cookie with
      the same name and domain, or goes at the end of the jar. */
  function Store(jar: seq<Cookie>, c: Cookie): seq<Cookie> {
    match SlotIndex(jar, c)
    case None => jar + [c]
    case Some(i) => jar[i := c]
  }

  /** The stored cookie is in the jar, every other cookie of the jar stays,
      and nothing else comes in; the jar grows only when the slot was
      empty. */
  lemma StoreSlot(jar: seq<Cookie>, c: Cookie)
    ensures var r := Store(jar, c);
            c in r && (forall x :: x in r ==> x == c || x in jar) &&
            (forall x :: x in jar && !SameSlot(x, c) ==> x in r)
    ensures SlotIndex(jar, c).Some? ==>
              |Store(jar, c)| == |jar| && Store(jar, c)[SlotIndex(jar, c).value] == c
    ensures SlotIndex(jar, c).None? ==> Store(jar, c) == jar + [c]
  {
    if SlotIndex(jar, c).Some? {
      var i := SlotIndex(jar, c).value;
      var r := Store(jar, c);
      assert r == jar[i := c];
      forall x | x in jar && !SameSlot(x, c) ensures x in r {
        var j :| 0 <= j < |jar| && jar[j] == x;
        assert r[j] == x;
      }
      forall x | x in r ensures x == c || x in jar {
        var j :| 0 <= j < |jar| && r[j] == x;
        if j != i { assert jar[j] == x; }
      }
      assert r[i] == c;
    }
  }

  /** The jar after a reply's cookies are stored, one after the other. */
  function StoreAll(jar: seq<Cookie>, cs: seq<Cookie>): seq<Cookie>
    decreases |cs|
  {
    if cs == [] then jar else StoreAll(Store(jar, cs[0]), cs[1..])
  }

  /** The jar after a reply's cookies are stored. */
  function Absorb(jar: seq<Cookie>, r: Reply): seq<Cookie> {
    if r.Json? then StoreAll(jar, r.setCookies) else jar
  }

  /** A response that sets again the cookie the jar already holds replaces
      it instead of adding a second copy. */
  lemma StoreReplaces(c: Cookie, v: string)
    ensures Store([c], c.(value := v)) == [c.(value := v)]
    ensures Absorb([c], Json([], false, [c.(value := v)])) == [c.(value := v)]
  {
    var d := c.(value := v);
    assert SlotIndex([c], d) == Some(0);
    assert Store([c], d) == [d];
    assert StoreAll([c], [d]) == StoreAll([d], [d][1..]);
    assert [d][1..] == [];
  }

  /** The jar after a failed API reply: cookies stored and, if any were
      set, de-duplicated. */
  function AfterFailure(jar: seq<Cookie>, r: Reply): seq<Cookie> {
    if r.Json? && |r.setCookies| > 0 then Dedupe(Absorb(jar, r)) else Absorb(jar, r)
  }

  /** `hasLogin` reads these cookies inside its `try`, so a conflict on any
      of them fails the attempt without sending a request. */
  predicate LoginFieldsConflict(jar: seq<Cookie>) {
    JarGet(jar, "unb").Conflict? || JarGet(jar, "XSRF-TOKEN").Conflict? ||
    JarGet(jar, "cookie2").Conflict? || JarGet(jar, "cna").Conflict?
  }

  /** `ok` is `None` when the replies ran out before a verdict. */
  datatype Login = Login(ok: Option<bool>, used: nat, jar: seq<Cookie>)

  /** `hasLogin(retry_count)` */
  function HasLogin(jar: seq<Cookie>, replies: seq<Reply>, retry: nat): (r: Login)
    ensures r.used <= |replies|
    ensures r.ok == Some(true) ==> r.used >= 1
    decreases if retry >= 2 then 0 else 2 - retry
  {
    if retry >= 2 then Login(Some(false), 0, jar)
    else if LoginFieldsConflict(jar) then HasLogin(jar, replies, retry + 1)
    else if replies == [] then Login(None, 0, jar)
    else if replies[0].Json? && replies[0].loginOk then
      Login(Some(true), 1, Dedupe(Absorb(jar, replies[0])))
    else
      var t := HasLogin(Absorb(jar, replies[0]), replies[1..], retry + 1);
      Login(t.ok, t.used + 1, t.jar)
  }

  predicate LoginAccepted(r: Reply) {
    r.Json? && r.loginOk
  }

  /** A login makes at most two attempts: with a jar free of conflicts and
      two replies at hand it succeeds iff one of the first two replies
      accepts it, using the reply that did; a conflicting jar fails it
      without any request. A successful login leaves a de-duplicated jar. */
  lemma LoginAtMostTwice(jar: seq<Cookie>, replies: seq<Reply>)
    ensures HasLogin(jar, replies, 0).used <= 2
    ensures LoginFieldsConflict(jar) ==> HasLogin(jar, replies, 0) == Login(Some(false), 0, jar)
    ensures !LoginFieldsConflict(jar) && |replies| >= 1 && LoginAccepted(replies[0]) ==>
              HasLogin(jar, replies, 0).ok == Some(true) && HasLogin(jar, replies, 0).used == 1
    ensures !LoginFieldsConflict(jar) && |replies| >= 2 && !LoginFieldsConflict(Absorb(jar, replies[0])) ==>
              HasLogin(jar, replies, 0).ok == Some(LoginAccepted(replies[0]) || LoginAccepted(replies[1]))
    ensures HasLogin(jar, replies, 0).ok == Some(true) ==>
              DistinctNames(HasLogin(jar, replies, 0).jar)
  {
    var r := HasLogin(jar, replies, 0);
    if r.ok == Some(true) {
      if !LoginFieldsConflict(jar) && LoginAccepted(replies[0]) {
        DedupeCorrect(Absorb(jar, replies[0]));
      } else if !LoginFieldsConflict(jar) {
        DedupeCorrect(Absorb(Absorb(jar, replies[0]), replies[1]));
      } else {
        assert false;
      }
    }
  }

  /** A rejected login that sets again the one cookie the jar holds, with
      any value, leaves one copy of it, so the second attempt goes ahead and
      can succeed. */
  lemma LoginRetryAfterResetCookie(c: Cookie, v: string)
    ensures var d := c.(value := v);
            HasLogin([c], [Json([], false, [d]), Json([], true, [])], 0) == Login(Some(true), 2, [d])
  {
    var d := c.(value := v);
    var replies := [Json([], false, [d]), Json([], true, [])];
    StoreReplaces(c, v);
    assert Absorb([c], replies[0]) == [d];
    assert Absorb([d], replies[1]) == [d];
    assert forall name :: NameCount([c], name) <= 1 && NameCount([d], name) <= 1;
    assert !LoginFieldsConflict([c]) && !LoginFieldsConflict([d]);
    assert Reverse([d]) == [d];
    assert KeepFirst([d]) == [d] by {
      assert [d][..0] == [];
    }
    assert replies[1..][0] == replies[1];
  }

  /** How a ladder ended: with the reply's `ret` array, with an error
      object, with `sys.exit(1)`, with a cookie conflict raised out of the
      call, or with no reply left. */
  datatype Outcome = Done(ret: seq<string>) | Failed(error: string) | Fatal | Conflicted | OutOfInput

  datatype Ladder = Ladder(outcome: Outcome, used: nat, jar: seq<Cookie>)

  /** `get_token(device_id, retry_count)`: two failed attempts escalate to a
      login, which either restarts the ladder at 0 or ends the program. */
  function GetToken(jar: seq<Cookie>, replies: seq<Reply>, retry: nat): (r: Ladder)
    ensures r.used <= |replies|
    decreases |replies|, if retry >= 2 then 0 else 3 - retry
  {
    if retry >= 2 then
      var l := HasLogin(jar, replies, 0);
      match l.ok
      case None => Ladder(OutOfInput, l.used, l.jar)
      case Some(false) => Ladder(Fatal, l.used, l.jar)
      case Some(true) =>
        var t := GetToken(l.jar, replies[l.used..], 0);
        Ladder(t.outcome, l.used + t.used, t.jar)
    else if SignToken(jar).None? then Ladder(Conflicted, 0, jar)
    else if replies == [] then Ladder(OutOfInput, 0, jar)
    else
      var reply := replies[0];
      if reply.Json? && IsSuccess(reply.ret) then Ladder(Done(reply.ret), 1, Absorb(jar, reply))
      else
        var t := GetToken(AfterFailure(jar, reply), replies[1..], retry + 1);
        Ladder(t.outcome, t.used + 1, t.jar)
  }

  /** A reply the token, detail and list calls treat as a failure with no
      effect on the jar. */
  predicate PlainFailure(r: Reply) {
    r.Raised? || r.NotDict? || (r.Json? && |r.setCookies| == 0 && !IsListSuccess(r.ret))
  }

  lemma PlainFailureFails(jar: seq<Cookie>, r: Reply)
    requires PlainFailure(r)
    ensures !(r.Json? && IsSuccess(r.ret)) && AfterFailure(jar, r) == jar
  {
    if r.Json? && IsSuccess(r.ret) {
      SuccessIsListSuccess(r.ret);
    }
  }

  /** A successful outcome of `r` is the successful `ret` of the last reply
      it used. */
  predicate DoneByReply(r: Ladder, replies: seq<Reply>) {
    r.outcome.Done? ==> 1 <= r.used <= |replies| && replies[r.used - 1].Json? &&
                        replies[r.used - 1].ret == r.outcome.ret && IsSuccess(r.outcome.ret)
  }

  /** A ladder run on the replies after the first `k` still ends on its own
      last reply once those `k` are counted as used. */
  lemma DoneByReplyShift(t: Ladder, replies: seq<Reply>, k: nat)
    requires k <= |replies| && DoneByReply(t, replies[k..])
    ensures DoneByReply(Ladder(t.outcome, k + t.used, t.jar), replies)
  {
    if t.outcome.Done? {
      assert replies[k..][t.used - 1] == replies[k + t.used - 1];
    }
  }

  /** A token ladder ends in success only with a successful `ret`, taken
      from the last reply it used. */
  lemma {:induction false} TokenDoneIsSuccess(jar: seq<Cookie>, replies: seq<Reply>, retry: nat)
    ensures DoneByReply(GetToken(jar, replies, retry), replies)
    decreases |replies|, if retry >= 2 then 0 else 3 - retry
  {
    if retry >= 2 {
      var l := HasLogin(jar, replies, 0);
      if l.ok == Some(true) {
        var t := GetToken(l.jar, replies[l.used..], 0);
        assert GetToken(jar, replies, retry) == Ladder(t.outcome, l.used + t.used, t.jar);
        TokenDoneIsSuccess(l.jar, replies[l.used..], 0);
        DoneByReplyShift(t, replies, l.used);
      }
    } else if SignToken(jar).Some? && replies != [] {
      var reply := replies[0];
      if !(reply.Json? && IsSuccess(reply.ret)) {
        var t := GetToken(AfterFailure(jar, reply), replies[1..], retry + 1);
        assert GetToken(jar, replies, retry) == Ladder(t.outcome, 1 + t.used, t.jar);
        TokenDoneIsSuccess(AfterFailure(jar, reply), replies[1..], retry + 1);
        DoneByReplyShift(t, replies, 1);
      }
    }
  }

  /** Two plain failures and a rejected login end the program; two plain
      failures and an accepted login restart the ladder from retry 0 with
      the de-duplicated jar. Repeating the second pattern keeps the ladder
      going for as long as there are replies. */
  lemma TokenEscalation(jar: seq<Cookie>, f1: Reply, f2: Reply, rest: seq<Reply>)
    requires PlainFailure(f1) && PlainFailure(f2)
    requires SignToken(jar).Some?
    ensures HasLogin(jar, rest, 0).ok == Some(false) ==>
              GetToken(jar, [f1, f2] + rest, 0).outcome == Fatal
    ensures HasLogin(jar, rest, 0).ok == Some(true) ==>
              var l := HasLogin(jar, rest, 0);
              GetToken(jar, [f1, f2] + rest, 0) ==
              var t := GetToken(l.jar, rest[l.used..], 0);
              Ladder(t.outcome, 2 + l.used + t.used, t.jar)
  {
    TwoPlainFailures(jar, f1, f2, rest);
    var l := HasLogin(jar, rest, 0);
    if l.ok == Some(true) {
      var t := GetToken(l.jar, rest[l.used..], 0);
      assert GetToken(jar, rest, 2) == Ladder(t.outcome, l.used + t.used, t.jar);
    }
  }

  /** Two plain failures leave the jar as it is and hand the rest of the
      replies to retry 2. */
  lemma TwoPlainFailures(jar: seq<Cookie>, f1: Reply, f2: Reply, rest: seq<Reply>)
    requires PlainFailure(f1) && PlainFailure(f2)
    requires SignToken(jar).Some?
    ensures var t := GetToken(jar, rest, 2);
            GetToken(jar, [f1, f2] + rest, 0) == Ladder(t.outcome, t.used + 2, t.jar)
  {
    var tail := [f2] + rest;
    assert [f1, f2] + rest == [f1] + tail;
    OnePlainFailure(jar, f1, tail, 0);
    OnePlainFailure(jar, f2, rest, 1);
    var t1, t := GetToken(jar, tail, 1), GetToken(jar, rest, 2);
    assert t1 == Ladder(t.outcome, t.used + 1, t.jar);
  }

  /** A plain failure before retry 2 leaves the jar as it is and moves to
      the next retry on the remaining replies. */
  lemma OnePlainFailure(jar: seq<Cookie>, f: Reply, rest: seq<Reply>, retry: nat)
    requires PlainFailure(f) && retry < 2
    requires SignToken(jar).Some?
    ensures var t := GetToken(jar, rest, retry + 1);
            GetToken(jar, [f] + rest, retry) == Ladder(t.outcome, t.used + 1, t.jar)
  {
    PlainFailureFails(jar, f);
    assert AfterFailure(jar, f) == jar;
    assert ([f] + rest)[0] == f && ([f] + rest)[1..] == rest;
  }

  /** The error texts of the detail and list calls. */
  const ItemInfoRetriesExhausted := "获取商品信息失败，重试次数过多"
  const UserItemsRetriesExhausted := "获取用户商品列表失败，重试次数过多"
  const NoUserId := "无法获取userId"

  /** `get_item_info(item_id, retry_count)`: at most three attempts. */
  function GetItemInfo(jar: seq<Cookie>, replies: seq<Reply>, retry: nat): (r: Ladder)
    ensures r.used <= |replies|
    decreases if retry >= 3 then 0 else 3 - retry
  {
    if retry >= 3 then Ladder(Failed(ItemInfoRetriesExhausted), 0, jar)
    else if SignToken(jar).None? then Ladder(Conflicted, 0, jar)
    else if replies == [] then Ladder(OutOfInput, 0, jar)
    else
      var reply := replies[0];
      if reply.Json? && IsSuccess(reply.ret) then Ladder(Done(reply.ret), 1, Absorb(jar, reply))
      else
        var t := GetItemInfo(AfterFailure(jar, reply), replies[1..], retry + 1);
        Ladder(t.outcome, t.used + 1, t.jar)
  }

  /** The detail call uses at most three replies and succeeds only on a
      successful `ret`. */
  lemma {:induction false} ItemInfoBounded(jar: seq<Cookie>, replies: seq<Reply>, retry: nat)
    requires retry <= 3
    ensures GetItemInfo(jar, replies, retry).used <= 3 - retry
    ensures GetItemInfo(jar, replies, retry).outcome.Done? ==>
              GetItemInfo(jar, replies, retry).used >= 1 &&
              IsSuccess(GetItemInfo(jar, replies, retry).outcome.ret)
    decreases 3 - retry
  {
    if retry < 3 && SignToken(jar).Some? && replies != [] {
      var reply := replies[0];
      if !(reply.Json? && IsSuccess(reply.ret)) {
        ItemInfoBounded(AfterFailure(jar, reply), replies[1..], retry + 1);
      }
    }
  }

  /** A detail call that succeeds returns the `ret` of the last reply it
      used. */
  lemma {:induction false} ItemInfoDoneByReply(jar: seq<Cookie>, replies: seq<Reply>, retry: nat)
    requires retry <= 3
    ensures DoneByReply(GetItemInfo(jar, replies, retry), replies)
    decreases 3 - retry
  {
    if retry < 3 && SignToken(jar).Some? && replies != [] && !(replies[0].Json? && IsSuccess(replies[0].ret)) {
      ItemInfoDoneByReply(AfterFailure(jar, replies[0]), replies[1..], retry + 1);
      ItemInfoFailedStep(jar, replies, retry);
    }
  }

  lemma ItemInfoFailedStep(jar: seq<Cookie>, replies: seq<Reply>, retry: nat)
    requires retry < 3 && SignToken(jar).Some? && replies != []
    requires !(replies[0].Json? && IsSuccess(replies[0].ret))
    requires DoneByReply(GetItemInfo(AfterFailure(jar, replies[0]), replies[1..], retry + 1), replies[1..])
    ensures DoneByReply(GetItemInfo(jar, replies, retry), replies)
  {
    var t := GetItemInfo(AfterFailure(jar, replies[0]), replies[1..], retry + 1);
    assert GetItemInfo(jar, replies, retry) == Ladder(t.outcome, 1 + t.used, t.jar);
    DoneByReplyShift(t, replies, 1);
  }

  /** None of the first `n` replies is a successful one. */
  predicate FirstFailed(replies: seq<Reply>, n: nat)
    requires n <= |replies|
  {
    forall i :: 0 <= i < n ==> !(replies[i].Json? && IsSuccess(replies[i].ret))
  }

  lemma FirstFailedCons(replies: seq<Reply>, n: nat)
    requires 1 <= n <= |replies|
    requires !(replies[0].Json? && IsSuccess(replies[0].ret)) && FirstFailed(replies[1..], n - 1)
    ensures FirstFailed(replies, n)
  {
    forall i | 1 <= i < n ensures !(replies[i].Json? && IsSuccess(replies[i].ret)) {
      assert replies[i] == replies[1..][i - 1];
    }
  }

  /** The detail call gives up with its error object only after three
      failed replies. */
  lemma {:induction false} ItemInfoGivesUp(jar: seq<Cookie>, replies: seq<Reply>, retry: nat)
    requires retry <= 3
    requires GetItemInfo(jar, replies, retry).outcome.Failed?
    ensures GetItemInfo(jar, replies, retry).used == 3 - retry
    ensures 3 - retry <= |replies| && FirstFailed(replies, 3 - retry)
    decreases 3 - retry
  {
    if retry < 3 {
      var reply := replies[0];
      var rest := AfterFailure(jar, reply);
      var t := GetItemInfo(rest, replies[1..], retry + 1);
      assert GetItemInfo(jar, replies, retry) == Ladder(t.outcome, t.used + 1, t.jar);
      ItemInfoGivesUp(rest, replies[1..], retry + 1);
      FirstFailedCons(replies, 3 - retry);
    }
  }

  /** A failed reply never makes the signing token's lookup conflict: the
      jar is either left as it was or de-duplicated. */
  lemma AfterFailureKeepsToken(jar: seq<Cookie>, r: Reply)
    requires SignToken(jar).Some?
    ensures SignToken(AfterFailure(jar, r)).Some?
  {
    if r.Json? && |r.setCookies| > 0 {
      DedupeCorrect(Absorb(jar, r));
      CountDistinct(AfterFailure(jar, r), "_m_h5_tk");
    } else if r.Json? {
      assert Absorb(jar, r) == jar;
    }
  }

  /** Conversely, with a token that can be read, three failed replies end
      the detail call with its error object. */
  lemma {:induction false} ItemInfoFailsAfterThree(jar: seq<Cookie>, replies: seq<Reply>, retry: nat)
    requires retry <= 3 && 3 - retry <= |replies| && FirstFailed(replies, 3 - retry)
    requires SignToken(jar).Some?
    ensures GetItemInfo(jar, replies, retry).outcome == Failed(ItemInfoRetriesExhausted)
    ensures GetItemInfo(jar, replies, retry).used == 3 - retry
    decreases 3 - retry
  {
    if retry < 3 {
      var reply := replies[0];
      AfterFailureKeepsToken(jar, reply);
      assert FirstFailed(replies[1..], 3 - (retry + 1)) by {
        forall i | 0 <= i < 3 - (retry + 1)
          ensures !(replies[1..][i].Json? && IsSuccess(replies[1..][i].ret))
        {
          assert replies[1..][i] == replies[i + 1];
        }
      }
      ItemInfoFailsAfterThree(AfterFailure(jar, reply), replies[1..], retry + 1);
    }
  }

  /** `get_user_items(page, page_size, status, retry_count)`: the user id
      and the token come from a scan of the jar, so no conflict arises. */
  function GetUserItems(jar: seq<Cookie>, replies: seq<Reply>, retry: nat): (r: Ladder)
    ensures r.used <= |replies|
    decreases if retry >= 3 then 0 else 3 - retry
  {
    if retry >= 3 then Ladder(Failed(UserItemsRetriesExhausted), 0, jar)
    else if FirstValue(jar, "unb").None? || FirstValue(jar, "unb") == Some("") then
      Ladder(Failed(NoUserId), 0, jar)
    else if replies == [] then Ladder(OutOfInput, 0, jar)
    else
      var reply := replies[0];
      if reply.Json? && IsListSuccess(reply.ret) then Ladder(Done(reply.ret), 1, Absorb(jar, reply))
      else
        var t := GetUserItems(AfterFailure(jar, reply), replies[1..], retry + 1);
        Ladder(t.outcome, t.used + 1, t.jar)
  }

  /** Without a non-empty `unb` cookie the list call fails at once and uses
      no reply. */
  lemma UserItemsNeedUserId(jar: seq<Cookie>, replies: seq<Reply>, retry: nat)
    requires retry < 3 && (FirstValue(jar, "unb").None? || FirstValue(jar, "unb") == Some(""))
    ensures GetUserItems(jar, replies, retry) == Ladder(Failed(NoUserId), 0, jar)
  {
  }

  /** `r` used at most `n` replies, and a success used one and carries the
      bare success word. */
  predicate ListBounded(r: Ladder, n: int) {
    r.used <= n && (r.outcome.Done? ==> r.used >= 1 && IsListSuccess(r.outcome.ret))
  }

  lemma ListBoundedStep(t: Ladder, n: int)
    requires ListBounded(t, n)
    ensures ListBounded(Ladder(t.outcome, t.used + 1, t.jar), n + 1)
  {
  }

  /** The list call uses at most three replies, and a success carries the
      bare success word. */
  lemma {:induction false} UserItemsBounded(jar: seq<Cookie>, replies: seq<Reply>, retry: nat)
    requires retry <= 3
    ensures ListBounded(GetUserItems(jar, replies, retry), 3 - retry)
    decreases 3 - retry
  {
    if retry < 3 && FirstValue(jar, "unb").Some? && FirstValue(jar, "unb") != Some("") && replies != [] {
      var reply := replies[0];
      if !(reply.Json? && IsListSuccess(reply.ret)) {
        var t := GetUserItems(AfterFailure(jar, reply), replies[1..], retry + 1);
        assert GetUserItems(jar, replies, retry) == Ladder(t.outcome, t.used + 1, t.jar);
        UserItemsBounded(AfterFailure(jar, reply), replies[1..], retry + 1);
        ListBoundedStep(t, 3 - (retry + 1));
      }
    }
  }

  /** None of the first `n` replies carries the bare success word. */
  predicate ListFirstFailed(replies: seq<Reply>, n: nat)
    requires n <= |replies|
  {
    forall i :: 0 <= i < n ==> !(replies[i].Json? && IsListSuccess(replies[i].ret))
  }

  /** The list call gives up with its error object only after three
      replies without the success word. */
  lemma {:induction false} UserItemsGivesUp(jar: seq<Cookie>, replies: seq<Reply>, retry: nat)
    requires retry <= 3
    requires GetUserItems(jar, replies, retry).outcome == Failed(UserItemsRetriesExhausted)
    ensures GetUserItems(jar, replies, retry).used == 3 - retry
    ensures 3 - retry <= |replies| && ListFirstFailed(replies, 3 - retry)
    decreases 3 - retry
  {
    if retry < 3 {
      var reply := replies[0];
      var rest := AfterFailure(jar, reply);
      var t := GetUserItems(rest, replies[1..], retry + 1);
      assert GetUserItems(jar, replies, retry) == Ladder(t.outcome, t.used + 1, t.jar);
      UserItemsGivesUp(rest, replies[1..], retry + 1);
      ListFirstFailedCons(replies, 3 - retry);
    }
  }

  lemma ListFirstFailedCons(replies: seq<Reply>, n: nat)
    requires 1 <= n <= |replies|
    requires !(replies[0].Json? && IsListSuccess(replies[0].ret)) && ListFirstFailed(replies[1..], n - 1)
    ensures ListFirstFailed(replies, n)
  {
    forall i | 1 <= i < n ensures !(replies[i].Json? && IsListSuccess(replies[i].ret)) {
      assert replies[i] == replies[1..][i - 1];
    }
  }

  /** Conversely, with a user id in the jar, three plain failures end the
      list call with its error object and leave the jar as it was. */
  lemma {:induction false} UserItemsFailAfterThree(jar: seq<Cookie>, replies: seq<Reply>, retry: nat)
    requires retry <= 3 && 3 - retry <= |replies|
    requires forall i :: 0 <= i < 3 - retry ==> PlainFailure(replies[i])
    requires FirstValue(jar, "unb").Some? && FirstValue(jar, "unb") != Some("")
    ensures GetUserItems(jar, replies, retry) == Ladder(Failed(UserItemsRetriesExhausted), 3 - retry, jar)
    decreases 3 - retry
  {
    if retry < 3 {
      var reply := replies[0];
      PlainFailureFails(jar, reply);
      forall i | 0 <= i < 3 - (retry + 1) ensures PlainFailure(replies[1..][i]) {
        assert replies[1..][i] == replies[i + 1];
      }
      UserItemsFailAfterThree(jar, replies[1..], retry + 1);
    }
  }
}
