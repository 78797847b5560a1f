/** The cookie helpers of the admin service (`WebAdminAPI`): checking the
    format of a pasted cookie string, the masked preview of the stored one,
    and the upsert of a `key=value` line in the `.env` file, whose text is
    passed in (absent when the file does not exist) and returned. */
module AdminCookies {
  import opened Common

  // ---------------------------------------------------------------------
  // Pairs of a cookie string
  // ---------------------------------------------------------------------

  /** The `;`-separated parts of a cookie string. */
  function Parts(s: string): seq<string> {
    Split(s, ";")
  }

  /** The key of a part that holds an `=`: the stripped part up to its
      first `=`. */
  function PairKey(p: string): Option<string> {
    if Contains(p, "=") then Some(Before(Strip(p), "=")) else None
  }

  /** The value of such a part: the stripped part after its first `=`
      (`split('=', 1)`). */
  function PairValue(p: string): string {
    var q := Strip(p);
    match Find(q, "=")
    case None => ""
    case Some(i) => q[i + 1..]
  }

  /** A part as the handlers read it: its key (none without an `=`) and
      its value. */
  datatype Pair = Pair(key: Option<string>, value: string)

  /** A part has a key exactly when it holds an `=`; then the stripped part
      is the key, an `=`, and the value, and the key holds no `=`. */
  lemma PairShape(part: string)
    ensures PairKey(part).Some? <==> '=' in part
    ensures PairKey(part).Some? ==>
              Strip(part) == PairKey(part).value + "=" + PairValue(part) && '=' !in PairKey(part).value
  {
    assert "=" == ['='];
    ContainsChar(part, '=');
    if '=' in part {
      PairSplit(part);
    }
  }

  lemma PairSplit(part: string)
    requires '=' in part
    ensures PairKey(part).Some?
    ensures Strip(part) == PairKey(part).value + "=" + PairValue(part) && '=' !in PairKey(part).value
  {
    assert "=" == ['='];
    ContainsChar(part, '=');
    StripKeeps(part, '=');
    EqualsSplit(Strip(part));
  }

  /** A text holding an `=` is the text before its first `=`, the `=`, and
      the rest. */
  lemma EqualsSplit(q: string)
    requires '=' in q
    ensures Find(q, "=").Some?
    ensures var i := Find(q, "=").value;
            i < |q| && q == q[..i] + "=" + q[i + 1..] && '=' !in q[..i]
  {
    assert "=" == ['='];
    ContainsChar(q, '=');
    var i := Find(q, "=").value;
    assert q[i..i + 1][0] == q[i] == '=';
    assert q == q[..i] + [q[i]] + q[i + 1..];
    NoOccurrenceBeforeFind(q, "=");
    ContainsChar(q[..i], '=');
  }

  /** One pair per `;`-separated part, in order, each read as `PairShape`
      says. */
  function Pairs(s: string): (r: seq<Pair>)
    ensures |r| == |Parts(s)|
    ensures forall i :: 0 <= i < |r| ==> (r[i].key.Some? <==> '=' in Parts(s)[i])
    ensures forall i :: 0 <= i < |r| && r[i].key.Some? ==>
              Strip(Parts(s)[i]) == r[i].key.value + "=" + r[i].value && '=' !in r[i].key.value
  {
    var parts := Parts(s);
    forall i | 0 <= i < |parts| { PairShape(parts[i]); }
    seq(|parts|, i requires 0 <= i < |parts| => Pair(PairKey(parts[i]), PairValue(parts[i])))
  }

  /** Some of the pairs has the given key. */
  predicate KeyAmong(pairs: seq<Pair>, k: string) {
    exists j :: 0 <= j < |pairs| && pairs[j].key == Some(k)
  }

  predicate HasKey(s: string, k: string) {
    KeyAmong(Pairs(s), k)
  }

  lemma KeyAmongSnoc(pairs: seq<Pair>, p: Pair, k: string)
    ensures KeyAmong(pairs + [p], k) <==> KeyAmong(pairs, k) || p.key == Some(k)
  {
    var ps := pairs + [p];
    if KeyAmong(ps, k) && p.key != Some(k) {
      var j :| 0 <= j < |ps| && ps[j].key == Some(k);
      assert ps[j] == pairs[j];
    }
    if KeyAmong(pairs, k) {
      var j :| 0 <= j < |pairs| && pairs[j].key == Some(k);
      assert ps[j] == pairs[j];
    }
    if p.key == Some(k) {
      assert ps[|pairs|] == p;
    }
  }

  // ---------------------------------------------------------------------
  // `_validate_cookie_format`
  // ---------------------------------------------------------------------

  datatype Verdict = Verdict(valid: bool, message: string)

  const NotPairs: string := "Cookie 格式不正确，应包含多个键值对"
  const MissingPrefix: string := "缺少必要的 Cookie 字段: "
  const FormatOk: string := "Cookie 格式验证通过"

  /** The required fields without a part of their own, in the order
      `unb`, `cookie2`. */
  function Missing(s: string): seq<string> {
    (if HasKey(s, "unb") then [] else ["unb"]) + (if HasKey(s, "cookie2") then [] else ["cookie2"])
  }

  function CookieVerdict(s: string): Verdict {
    if !Contains(s, ";") then Verdict(false, NotPairs)
    else if Missing(s) != [] then Verdict(false, MissingPrefix + Join(Missing(s), ", "))
    else Verdict(true, FormatOk)
  }

  /** The required keys found among the pairs, in the order met. */
  method FoundFields(pairs: seq<Pair>) returns (found: seq<string>)
    ensures "unb" in found <==> KeyAmong(pairs, "unb")
    ensures "cookie2" in found <==> KeyAmong(pairs, "cookie2")
  {
    found := [];
    var i := 0;
    while i < |pairs|
      invariant 0 <= i <= |pairs|
      invariant "unb" in found <==> KeyAmong(pairs[..i], "unb")
      invariant "cookie2" in found <==> KeyAmong(pairs[..i], "cookie2")
    {
      var key := pairs[i].key;
      assert pairs[..i + 1] == pairs[..i] + [pairs[i]];
      KeyAmongSnoc(pairs[..i], pairs[i], "unb");
      KeyAmongSnoc(pairs[..i], pairs[i], "cookie2");
      if key.Some? && (key.value == "unb" || key.value == "cookie2") {
        found := found + [key.value];
      }
      i := i + 1;
    }
    assert pairs[..|pairs|] == pairs;
  }

  /** Record the required keys found among the parts, then list the
      required fields not found. */
  method ValidateCookieFormat(s: string) returns (r: Verdict)
    ensures r == CookieVerdict(s)
  {
    if !Contains(s, ";") {
      return Verdict(false, NotPairs);
    }
    var found := FoundFields(Pairs(s));
    var missing: seq<string> := [];
    if "unb" !in found {
      missing := missing + ["unb"];
    }
    if "cookie2" !in found {
      missing := missing + ["cookie2"];
    }
    assert missing == Missing(s);
    if missing != [] {
      return Verdict(false, MissingPrefix + Join(missing, ", "));
    }
    return Verdict(true, FormatOk);
  }

  /** A cookie string passes exactly when it has a `;` and parts keyed
      `unb` and `cookie2`; a failure names what is missing. */
  lemma CookieVerdictCases(s: string)
    ensures CookieVerdict(s).valid <==> Contains(s, ";") && HasKey(s, "unb") && HasKey(s, "cookie2")
    ensures !Contains(s, ";") ==> CookieVerdict(s).message == NotPairs
    ensures Contains(s, ";") && !HasKey(s, "unb") && !HasKey(s, "cookie2") ==>
              CookieVerdict(s).message == MissingPrefix + "unb, cookie2"
    ensures Contains(s, ";") && HasKey(s, "unb") && !HasKey(s, "cookie2") ==>
              CookieVerdict(s).message == MissingPrefix + "cookie2"
    ensures Contains(s, ";") && !HasKey(s, "unb") && HasKey(s, "cookie2") ==>
              CookieVerdict(s).message == MissingPrefix + "unb"
  {
    assert Join(["unb", "cookie2"], ", ") == "unb" + ", " + "cookie2";
  }

  // ---------------------------------------------------------------------
  // The masked preview in `get_cookie_config`
  // ---------------------------------------------------------------------

  function Stars(n: nat): (r: string)
    ensures |r| == n && forall i :: 0 <= i < n ==> r[i] == '*'
  {
    if n == 0 then "" else Stars(n - 1) + "*"
  }

  /** A value longer than 8 keeps its first and last four characters; any
      shorter one is all stars. */
  function Mask(v: string): (r: string)
    ensures |r| == |v|
    ensures |v| > 8 ==> r[..4] == v[..4] && r[|v| - 4..] == v[|v| - 4..] &&
                        forall i :: 4 <= i < |v| - 4 ==> r[i] == '*'
    ensures |v| <= 8 ==> forall i :: 0 <= i < |v| ==> r[i] == '*'
  {
    if |v| > 8 then
      var r := v[..4] + Stars(|v| - 8) + v[|v| - 4..];
      assert r[|v| - 4..] == v[|v| - 4..];
      r
    else Stars(|v|)
  }

  /** Two values give the same mask iff they have the same length and, when
      longer than 8, the same first and last four characters: the mask
      reveals that and nothing more. */
  lemma MaskReveals(a: string, b: string)
    ensures Mask(a) == Mask(b) <==>
            |a| == |b| && (|a| <= 8 || (a[..4] == b[..4] && a[|a| - 4..] == b[|b| - 4..]))
  {
    if |a| == |b| && (|a| <= 8 || (a[..4] == b[..4] && a[|a| - 4..] == b[|b| - 4..])) {
      var ma, mb := Mask(a), Mask(b);
      forall i | 0 <= i < |a| ensures ma[i] == mb[i] {
        if |a| > 8 {
          if i < 4 {
            assert ma[i] == ma[..4][i] && mb[i] == mb[..4][i];
          } else if i >= |a| - 4 {
            assert ma[i] == ma[|a| - 4..][i - (|a| - 4)];
            assert mb[i] == mb[|b| - 4..][i - (|b| - 4)];
          }
        }
      }
    }
    if Mask(a) == Mask(b) && |a| > 8 {
      assert a[..4] == Mask(a)[..4];
    }
  }

  /** The cookies whose values the preview shows. */
  const Shown: set<string> := {"unb", "cookie2", "_m_h5_tk", "cna"}

  /** The preview built from the pairs so far: each shown key maps to the
      masked value of its latest pair. */
  function PreviewOf(pairs: seq<Pair>): map<string, string> {
    if pairs == [] then map[]
    else
      var m := PreviewOf(pairs[..|pairs| - 1]);
      var p := pairs[|pairs| - 1];
      if p.key.Some? && p.key.value in Shown then m[p.key.value := Mask(p.value)] else m
  }

  lemma PreviewStep(pairs: seq<Pair>, i: nat)
    requires i < |pairs|
    ensures var p := pairs[i];
            PreviewOf(pairs[..i + 1]) ==
              if p.key.Some? && p.key.value in Shown then PreviewOf(pairs[..i])[p.key.value := Mask(p.value)]
              else PreviewOf(pairs[..i])
  {
    assert pairs[..i + 1][..i] == pairs[..i];
  }

  /** `cookiePreview` of the stored cookie string (empty when there is
      none). */
  method CookiePreview(s: string) returns (r: map<string, string>)
    ensures r == PreviewOf(Pairs(s))
  {
    r := PreviewPairs(Pairs(s));
  }

  /** Walk the pairs, overwriting the entry of each shown key met. */
  method PreviewPairs(pairs: seq<Pair>) returns (r: map<string, string>)
    ensures r == PreviewOf(pairs)
  {
    r := map[];
    var i := 0;
    while i < |pairs|
      invariant 0 <= i <= |pairs|
      invariant r == PreviewOf(pairs[..i])
    {
      PreviewStep(pairs, i);
      var key := pairs[i].key;
      if key.Some? && key.value in Shown {
        r := r[key.value := Mask(pairs[i].value)];
      }
      i := i + 1;
    }
    assert pairs[..|pairs|] == pairs;
  }

  /** The index of the last pair with the given key. */
  function LastWithKey(pairs: seq<Pair>, k: string): (r: Option<nat>)
    ensures r.Some? ==> r.value < |pairs| && pairs[r.value].key == Some(k) &&
                        forall j :: r.value < j < |pairs| ==> pairs[j].key != Some(k)
    ensures r.None? <==> !KeyAmong(pairs, k)
  {
    if pairs == [] then None
    else if pairs[|pairs| - 1].key == Some(k) then Some(|pairs| - 1)
    else
      var init := pairs[..|pairs| - 1];
      KeyAmongSnoc(init, pairs[|pairs| - 1], k);
      assert pairs == init + [pairs[|pairs| - 1]];
      LastWithKey(init, k)
  }

  /** The preview shows exactly the shown keys that some pair carries. */
  lemma {:induction false} PreviewKeys(pairs: seq<Pair>)
    ensures forall k :: k in PreviewOf(pairs) <==> k in Shown && KeyAmong(pairs, k)
    decreases |pairs|
  {
    if pairs != [] {
      var init := pairs[..|pairs| - 1];
      var p := pairs[|pairs| - 1];
      assert pairs == init + [p];
      PreviewKeys(init);
      forall k ensures KeyAmong(pairs, k) <==> KeyAmong(init, k) || p.key == Some(k) {
        KeyAmongSnoc(init, p, k);
      }
    }
  }

  /** Each shown key carries the masked value of the last pair with that
      key: a later duplicate overwrites an earlier one. */
  lemma {:induction false} PreviewShowsLast(pairs: seq<Pair>)
    ensures forall k :: k in PreviewOf(pairs) ==>
              LastWithKey(pairs, k).Some? &&
              PreviewOf(pairs)[k] == Mask(pairs[LastWithKey(pairs, k).value].value)
    decreases |pairs|
  {
    if pairs != [] {
      var init := pairs[..|pairs| - 1];
      var p := pairs[|pairs| - 1];
      PreviewShowsLast(init);
      PreviewKeys(init);
      PreviewKeys(pairs);
      forall k | k in PreviewOf(pairs)
        ensures LastWithKey(pairs, k).Some? &&
                PreviewOf(pairs)[k] == Mask(pairs[LastWithKey(pairs, k).value].value)
      {
        if p.key != Some(k) {
          assert k in PreviewOf(init);
          assert LastWithKey(pairs, k) == LastWithKey(init, k);
          assert pairs[LastWithKey(init, k).value] == init[LastWithKey(init, k).value];
        }
      }
    }
  }

  // ---------------------------------------------------------------------
  // `_update_env_file`
  // ---------------------------------------------------------------------

  function Entry(key: string, value: string): string {
    key + "=" + value
  }

  function Lines(content: string): seq<string> {
    Split(content, "\n")
  }

  /** A line the multi-line pattern `^key=.*$` matches. */
  predicate IsKeyLine(line: string, key: string) {
    StartsWith(line, key + "=")
  }

  predicate HasKeyLine(content: string, key: string) {
    exists i :: 0 <= i < |Lines(content)| && IsKeyLine(Lines(content)[i], key)
  }

  /** Every line of the key replaced by the new entry. */
  function SetLines(lines: seq<string>, key: string, value: string): (r: seq<string>)
    ensures |r| == |lines|
  {
    seq(|lines|, i requires 0 <= i < |lines| =>
      if IsKeyLine(lines[i], key) then Entry(key, value) else lines[i])
  }

  /** The new text of `.env`: a fresh file holds just the entry; an
      existing one has every line of the key rewritten, or the entry
      appended after its right-stripped text. */
  function UpdateEnv(file: Option<string>, key: string, value: string): string {
    match file
    case None => Entry(key, value) + "\n"
    case Some(content) =>
      if HasKeyLine(content, key) then Join(SetLines(Lines(content), key, value), "\n")
      else RStrip(content) + "\n" + Entry(key, value) + "\n"
  }

  lemma EntryIsKeyLine(key: string, value: string)
    ensures IsKeyLine(Entry(key, value), key)
  {
    assert Entry(key, value)[..|key + "="|] == key + "=";
  }

  lemma EntryLine(key: string, value: string)
    requires '\n' !in key && '\n' !in value
    ensures '\n' !in Entry(key, value)
  {
  }

  lemma LinesNoNewline(lines: seq<string>)
    requires forall k :: 0 <= k < |lines| ==> !Contains(lines[k], "\n")
    ensures forall k :: 0 <= k < |lines| ==> '\n' !in lines[k]
  {
    forall k | 0 <= k < |lines| ensures '\n' !in lines[k] {
      ContainsChar(lines[k], '\n');
    }
  }

  /** Where the key already has lines, the new text has the same lines
      with each of those replaced by the entry and the others unchanged. */
  lemma EnvReplaceLines(content: string, key: string, value: string)
    requires '\n' !in key && '\n' !in value
    requires HasKeyLine(content, key)
    ensures Lines(UpdateEnv(Some(content), key, value)) == SetLines(Lines(content), key, value)
  {
    var lines := SetLines(Lines(content), key, value);
    LinesNoNewline(Lines(content));
    EntryLine(key, value);
    SplitJoinChar(lines, '\n');
  }

  lemma LinesAppendEntry(r: string, e: string)
    requires '\n' !in e
    ensures Lines(r + "\n" + e + "\n") == Lines(r) + [e, ""]
  {
    var kept := Lines(r);
    var lines := kept + [e, ""];
    LinesNoNewline(kept);
    JoinSplit(r, "\n");
    JoinAppend(kept, e, "\n");
    JoinAppend(kept + [e], "", "\n");
    assert kept + [e] + [""] == lines;
    assert Join(lines, "\n") == r + "\n" + e + "\n";
    forall k | 0 <= k < |lines| ensures '\n' !in lines[k] {
      if k < |kept| {
        assert lines[k] == kept[k];
      }
    }
    SplitJoinChar(lines, '\n');
  }

  /** Where it has none, the old lines (after right-stripping) are kept and
      the entry follows as a line of its own, ended by a newline. */
  lemma EnvAppendLines(content: string, key: string, value: string)
    requires '\n' !in key && '\n' !in value
    requires !HasKeyLine(content, key)
    ensures Lines(UpdateEnv(Some(content), key, value)) ==
            Lines(RStrip(content)) + [Entry(key, value), ""]
  {
    EntryLine(key, value);
    assert UpdateEnv(Some(content), key, value) == RStrip(content) + "\n" + Entry(key, value) + "\n";
    LinesAppendEntry(RStrip(content), Entry(key, value));
  }

  /** A new file holds exactly one line, the entry. */
  lemma EnvCreateLines(key: string, value: string)
    requires '\n' !in key && '\n' !in value
    ensures Lines(UpdateEnv(None, key, value)) == [Entry(key, value), ""]
  {
    EntryLine(key, value);
    assert Join([Entry(key, value), ""], "\n") == UpdateEnv(None, key, value);
    SplitJoinChar([Entry(key, value), ""], '\n');
  }

  lemma SetLinesTwice(lines: seq<string>, key: string, value: string)
    ensures SetLines(SetLines(lines, key, value), key, value) == SetLines(lines, key, value)
  {
    EntryIsKeyLine(key, value);
  }

  lemma SetLinesNoKey(lines: seq<string>, key: string, value: string)
    requires forall i :: 0 <= i < |lines| ==> !IsKeyLine(lines[i], key)
    ensures SetLines(lines, key, value) == lines
  {
  }

  /** A text whose key lines are all the entry already, and that has one,
      is left as it is. */
  lemma EnvFixedPoint(r: string, key: string, value: string)
    requires HasKeyLine(r, key)
    requires forall i :: 0 <= i < |Lines(r)| ==> !IsKeyLine(Lines(r)[i], key) || Lines(r)[i] == Entry(key, value)
    ensures UpdateEnv(Some(r), key, value) == r
  {
    assert SetLines(Lines(r), key, value) == Lines(r);
    JoinSplit(r, "\n");
  }

  /** Right-stripping a text without key lines gives none either. */
  lemma StrippedNoKeyLine(content: string, key: string)
    requires !HasKeyLine(content, key)
    ensures forall i :: 0 <= i < |Lines(RStrip(content))| ==> !IsKeyLine(Lines(RStrip(content))[i], key)
  {
    var lines := Lines(content);
    var kept := Lines(RStrip(content));
    var rest := content[|RStrip(content)|..];
    assert RStrip(content) + rest == content;
    SplitPrefixLines(RStrip(content), rest, '\n');
    forall i | 0 <= i < |kept| ensures !IsKeyLine(kept[i], key) {
      assert kept[i] in kept;
      var m :| m in lines && StartsWith(m, kept[i]);
      var j :| 0 <= j < |lines| && lines[j] == m;
      KeyLinePrefix(m, kept[i], key);
    }
  }

  /** A line that starts with a key line is a key line. */
  lemma KeyLinePrefix(m: string, x: string, key: string)
    requires StartsWith(m, x)
    ensures IsKeyLine(x, key) ==> IsKeyLine(m, key)
  {
    if IsKeyLine(x, key) {
      StartsWithTransitive(m, x, key + "=");
    }
  }

  lemma IdempotentCreate(key: string, value: string)
    requires '\n' !in key && '\n' !in value
    ensures UpdateEnv(Some(UpdateEnv(None, key, value)), key, value) == UpdateEnv(None, key, value)
  {
    var r := UpdateEnv(None, key, value);
    EnvCreateLines(key, value);
    EntryIsKeyLine(key, value);
    assert IsKeyLine(Lines(r)[0], key);
    assert !IsKeyLine(Lines(r)[1], key);
    EnvFixedPoint(r, key, value);
  }

  lemma IdempotentReplace(content: string, key: string, value: string)
    requires '\n' !in key && '\n' !in value
    requires HasKeyLine(content, key)
    ensures UpdateEnv(Some(UpdateEnv(Some(content), key, value)), key, value) == UpdateEnv(Some(content), key, value)
  {
    var r := UpdateEnv(Some(content), key, value);
    EnvReplaceLines(content, key, value);
    EntryIsKeyLine(key, value);
    var i :| 0 <= i < |Lines(content)| && IsKeyLine(Lines(content)[i], key);
    assert IsKeyLine(Lines(r)[i], key);
    EnvFixedPoint(r, key, value);
  }

  lemma IdempotentAppend(content: string, key: string, value: string)
    requires '\n' !in key && '\n' !in value
    requires !HasKeyLine(content, key)
    ensures UpdateEnv(Some(UpdateEnv(Some(content), key, value)), key, value) == UpdateEnv(Some(content), key, value)
  {
    var r := UpdateEnv(Some(content), key, value);
    EnvAppendLines(content, key, value);
    StrippedNoKeyLine(content, key);
    EntryIsKeyLine(key, value);
    var kept := Lines(RStrip(content));
    assert IsKeyLine(Lines(r)[|kept|], key);
    forall i | 0 <= i < |Lines(r)| ensures !IsKeyLine(Lines(r)[i], key) || Lines(r)[i] == Entry(key, value) {
      if i < |kept| {
        assert Lines(r)[i] == kept[i];
      }
    }
    EnvFixedPoint(r, key, value);
  }

  /** Writing the same entry a second time leaves the file as the first
      write made it. */
  lemma EnvUpsertIdempotent(file: Option<string>, key: string, value: string)
    requires '\n' !in key && '\n' !in value
    ensures UpdateEnv(Some(UpdateEnv(file, key, value)), key, value) == UpdateEnv(file, key, value)
  {
    match file
    case None => IdempotentCreate(key, value);
    case Some(content) =>
      if HasKeyLine(content, key) {
        IdempotentReplace(content, key, value);
      } else {
        IdempotentAppend(content, key, value);
      }
  }
}
