/** Python string and list behaviour that the rest of the model relies on:
    whitespace stripping, substring search, `split`, `join`, `replace`,
    ASCII lower-casing, slicing with negative bounds, `str(int)` and a
    stable descending sort on string keys. */
module Common {

  datatype Option<T> = None | Some(value: T)

  datatype Result<T, E> = Ok(value: T) | Err(error: E)

  /** A JSON scalar as the services send it: a string or an integer. */
  datatype Scalar = SStr(s: string) | SInt(i: int)

  /** `str(v)` */
  function ScalarText(v: Scalar): (r: string)
    ensures v.SStr? ==> r == v.s
    ensures v.SInt? ==> |r| >= 1
  {
    match v
    case SStr(s) => s
    case SInt(i) => IntToString(i)
  }

  /** No element occurs twice. */
  predicate Distinct<T(==)>(s: seq<T>) {
    forall i, j :: 0 <= i < j < |s| ==> s[i] != s[j]
  }

  /** The characters Python's `str.isspace()` accepts, which are the ones
      `str.strip()` and `str.rstrip()` remove when given no argument. */
  predicate IsSpace(c: char) {
    c == ' ' || ('\t' <= c <= '\r') || ('\U{1C}' <= c <= '\U{1F}')
    || c == '\U{85}' || c == '\U{A0}' || c == '\U{1680}'
    || ('\U{2000}' <= c <= '\U{200A}') || c == '\U{2028}' || c == '\U{2029}'
    || c == '\U{202F}' || c == '\U{205F}' || c == '\U{3000}'
  }

  predicate AllSpace(s: string) {
    forall i :: 0 <= i < |s| ==> IsSpace(s[i])
  }

  /** `s.lstrip()` */
  function LStrip(s: string): (r: string)
    ensures |r| <= |s| && r == s[|s| - |r|..]
    ensures AllSpace(s[..|s| - |r|])
    ensures r == [] || !IsSpace(r[0])
  {
    if s == [] || !IsSpace(s[0]) then s
    else
      var t := LStrip(s[1..]);
      assert s[1..][..|s[1..]| - |t|] == s[1..|s| - |t|];
      t
  }

  lemma AllSpaceConcat(a: string, b: string)
    requires AllSpace(a) && AllSpace(b)
    ensures AllSpace(a + b)
  {
    forall i | 0 <= i < |a + b| ensures IsSpace((a + b)[i]) {
      if i < |a| {
        assert (a + b)[i] == a[i];
      } else {
        assert (a + b)[i] == b[i - |a|];
      }
    }
  }

  /** `s.rstrip()` */
  function RStrip(s: string): (r: string)
    ensures |r| <= |s| && r == s[..|r|]
    ensures AllSpace(s[|r|..])
    ensures r == [] || !IsSpace(r[|r| - 1])
  {
    if s == [] || !IsSpace(s[|s| - 1]) then s
    else
      var t := RStrip(s[..|s| - 1]);
      assert s[..|s| - 1][|t|..] == s[|t|..|s| - 1];
      assert s[|t|..] == s[|t|..|s| - 1] + [s[|s| - 1]];
      AllSpaceConcat(s[|t|..|s| - 1], [s[|s| - 1]]);
      t
  }

  /** `s.strip()` */
  function Strip(s: string): (r: string)
    ensures |r| <= |s|
    ensures r == [] || (!IsSpace(r[0]) && !IsSpace(r[|r| - 1]))
    ensures AllSpace(s) <==> r == []
  {
    StripEmpty(s);
    var l := LStrip(s);
    var r := RStrip(l);
    assert r != [] ==> r[0] == l[0] && !IsSpace(r[0]);
    r
  }

  /** Stripping only removes white space: every other character stays. */
  lemma StripKeeps(s: string, x: char)
    requires !IsSpace(x)
    ensures x in s <==> x in Strip(s)
  {
    LStripKeeps(s, x);
    RStripKeeps(LStrip(s), x);
  }

  lemma LStripKeeps(s: string, x: char)
    requires !IsSpace(x)
    ensures x in s <==> x in LStrip(s)
  {
    var l := LStrip(s);
    SpaceFree(s[..|s| - |l|], x);
    assert s == s[..|s| - |l|] + l;
  }

  lemma RStripKeeps(s: string, x: char)
    requires !IsSpace(x)
    ensures x in s <==> x in RStrip(s)
  {
    var r := RStrip(s);
    SpaceFree(s[|r|..], x);
    assert s == r + s[|r|..];
  }

  lemma SpaceFree(a: string, x: char)
    requires AllSpace(a) && !IsSpace(x)
    ensures x !in a
  {
    forall j | 0 <= j < |a| ensures a[j] != x { assert IsSpace(a[j]); }
  }

  lemma {:induction false} LStripEmpty(s: string)
    ensures AllSpace(s) <==> LStrip(s) == []
    decreases |s|
  {
    if s != [] && IsSpace(s[0]) {
      LStripEmpty(s[1..]);
      assert AllSpace(s) <==> AllSpace(s[1..]) by {
        assert forall j :: 0 <= j < |s[1..]| ==> s[1..][j] == s[j + 1];
      }
    }
  }

  lemma {:induction false} RStripEmpty(s: string)
    ensures AllSpace(s) <==> RStrip(s) == []
    decreases |s|
  {
    if s != [] && IsSpace(s[|s| - 1]) {
      RStripEmpty(s[..|s| - 1]);
      assert AllSpace(s) <==> AllSpace(s[..|s| - 1]) by {
        assert forall j :: 0 <= j < |s| - 1 ==> s[..|s| - 1][j] == s[j];
      }
    }
  }

  lemma StripEmpty(s: string)
    ensures AllSpace(s) <==> RStrip(LStrip(s)) == []
  {
    LStripEmpty(s);
    RStripEmpty(LStrip(s));
  }

  // ---------------------------------------------------------------------
  // Substring search

  predicate OccursAt(s: string, sub: string, i: nat) {
    i + |sub| <= |s| && s[i..i + |sub|] == sub
  }

  /** The first position at or after `i` where `sub` occurs in `s`. */
  function FindFrom(s: string, sub: string, i: nat): (r: Option<nat>)
    requires i <= |s|
    decreases |s| - i
    ensures r.Some? ==> i <= r.value <= |s| && OccursAt(s, sub, r.value)
    ensures r.Some? ==> forall j: nat :: i <= j < r.value ==> !OccursAt(s, sub, j)
    ensures r.None? ==> forall j: nat :: i <= j ==> !OccursAt(s, sub, j)
  {
    if OccursAt(s, sub, i) then Some(i)
    else if i == |s| then None
    else FindFrom(s, sub, i + 1)
  }

  /** `s.find(sub)`, with `None` for -1. */
  function Find(s: string, sub: string): (r: Option<nat>)
    ensures r.Some? ==> r.value <= |s| && OccursAt(s, sub, r.value)
    ensures r.Some? ==> forall j: nat :: j < r.value ==> !OccursAt(s, sub, j)
    ensures r.None? ==> forall j: nat :: !OccursAt(s, sub, j)
  {
    FindFrom(s, sub, 0)
  }

  /** Python's `sub in s` on strings. */
  predicate Contains(s: string, sub: string) {
    Find(s, sub).Some?
  }

  lemma ContainsAt(s: string, sub: string, i: nat)
    requires OccursAt(s, sub, i)
    ensures Contains(s, sub)
  {
  }

  lemma ContainsInside(a: string, sub: string, b: string)
    ensures Contains(a + sub + b, sub)
  {
    assert (a + sub + b)[|a|..|a| + |sub|] == sub;
    ContainsAt(a + sub + b, sub, |a|);
  }

  /** A string contains every one of its substrings' substrings. */
  lemma {:induction false} ContainsTransitive(s: string, mid: string, sub: string)
    requires Contains(s, mid) && Contains(mid, sub)
    ensures Contains(s, sub)
  {
    var i := Find(s, mid).value;
    var j := Find(mid, sub).value;
    assert s[i..i + |mid|] == mid;
    assert mid[j..j + |sub|] == sub;
    SliceOfSlice(s, i, |mid|, j, |sub|);
    ContainsAt(s, sub, i + j);
  }

  lemma SliceOfSlice<T>(s: seq<T>, i: nat, n: nat, j: nat, m: nat)
    requires i + n <= |s| && j + m <= n
    ensures s[i..i + n][j..j + m] == s[i + j..i + j + m]
  {
    var a, b := s[i..i + n][j..j + m], s[i + j..i + j + m];
    forall k | 0 <= k < m ensures a[k] == b[k] {
      assert a[k] == s[i..i + n][j + k] == s[i + j + k];
    }
    assert a == b;
  }

  predicate StartsWith(s: string, p: string) {
    |p| <= |s| && s[..|p|] == p
  }

  // ---------------------------------------------------------------------
  // split / join / replace

  /** `s.split(sep)` for a non-empty separator. */
  function Split(s: string, sep: string): (r: seq<string>)
    requires |sep| > 0
    decreases |s|
    ensures |r| >= 1
    ensures forall k :: 0 <= k < |r| ==> !Contains(r[k], sep)
  {
    match Find(s, sep)
    case None => [s]
    case Some(i) =>
      NoOccurrenceBeforeFind(s, sep);
      [s[..i]] + Split(s[i + |sep|..], sep)
  }

  /** The text before the first occurrence does not contain the pattern. */
  lemma NoOccurrenceBeforeFind(s: string, sep: string)
    requires |sep| > 0 && Find(s, sep).Some?
    ensures !Contains(s[..Find(s, sep).value], sep)
  {
    var i := Find(s, sep).value;
    if Contains(s[..i], sep) {
      var j := Find(s[..i], sep).value;
      assert s[..i][j..j + |sep|] == s[j..j + |sep|];
      assert OccursAt(s, sep, j) && j < i;
    }
  }

  /** `sep.join(parts)` */
  function Join(parts: seq<string>, sep: string): (r: string)
    decreases |parts|
  {
    if parts == [] then ""
    else if |parts| == 1 then parts[0]
    else parts[0] + sep + Join(parts[1..], sep)
  }

  /** Joining the pieces of a split with the same separator gives the
      original string back. */
  lemma {:induction false} JoinSplit(s: string, sep: string)
    requires |sep| > 0
    ensures Join(Split(s, sep), sep) == s
    decreases |s|
  {
    if Find(s, sep).Some? {
      var i := Find(s, sep).value;
      var rest := s[i + |sep|..];
      var tail := Split(rest, sep);
      JoinSplit(rest, sep);
      var parts := [s[..i]] + tail;
      assert Split(s, sep) == parts;
      assert parts[1..] == tail;
      assert Join(parts, sep) == s[..i] + sep + Join(tail, sep);
      assert s == s[..i] + sep + rest;
    }
  }

  /** The text before the first occurrence of `sep`, or all of `s`:
      `s.split(sep)[0]`. */
  function Before(s: string, sep: string): (r: string)
    requires |sep| > 0
    ensures StartsWith(s, r) && !Contains(r, sep)
    ensures Contains(s, sep) <==> |r| < |s|
    ensures !Contains(s, sep) ==> r == s
    ensures Contains(s, sep) ==> OccursAt(s, sep, |r|)
  {
    if Find(s, sep).Some? then
      NoOccurrenceBeforeFind(s, sep);
      s[..Find(s, sep).value]
    else s
  }

  /** The first piece of a split is the text before the separator. */
  lemma SplitHead(s: string, sep: string)
    requires |sep| > 0
    ensures Split(s, sep)[0] == Before(s, sep)
  {
  }

  /** The second piece of a split (present whenever the separator occurs)
      starts right after the first occurrence and runs to the next one. */
  lemma SplitSecond(s: string, sep: string)
    requires |sep| > 0 && Contains(s, sep)
    ensures |Split(s, sep)| >= 2
    ensures var i := Find(s, sep).value;
            Split(s, sep)[1] == Before(s[i + |sep|..], sep)
  {
    var i := Find(s, sep).value;
    SplitHead(s[i + |sep|..], sep);
  }

  /** Cutting at a one-character separator stops at its first occurrence,
      so a prefix free of it is recovered exactly. */
  lemma BeforeChar(a: string, c: char, b: string)
    requires !Contains(a, [c])
    ensures Before(a + [c] + b, [c]) == a
  {
    var s := a + [c] + b;
    assert s == a + ([c] + b);
    assert OccursAt(s, [c], |a|);
    NoneBeforeInPrefix(a, [c] + b, c, |a|);
    assert Find(s, [c]).value == |a|;
  }

  /** A one-character pattern occurs exactly when the character does. */
  lemma ContainsChar(s: string, c: char)
    ensures Contains(s, [c]) <==> c in s
  {
    if c in s {
      var i :| 0 <= i < |s| && s[i] == c;
      assert s[i..i + 1] == [c];
      ContainsAt(s, [c], i);
    }
    if Contains(s, [c]) {
      var i := Find(s, [c]).value;
      assert OccursAt(s, [c], i);
      assert s[i] == s[i..i + 1][0] == c;
    }
  }

  /** Behind a prefix free of `c`, the first `c` is the one that follows it. */
  lemma FindAfterPrefix(a: string, c: char, b: string)
    requires c !in a
    ensures Find(a + [c] + b, [c]) == Some(|a|)
  {
    var s := a + [c] + b;
    assert s[|a|..|a| + 1] == [c];
    var k: nat := |a|;
    assert OccursAt(s, [c], k);
    forall j: nat | j < |a| ensures !OccursAt(s, [c], j) {
      assert s[j] == a[j];
    }

  }

  /** Splitting at a character the pieces do not contain recovers them. */
  lemma {:induction false} SplitJoinChar(parts: seq<string>, c: char)
    requires |parts| >= 1
    requires forall k :: 0 <= k < |parts| ==> c !in parts[k]
    ensures Split(Join(parts, [c]), [c]) == parts
    decreases |parts|
  {
    if |parts| == 1 {
      ContainsChar(parts[0], c);
    } else {
      var rest := Join(parts[1..], [c]);
      assert Join(parts, [c]) == parts[0] + [c] + rest;
      FindAfterPrefix(parts[0], c, rest);
      var s := parts[0] + [c] + rest;
      assert s[..|parts[0]|] == parts[0];
      assert s[|parts[0]| + 1..] == rest;
      assert Split(s, [c]) == [parts[0]] + Split(rest, [c]);
      SplitJoinChar(parts[1..], c);
      assert parts == [parts[0]] + parts[1..];
    }
  }

  lemma JoinAppend(parts: seq<string>, x: string, sep: string)
    requires |parts| >= 1
    ensures Join(parts + [x], sep) == Join(parts, sep) + sep + x
    decreases |parts|
  {
    if |parts| > 1 {
      assert (parts + [x])[1..] == parts[1..] + [x];
      JoinAppend(parts[1..], x, sep);
    }
  }

  /** Every line of a prefix is the start of a line of the whole text. */
  lemma {:induction false} SplitPrefixLines(r: string, t: string, c: char)
    ensures forall l :: l in Split(r, [c]) ==>
              exists m :: m in Split(r + t, [c]) && StartsWith(m, l)
    decreases |r|
  {
    var s := r + t;
    match Find(r, [c])
    case Some(i) =>
      FindInPrefix(r, t, c);
      assert s[..i] == r[..i];
      assert s[i + 1..] == r[i + 1..] + t;
      SplitPrefixLines(r[i + 1..], t, c);
      assert Split(r, [c]) == [r[..i]] + Split(r[i + 1..], [c]);
      assert Split(s, [c]) == [r[..i]] + Split(r[i + 1..] + t, [c]);
      forall l | l in Split(r, [c]) ensures exists m :: m in Split(s, [c]) && StartsWith(m, l) {
        if l == r[..i] {
          assert r[..i] in Split(s, [c]) && StartsWith(r[..i], l);
        } else {
          assert l in Split(r[i + 1..], [c]);
        }
      }
    case None =>
      LastLinePrefix(r, t, c);
      assert Split(s, [c])[0] in Split(s, [c]);
  }

  /** The first `c` of `r` is the first one of `r + t`. */
  lemma FindInPrefix(r: string, t: string, c: char)
    requires Find(r, [c]).Some?
    ensures Find(r + t, [c]) == Find(r, [c])
  {
    var i := Find(r, [c]).value;
    assert OccursAt(r, [c], i);
    assert (r + t)[i..i + 1] == r[i..i + 1];
    assert OccursAt(r + t, [c], i);
    NoneBeforeInPrefix(r, t, c, i);
  }

  /** A text free of `c` is the start of the first line of any extension. */
  lemma LastLinePrefix(r: string, t: string, c: char)
    requires Find(r, [c]).None?
    ensures Split(r, [c]) == [r]
    ensures StartsWith(Split(r + t, [c])[0], r)
  {
    var s := r + t;
    var m := Split(s, [c])[0];
    assert m == Before(s, [c]) by { SplitHead(s, [c]); }
    NoneBeforeInPrefix(r, t, c, |r|);
    assert s[..|r|] == r;
  }

  /** An occurrence of `c` in `r + t` before `bound <= |r|` would be one in
      `r`. */
  lemma NoneBeforeInPrefix(r: string, t: string, c: char, bound: nat)
    requires bound <= |r|
    requires forall j: nat :: j < bound ==> !OccursAt(r, [c], j)
    ensures forall j: nat :: j < bound ==> !OccursAt(r + t, [c], j)
  {
    forall j: nat | j < bound ensures !OccursAt(r + t, [c], j) {
      assert !OccursAt(r, [c], j);
      assert (r + t)[j..j + 1] == r[j..j + 1];
    }
  }

  lemma StartsWithTransitive(a: string, b: string, c: string)
    requires StartsWith(a, b) && StartsWith(b, c)
    ensures StartsWith(a, c)
  {
    assert a[..|c|] == b[..|b|][..|c|];
  }

  /** A prefix of a string free of `sub` is free of it too. */
  lemma PrefixNotContains(s: string, p: string, sub: string)
    requires StartsWith(s, p) && !Contains(s, sub)
    ensures !Contains(p, sub)
  {
    if Contains(p, sub) {
      var j := Find(p, sub).value;
      assert p[j..j + |sub|] == s[j..j + |sub|];
      ContainsAt(s, sub, j);
    }
  }

  /** `s.replace(pat, rep)` for a non-empty `pat`: every non-overlapping
      occurrence, scanned from the left, is replaced. */
  function Replace(s: string, pat: string, rep: string): (r: string)
    requires |pat| > 0
    decreases |s|
    ensures !Contains(s, pat) ==> r == s
  {
    match Find(s, pat)
    case None => s
    case Some(i) => s[..i] + rep + Replace(s[i + |pat|..], pat, rep)
  }

  /** Replacing a substring by itself leaves the string unchanged. */
  lemma {:induction false} ReplaceSelf(s: string, pat: string)
    requires |pat| > 0
    ensures Replace(s, pat, pat) == s
    decreases |s|
  {
    match Find(s, pat)
    case None =>
    case Some(i) =>
      ReplaceSelf(s[i + |pat|..], pat);
      assert s == s[..i] + pat + s[i + |pat|..];
  }

  /** A string without the first character of `sub` does not contain it. */
  lemma NoLeadNoContains(s: string, sub: string)
    requires |sub| > 0 && sub[0] !in s
    ensures !Contains(s, sub)
  {
  }

  /** When the pattern's first character does not occur before an
      occurrence, that occurrence is the first one replaced. */
  lemma ReplaceLeading(pre: string, pat: string, post: string, rep: string)
    requires |pat| > 0 && pat[0] !in pre
    ensures Replace(pre + pat + post, pat, rep) == pre + rep + Replace(post, pat, rep)
  {
    var s := pre + pat + post;
    assert s[|pre|..|pre| + |pat|] == pat;
    assert OccursAt(s, pat, |pre|);
    assert Find(s, pat).value == |pre|;
    assert s[..|pre|] == pre && s[|pre| + |pat|..] == post;
  }

  /** The only occurrence of the lead character `ph[0]` in `pre + ph + post`
      is that of `ph`, so a pattern with the same lead that differs from
      `ph` at position `k` does not occur. */
  lemma OtherPlaceholderAbsent(pre: string, ph: string, post: string, other: string, k: nat)
    requires |ph| > 0 && |other| > 0 && other[0] == ph[0]
    requires ph[0] !in pre && ph[0] !in post && ph[0] !in ph[1..]
    requires k < |ph| && k < |other| && ph[k] != other[k]
    ensures !Contains(pre + ph + post, other)
  {
  }

  /** One left-to-right pass can leave the pattern behind: the pieces
      around a replaced occurrence may join into a new one. */
  lemma ReplaceMayLeavePattern()
    ensures Replace("{co{content}ent}", "{content}", "nt") == "{content}"
  {
    var s, pat := "{co{content}ent}", "{content}";
    assert s[0..9][3] != pat[3] && s[1..10][0] != pat[0] && s[2..11][0] != pat[0];
    assert s[3..12] == pat;
    assert Find(s, pat) == Some(3);
    assert s[..3] == "{co" && s[12..] == "ent}";
    NoLeadNoContains("ent}", pat);
  }

  // ---------------------------------------------------------------------
  // Case mapping

  function AsciiLowerChar(c: char): (r: char)
    ensures 'A' <= c <= 'Z' ==> 'a' <= r <= 'z'
    ensures !('A' <= c <= 'Z') ==> r == c
  {
    if 'A' <= c <= 'Z' then (c as int + 32) as char else c
  }

  /** `s.lower()` restricted to the ASCII letters. */
  function AsciiLower(s: string): (r: string)
    ensures |r| == |s|
    ensures forall i :: 0 <= i < |s| ==> r[i] == AsciiLowerChar(s[i])
  {
    seq(|s|, i requires 0 <= i < |s| => AsciiLowerChar(s[i]))
  }

  // ---------------------------------------------------------------------
  // Slicing with Python's bounds rules

  /** A slice bound as Python normalises it for a sequence of length n:
      a negative bound counts from the end, and the result is clipped to
      [0, n]. */
  function SliceBound(i: int, n: nat): (r: nat)
    ensures r <= n
    ensures 0 <= i <= n ==> r == i
    ensures i > n ==> r == n
    ensures -(n as int) <= i < 0 ==> r == n + i
    ensures i < -(n as int) ==> r == 0
  {
    if i < 0 then (if i + n < 0 then 0 else i + n)
    else if i > n then n
    else i
  }

  /** `s[start:stop]` */
  function PySlice<T>(s: seq<T>, start: int, stop: int): (r: seq<T>)
  {
    var a := SliceBound(start, |s|);
    var b := SliceBound(stop, |s|);
    if b <= a then [] else s[a..b]
  }

  /** For page-style bounds (start >= 0, a non-negative width), a slice is
      the run of at most `width` elements that begins at `start`. */
  lemma PySliceWindow<T>(s: seq<T>, start: nat, width: nat)
    ensures |PySlice(s, start, start + width)| ==
            if start >= |s| then 0 else if start + width <= |s| then width else |s| - start
    ensures start < |s| ==>
              PySlice(s, start, start + width) == s[start..start + |PySlice(s, start, start + width)|]
  {
  }

  // ---------------------------------------------------------------------
  // str(int)

  function DigitChar(d: nat): (c: char)
    requires d < 10
    ensures '0' <= c <= '9'
  {
    ('0' as int + d) as char
  }

  /** Decimal digits of n, most significant first, as `str(n)` writes them. */
  function NatToString(n: nat): (r: string)
    decreases n
    ensures |r| >= 1
    ensures forall i :: 0 <= i < |r| ==> '0' <= r[i] <= '9'
  {
    if n < 10 then [DigitChar(n)] else NatToString(n / 10) + [DigitChar(n % 10)]
  }

  /** `str(n)` for any integer. */
  function IntToString(n: int): (r: string)
    ensures |r| >= 1
  {
    if n < 0 then "-" + NatToString(-n) else NatToString(n)
  }

  /** The value of a string of decimal digits. */
  function DigitsValue(s: string): nat
    requires forall i :: 0 <= i < |s| ==> '0' <= s[i] <= '9'
  {
    if s == [] then 0 else DigitsValue(s[..|s| - 1]) * 10 + (s[|s| - 1] as int - '0' as int)
  }

  /** Reading back the decimal rendering of a number gives the number, so
      `str` on naturals is injective. */
  lemma {:induction false} NatToStringRoundTrip(n: nat)
    ensures DigitsValue(NatToString(n)) == n
    decreases n
  {
    if n >= 10 {
      NatToStringRoundTrip(n / 10);
      var s := NatToString(n);
      assert s[..|s| - 1] == NatToString(n / 10);
    }
  }

  lemma NatToStringInjective(m: nat, n: nat)
    requires NatToString(m) == NatToString(n)
    ensures m == n
  {
    NatToStringRoundTrip(m);
    NatToStringRoundTrip(n);
  }

  /** A number renders as one given digit exactly when it is that digit. */
  lemma NatToStringDigit(n: nat, d: nat)
    requires d < 10
    ensures NatToString(n) == [DigitChar(d)] <==> n == d
  {
    assert NatToString(d) == [DigitChar(d)];
    if NatToString(n) == NatToString(d) {
      NatToStringInjective(n, d);
    }
  }

  // ---------------------------------------------------------------------
  // Python string ordering and a stable descending sort

  /** `a <= b` on Python strings: lexicographic on code points. */
  predicate StrLe(a: string, b: string)
    decreases |a|
  {
    a == [] || (b != [] && (a[0] < b[0] || (a[0] == b[0] && StrLe(a[1..], b[1..]))))
  }

  lemma {:induction false} StrLeTotal(a: string, b: string)
    ensures StrLe(a, b) || StrLe(b, a)
    decreases |a|
  {
    if a != [] && b != [] && a[0] == b[0] {
      StrLeTotal(a[1..], b[1..]);
    }
  }

  lemma {:induction false} StrLeTransitive(a: string, b: string, c: string)
    requires StrLe(a, b) && StrLe(b, c)
    ensures StrLe(a, c)
    decreases |a|
  {
    if a != [] && a[0] == b[0] && b[0] == c[0] {
      StrLeTransitive(a[1..], b[1..], c[1..]);
    }
  }

  /** Every key is at least the next one's (what `sort(..., reverse=True)`
      produces). */
  ghost predicate SortedDesc<T>(s: seq<T>, key: T -> string) {
    forall i, j :: 0 <= i < j < |s| ==> StrLe(key(s[j]), key(s[i]))
  }

  /** Place x before the first element whose key is not greater than x's. */
  function InsertDesc<T>(x: T, t: seq<T>, key: T -> string): (r: seq<T>)
    decreases |t|
    ensures |r| == |t| + 1 && multiset(r) == multiset(t) + multiset{x}
    ensures r[0] == x || (t != [] && r[0] == t[0])
  {
    if t == [] || StrLe(key(t[0]), key(x)) then [x] + t
    else
      assert t == [t[0]] + t[1..];
      [t[0]] + InsertDesc(x, t[1..], key)
  }

  lemma {:induction false} InsertDescSorted<T>(x: T, t: seq<T>, key: T -> string)
    requires SortedDesc(t, key)
    ensures SortedDesc(InsertDesc(x, t, key), key)
    decreases |t|
  {
    if t == [] || StrLe(key(t[0]), key(x)) {
      var r := [x] + t;
      forall i, j | 0 <= i < j < |r| ensures StrLe(key(r[j]), key(r[i])) {
        if i == 0 && j > 1 { StrLeTransitive(key(r[j]), key(t[0]), key(x)); }
      }
    } else {
      StrLeTotal(key(t[0]), key(x));
      var rest := InsertDesc(x, t[1..], key);
      InsertDescSorted(x, t[1..], key);
      var r := [t[0]] + rest;
      assert multiset(rest) == multiset(t[1..]) + multiset{x};
      forall j | 0 <= j < |rest| ensures StrLe(key(rest[j]), key(t[0])) {
        assert rest[j] in multiset(rest);
        if rest[j] == x {
        } else {
          assert rest[j] in multiset(t[1..]);
          var k :| 0 <= k < |t[1..]| && t[1..][k] == rest[j];
          assert t[k + 1] == rest[j];
        }
      }
      assert r == InsertDesc(x, t, key);
    }
  }

  /** `sorted(s, key=key, reverse=True)`: stable, so elements with equal
      keys keep their original order. */
  function SortDesc<T>(s: seq<T>, key: T -> string): (r: seq<T>)
    decreases |s|
    ensures |r| == |s| && multiset(r) == multiset(s)
  {
    if s == [] then []
    else
      assert s == [s[0]] + s[1..];
      InsertDesc(s[0], SortDesc(s[1..], key), key)
  }

  lemma {:induction false} SortDescSorted<T>(s: seq<T>, key: T -> string)
    ensures SortedDesc(SortDesc(s, key), key)
    decreases |s|
  {
    if s != [] {
      SortDescSorted(s[1..], key);
      InsertDescSorted(s[0], SortDesc(s[1..], key), key);
    }
  }

  /** `r` holds the greatest keys of `s`: every element of `s` left out of
      `r` has a key no greater than any key in `r`. */
  ghost predicate TopOf<T>(r: seq<T>, s: seq<T>, key: T -> string) {
    multiset(r) <= multiset(s) &&
    forall x, y :: x in r && y in multiset(s) - multiset(r) ==> StrLe(key(y), key(x))
  }

  /** A prefix of a descending sequence holds its greatest keys. */
  lemma SortedPrefixTop<T>(t: seq<T>, b: nat, key: T -> string)
    requires SortedDesc(t, key) && b <= |t|
    ensures TopOf(t[..b], t, key)
  {
    var r, rest := t[..b], t[b..];
    assert t == r + rest;
    assert multiset(t) - multiset(r) == multiset(rest);
    forall x, y | x in r && y in multiset(t) - multiset(r) ensures StrLe(key(y), key(x)) {
      var i :| 0 <= i < |r| && r[i] == x;
      var j :| 0 <= j < |rest| && rest[j] == y;
      assert t[i] == x && t[b + j] == y;
    }
  }

  /** `sorted(s, key, reverse=True)[:limit]`: `min(limit, |s|)` elements
      for a non-negative limit, still ordered, and the top ones of `s`. */
  lemma SortedTop<T>(s: seq<T>, key: T -> string, limit: int)
    ensures SortedDesc(PySlice(SortDesc(s, key), 0, limit), key)
    ensures limit >= 0 ==> |PySlice(SortDesc(s, key), 0, limit)| == if limit < |s| then limit else |s|
    ensures TopOf(PySlice(SortDesc(s, key), 0, limit), s, key)
  {
    var sorted := SortDesc(s, key);
    SortDescSorted(s, key);
    var b := SliceBound(limit, |sorted|);
    assert PySlice(sorted, 0, limit) == sorted[..b];
    SortedPrefixTop(sorted, b, key);
  }

  /** Keep the elements that satisfy p, in order (a list comprehension with
      an `if`). */
  function Filter<T>(s: seq<T>, p: T -> bool): (r: seq<T>)
    decreases |s|
    ensures |r| <= |s|
    ensures forall i :: 0 <= i < |r| ==> p(r[i]) && r[i] in s
    ensures forall i :: 0 <= i < |s| && p(s[i]) ==> s[i] in r
  {
    if s == [] then []
    else
      if p(s[0]) then [s[0]] + Filter(s[1..], p) else Filter(s[1..], p)
  }

  /** Filtering only drops elements: the result is a sub-multiset of the input. */
  lemma {:induction false} FilterSubMultiset<T>(s: seq<T>, p: T -> bool)
    ensures multiset(Filter(s, p)) <= multiset(s)
    decreases |s|
  {
    if s != [] {
      FilterSubMultiset(s[1..], p);
      assert s == [s[0]] + s[1..];
    }
  }

  /** Membership in a filtered sequence, stated without indices. */
  lemma FilterMembers<T>(s: seq<T>, p: T -> bool)
    ensures forall x :: x in Filter(s, p) <==> x in s && p(x)
  {
    var r := Filter(s, p);
    forall x | x in s && p(x) ensures x in r {
      var i :| 0 <= i < |s| && s[i] == x;
    }
    forall x | x in r ensures x in s && p(x) {
      var i :| 0 <= i < |r| && r[i] == x;
    }
  }

  /** Filtering a sequence with one more element at its end. */
  lemma {:induction false} FilterSnoc<T>(s: seq<T>, x: T, p: T -> bool)
    ensures Filter(s + [x], p) == Filter(s, p) + (if p(x) then [x] else [])
    decreases |s|
  {
    if s == [] {
      assert [x][1..] == [];
      assert Filter([x], p) == (if p(x) then [x] else []) + Filter([x][1..], p);
    } else {
      var t := s + [x];
      assert t[0] == s[0];
      assert t[1..] == s[1..] + [x];
      FilterSnoc(s[1..], x, p);
      FilterUnfold(t, p);
      FilterUnfold(s, p);
    }
  }

  lemma FilterUnfold<T>(s: seq<T>, p: T -> bool)
    requires s != []
    ensures Filter(s, p) == (if p(s[0]) then [s[0]] else []) + Filter(s[1..], p)
  {
  }

  function Count<T>(s: seq<T>, p: T -> bool): (n: nat)
    ensures n <= |s|
  {
    |Filter(s, p)|
  }

  /** The positions of `s` whose element satisfies `p`. */
  function Positions<T>(s: seq<T>, p: T -> bool): set<int> {
    set i | 0 <= i < |s| && p(s[i])
  }

  lemma PositionsSnoc<T>(t: seq<T>, x: T, p: T -> bool)
    ensures Positions(t + [x], p) == Positions(t, p) + (if p(x) then {|t|} else {})
    ensures |t| !in Positions(t, p)
  {
    var s := t + [x];
    forall i | 0 <= i < |t| ensures s[i] == t[i] { }
    assert s[|t|] == x;
  }

  /** The count is the number of positions whose element satisfies `p`. */
  lemma {:induction false} CountIndices<T>(s: seq<T>, p: T -> bool)
    ensures Count(s, p) == |Positions(s, p)|
    decreases |s|
  {
    if s != [] {
      var t, x := s[..|s| - 1], s[|s| - 1];
      assert s == t + [x];
      CountIndices(t, p);
      FilterSnoc(t, x, p);
      PositionsSnoc(t, x, p);
    }
  }

  /** A sequence without repeats has as many elements as its set. */
  lemma {:induction false} DistinctCard<T>(s: seq<T>)
    requires Distinct(s)
    ensures |set x | x in s| == |s|
    decreases |s|
  {
    if s != [] {
      var init, x := s[..|s| - 1], s[|s| - 1];
      assert s == init + [x];
      assert Distinct(init) by {
        forall i, j | 0 <= i < j < |init| ensures init[i] != init[j] {
          assert init[i] == s[i] && init[j] == s[j];
        }
      }
      assert x !in init by {
        forall i | 0 <= i < |init| ensures init[i] != x {
          assert init[i] == s[i];
        }
      }
      DistinctCard(init);
      assert (set y | y in s) == (set y | y in init) + {x};
    }
  }

}
