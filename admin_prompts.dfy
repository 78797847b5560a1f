/** The prompt helpers of the admin service: the syntax check of a prompt
    text and the placeholder preview. */
module AdminPrompts {
  import opened Common

  // ---------------------------------------------------------------------
  // `validate_prompt`
  // ---------------------------------------------------------------------

  datatype Validation = Validation(valid: bool, errors: seq<string>, warnings: seq<string>, suggestions: seq<string>)

  const TitleWarning: string := "建议包含商品标题变量 {title}"
  const PriceMissing: string := "价格提示词必须包含价格变量 {price}"
  const TooShort: string := "提示词内容过短"
  const TooLong: string := "提示词内容较长，可能影响处理效率"

  /** The messages for a prompt of the given type (`None` when the request
      names none): the title hint and the length warning are warnings, a
      price prompt without `{price}` and a text under 10 characters are
      errors, and the prompt is valid iff there is no error. */
  function ValidatePrompt(content: string, promptType: Option<string>): (v: Validation)
    ensures v.valid <==> v.errors == []
    ensures v.valid <==> |content| >= 10 && (promptType != Some("price") || Contains(content, "{price}"))
    ensures PriceMissing in v.errors <==> promptType == Some("price") && !Contains(content, "{price}")
    ensures TooShort in v.errors <==> |content| < 10
    ensures TitleWarning in v.warnings <==> !Contains(content, "{title}")
    ensures TooLong in v.warnings <==> |content| > 2000
    ensures !Contains(content, "{title}") ==> v.warnings[0] == TitleWarning
    ensures |v.errors| <= 2 && |v.warnings| <= 2 && v.suggestions == []
  {
    var warnings := (if !Contains(content, "{title}") then [TitleWarning] else []) +
                    (if 10 <= |content| && |content| > 2000 then [TooLong] else []);
    var errors := (if !Contains(content, "{price}") && promptType == Some("price") then [PriceMissing] else []) +
                  (if |content| < 10 then [TooShort] else []);
    assert TitleWarning != TooLong by { assert |TitleWarning| != |TooLong|; }
    assert PriceMissing != TooShort by { assert |PriceMissing| != |TooShort|; }
    Validation(|errors| == 0, errors, warnings, [])
  }

  // ---------------------------------------------------------------------
  // `preview_prompt`
  // ---------------------------------------------------------------------

  /** `{key}` */
  function Placeholder(key: string): (p: string)
    ensures |p| == |key| + 2 && p[0] == '{' && p[|p| - 1] == '}'
    ensures p[1..|p| - 1] == key
  {
    "{" + key + "}"
  }

  datatype Preview = Preview(preview: string, variables: map<string, string>, wordCount: nat)

  /** The product fields in the order the request lists them. */
  type Info = seq<(string, Scalar)>

  /** The preview text after the fields of `info` in order: a field whose
      placeholder occurs in the original `content` has its placeholder
      replaced in the text built so far. */
  function PreviewText(content: string, info: Info): string {
    if info == [] then content
    else
      var prior := PreviewText(content, info[..|info| - 1]);
      var (k, v) := info[|info| - 1];
      if Contains(content, Placeholder(k)) then Replace(prior, Placeholder(k), ScalarText(v)) else prior
  }

  /** The `variables` map after the fields of `info`. */
  function Variables(content: string, info: Info): map<string, string> {
    if info == [] then map[]
    else
      var prior := Variables(content, info[..|info| - 1]);
      var (k, v) := info[|info| - 1];
      if Contains(content, Placeholder(k)) then prior[k := ScalarText(v)] else prior
  }

  /** Walk the fields, substituting into the preview and recording each
      substituted field. */
  method PreviewPrompt(content: string, info: Info) returns (r: Preview)
    ensures r.preview == PreviewText(content, info)
    ensures r.variables == Variables(content, info)
    ensures r.wordCount == |r.preview|
  {
    var preview := content;
    var variables: map<string, string> := map[];
    var i := 0;
    while i < |info|
      invariant 0 <= i <= |info|
      invariant preview == PreviewText(content, info[..i])
      invariant variables == Variables(content, info[..i])
    {
      assert info[..i + 1][..i] == info[..i];
      var (key, value) := info[i];
      var placeholder := "{" + key + "}";
      if Contains(content, placeholder) {
        preview := Replace(preview, placeholder, ScalarText(value));
        variables := variables[key := ScalarText(value)];
      }
      i := i + 1;
    }
    assert info[..|info|] == info;
    r := Preview(preview, variables, |preview|);
  }

  /** Exactly the fields whose placeholder occurs in the original content
      are recorded. */
  lemma {:induction false} VariablesKeys(content: string, info: Info)
    ensures forall k :: k in Variables(content, info) <==>
              Contains(content, Placeholder(k)) && exists i :: 0 <= i < |info| && info[i].0 == k
    decreases |info|
  {
    if info != [] {
      var init := info[..|info| - 1];
      VariablesKeys(content, init);
      forall k ensures k in Variables(content, info) <==>
                       Contains(content, Placeholder(k)) && exists i :: 0 <= i < |info| && info[i].0 == k
      {
        if exists i :: 0 <= i < |info| && info[i].0 == k {
          var i :| 0 <= i < |info| && info[i].0 == k;
          if i < |init| {
            assert init[i].0 == k;
          }
        }
        if exists i :: 0 <= i < |init| && init[i].0 == k {
          var i :| 0 <= i < |init| && init[i].0 == k;
          assert info[i].0 == k;
        }
      }
    }
  }

  /** With distinct field names (as in a JSON object), each recorded field
      maps to the text of its value. */
  lemma {:induction false} VariablesValues(content: string, info: Info)
    requires forall i, j :: 0 <= i < j < |info| ==> info[i].0 != info[j].0
    ensures forall i :: 0 <= i < |info| && Contains(content, Placeholder(info[i].0)) ==>
              info[i].0 in Variables(content, info) &&
              Variables(content, info)[info[i].0] == ScalarText(info[i].1)
    decreases |info|
  {
    if info != [] {
      var init := info[..|info| - 1];
      VariablesValues(content, init);
      forall i | 0 <= i < |info| && Contains(content, Placeholder(info[i].0))
        ensures info[i].0 in Variables(content, info) &&
                Variables(content, info)[info[i].0] == ScalarText(info[i].1)
      {
        if i < |init| {
          assert init[i] == info[i];
        }
      }
    }
  }

  /** A content with none of the fields' placeholders is previewed as it
      is, with no variables. */
  lemma {:induction false} PreviewUnchanged(content: string, info: Info)
    requires forall i :: 0 <= i < |info| ==> !Contains(content, Placeholder(info[i].0))
    ensures PreviewText(content, info) == content
    ensures Variables(content, info) == map[]
    decreases |info|
  {
    if info != [] {
      PreviewUnchanged(content, info[..|info| - 1]);
    }
  }
}
