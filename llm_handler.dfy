/**
 * The string handling of the code-generation helper: stripping a markdown
 * code fence from a model reply, and cutting the `WidgetBase` class out of
 * the base-class source file so that it can be quoted in a prompt.
 */
module LlmHandler {
  import opened Strings

  const Fence := "```"

  /** The reply carries a JavaScript fence (`"```javascript" in response or "```js" in response`). */
  predicate HasJsFence(response: string) {
    Contains(response, "```javascript") || Contains(response, "```js")
  }

  /** The fenced segment starts with a language tag that is to be dropped. */
  predicate HasLanguageTag(segment: string) {
    StartsWith(segment, "javascript") || StartsWith(segment, "js")
  }

  /**
   * `_extract_widget_code`: when the reply carries a JavaScript fence, keep the
   * text between the first two fences, and drop its first line when that
   * segment starts with a language tag; otherwise keep the reply as it is.
   */
  function ExtractWidgetCode(response: string): (code: string)
    ensures Contains(response, code)
    ensures HasJsFence(response) ==> !Contains(code, Fence)
  {
    if HasJsFence(response) then
      var segment := FencedSegment(response);
      var code := if HasLanguageTag(segment) then segment[Find(segment, "\n") + 1..] else segment;
      SuffixFacts(segment, Find(segment, "\n") + 1);
      SuffixFacts(segment, 0);
      ContainsTrans(response, segment, code);
      code
    else
      SuffixFacts(response, 0);
      response
  }

  /**
   * The text between the first two fences of a fenced reply
   * (`response.split("```")[1]`): it starts right after the first fence and
   * runs up to where the next fence begins, or to the end when there is none.
   */
  function FencedSegment(response: string): (segment: string)
    requires HasJsFence(response)
    ensures Contains(response, segment) && !Contains(segment, Fence)
    ensures Contains(response, Fence) && Find(response, Fence) + |Fence| <= |response|
    ensures var rest := response[Find(response, Fence) + |Fence|..];
      && |segment| <= |rest| && segment == rest[..|segment|]
      && (|segment| == |rest| || OccursAt(rest, Fence, |segment|))
      && forall j: nat :: j < |segment| ==> !OccursAt(rest, Fence, j)
  {
    FenceInJsFence(response);
    SplitSecond(response, Fence)
  }

  /** A suffix of a string is contained in it, and so holds no fence when the string holds none. */
  lemma SuffixFacts(s: string, k: nat)
    requires k <= |s|
    ensures Contains(s, s[k..])
    ensures !Contains(s, Fence) ==> !Contains(s[k..], Fence)
  {
    SliceContained(s, k, |s|);
    assert s[k..|s|] == s[k..];
    assert s[0..] == s;
    if Contains(s[k..], Fence) {
      ContainsTrans(s, s[k..], Fence);
    }
  }

  /** A reply with a JavaScript fence contains a bare fence. */
  lemma FenceInJsFence(response: string)
    requires HasJsFence(response)
    ensures Contains(response, Fence)
  {
    if Contains(response, "```javascript") {
      assert OccursAt("```javascript", Fence, 0);
      ContainsTrans(response, "```javascript", Fence);
    } else {
      assert OccursAt("```js", Fence, 0);
      ContainsTrans(response, "```js", Fence);
    }
  }

  /** The reply comes back unchanged exactly when it carries no JavaScript fence. */
  lemma ExtractUnchangedIffNoFence(response: string)
    ensures ExtractWidgetCode(response) == response <==> !HasJsFence(response)
  {
    if HasJsFence(response) {
      FenceInJsFence(response);
    }
  }

  /**
   * With a fence, the segment between the first two fences is returned, minus
   * everything up to and including its first newline when it starts with a
   * language tag; a tagged segment without any newline is kept whole, because
   * `find` then yields -1.
   */
  lemma ExtractFencedSegment(response: string)
    requires HasJsFence(response)
    ensures var segment := FencedSegment(response);
      && (!HasLanguageTag(segment) ==> ExtractWidgetCode(response) == segment)
      && (HasLanguageTag(segment) && !Contains(segment, "\n") ==> ExtractWidgetCode(response) == segment)
      && (HasLanguageTag(segment) && Contains(segment, "\n") ==>
            exists k :: 0 <= k < |segment| && segment[k] == '\n' && '\n' !in segment[..k]
                     && ExtractWidgetCode(response) == segment[k + 1..])
  {
    var segment := FencedSegment(response);
    if HasLanguageTag(segment) && Contains(segment, "\n") {
      var k := Find(segment, "\n");
      assert segment[k..k + 1] == "\n";
      assert segment[k] == '\n';
      forall j | 0 <= j < k ensures segment[..k][j] != '\n' {
        assert !OccursAt(segment, "\n", j);
        assert segment[j..j + 1] == [segment[j]];
      }
    }
  }

  /**
   * A ```` ```json ```` fence is stripped like a JavaScript one: it contains
   * ```` ```js ```` and its tag `json` starts with `js`, so for a body without
   * backquotes ```` ```json\n{body}```{rest} ```` yields `body`.
   */
  lemma JsonFenceIsStripped(body: string, rest: string)
    requires '`' !in body
    ensures ExtractWidgetCode(Fence + "json\n" + body + Fence + rest) == body
  {
    var response := Fence + "json\n" + body + Fence + rest;
    assert OccursAt(response, "```js", 0);
    assert HasJsFence(response);
    FindIs(response, Fence, 0);
    var after := response[3..];
    assert after == "json\n" + body + Fence + rest;
    var end := 5 + |body|;
    assert OccursAt(after, Fence, end);
    forall j: nat | j < end ensures !OccursAt(after, Fence, j) {
      if j + 3 <= |after| && j < end {
        assert after[j..j + 3][0] == after[j];
        if j < 5 {
          assert after[j] == "json\n"[j];
        } else {
          assert after[j] == body[j - 5];
        }
      }
    }
    FindIs(after, Fence, end);
    var segment := after[..end];
    assert segment == "json\n" + body;
    assert StartsWith(segment, "js");
    assert OccursAt(segment, "\n", 4);
    forall j: nat | j < 4 ensures !OccursAt(segment, "\n", j) {
      assert segment[j..j + 1][0] == segment[j];
    }
    FindIs(segment, "\n", 4);
    assert segment[5..] == body;
  }

  /** What reading the base-class source file produced. */
  datatype BaseFile = Missing | ReadFailed | Content(text: string)

  const Marker := "export class WidgetBase"

  /**
   * `_load_widget_base_template`: the class text after the first `export
   * class WidgetBase` (up to any second one), renamed to `class WidgetBase`,
   * with a final `}` removed and the result stripped; a fixed comment when the
   * file is missing, unreadable or has no such class.
   */
  function LoadWidgetBaseTemplate(file: BaseFile): (template: string)
    ensures file.Missing? ==> template == "// WidgetBase class file not found"
    ensures file.ReadFailed? ==> template == "// Error loading WidgetBase class definition"
    ensures file.Content? && !Contains(file.text, Marker) ==>
      template == "// WidgetBase class definition not found in file"
  {
    match file
    case Missing => "// WidgetBase class file not found"
    case ReadFailed => "// Error loading WidgetBase class definition"
    case Content(text) =>
      if Contains(text, Marker) then
        var classDef := "class WidgetBase" + SplitSecond(text, Marker);
        if EndsWith(classDef, "}") then Strip(classDef[..|classDef| - 1]) else classDef
      else
        "// WidgetBase class definition not found in file"
  }

  /**
   * When the class is found, the template starts with `class WidgetBase`
   * followed by the text after the first marker, up to where a second one
   * begins or to the end. Only when that text ends with `}` is the brace
   * dropped and the rest stripped: the template is then what `strip` makes of
   * the text before the brace. Otherwise nothing is touched.
   */
  lemma TemplateFromClassText(text: string)
    requires Contains(text, Marker)
    ensures Find(text, Marker) + |Marker| <= |text|
    ensures var rest := text[Find(text, Marker) + |Marker|..];
      var piece := SplitSecond(text, Marker);
      var classDef := "class WidgetBase" + piece;
      var template := LoadWidgetBaseTemplate(Content(text));
      && StartsWith(rest, piece) && !Contains(piece, Marker)
      && (piece == rest || OccursAt(rest, Marker, |piece|))
      && StartsWith(template, "class WidgetBase")
      && (!EndsWith(classDef, "}") ==> template == classDef)
      && (EndsWith(classDef, "}") ==>
            template == Strip(classDef[..|classDef| - 1]) && IsStripOf(classDef[..|classDef| - 1], template))
  {
    var piece := SplitSecond(text, Marker);
    var classDef := "class WidgetBase" + piece;
    var rest := text[Find(text, Marker) + |Marker|..];
    assert StartsWith(rest, piece);
    assert piece == rest || OccursAt(rest, Marker, |piece|);
    assert StartsWith(classDef, "class WidgetBase");
    if EndsWith(classDef, "}") {
      StrippedClassBody(classDef);
    }
  }

  /**
   * Dropping the final brace of a class text and stripping the rest keeps the
   * leading `class WidgetBase` and gives what `strip` promises.
   */
  lemma StrippedClassBody(classDef: string)
    requires StartsWith(classDef, "class WidgetBase") && EndsWith(classDef, "}")
    ensures var template := Strip(classDef[..|classDef| - 1]);
      && StartsWith(template, "class WidgetBase")
      && IsStripOf(classDef[..|classDef| - 1], template)
  {
    assert classDef[|classDef| - 1] == '}' && classDef[15] == 'e';
    var body := classDef[..|classDef| - 1];
    assert StartsWith(body, "class WidgetBase") by {
      assert body[..16] == classDef[..16];
    }
    StripKeepsPrefix(body, "class WidgetBase");
    StripUnique(body, Strip(body));
  }
}
