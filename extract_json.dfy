/**
 * `OllamaClient._extract_json`: isolating the JSON payload in a model reply.
 *
 * The reply is trimmed, a markdown code block is unwrapped (a block tagged
 * `json` is preferred to a plain one), and then two candidates are decoded
 * in order: the slice from the first `{` to the last `}`, and the whole
 * cleaned text. `json.loads` itself is not modelled: it is the parameter
 * `decode`, which gives the decoded value or None where `json.loads` raises.
 */
module ExtractJson {
  import opened JsonValue
  import opened Text

  const JsonFence: string := "```json"
  const Fence: string := "```"
  const NoJsonPrefix: string := "Não foi possível extrair JSON válido da resposta: "
  const ExcerptLength: nat := 200

  /** A tagged fence is also a plain fence. */
  lemma JsonFenceIsFence(t: string)
    ensures Contains(t, JsonFence) ==> Contains(t, Fence)
  {
    if Contains(t, JsonFence) {
      var i: nat :| i <= |t| && OccursAt(t, JsonFence, i);
      assert t[i..i + 3] == t[i..i + 7][..3];
      assert OccursAt(t, Fence, i);
    }
  }

  /**
   * Lines 70-74: unwrap a markdown code block. With a ```` ```json ```` tag, the
   * payload is the second piece of `split("```json")`, cut at its first fence;
   * otherwise the second piece of `split("```")`. The payload is then trimmed.
   */
  function StripFence(text: string): (r: string)
    ensures !Contains(text, Fence) ==> r == text
    ensures Contains(text, Fence) ==> !Contains(r, Fence)
    ensures |r| <= |text|
  {
    JsonFenceIsFence(text);
    if Contains(text, JsonFence) then
      var block := Before(Before(After(text, JsonFence), JsonFence), Fence);
      SliceAvoids(block, Fence, StripStart(block), StripEnd(block, StripStart(block)));
      Strip(block)
    else if Contains(text, Fence) then
      var block := Before(Before(After(text, Fence), Fence), Fence);
      SliceAvoids(block, Fence, StripStart(block), StripEnd(block, StripStart(block)));
      Strip(block)
    else text
  }

  /**
   * With only plain fences, the payload is the text between the first and the
   * second fence, or all the text after the first fence when there is no second.
   */
  lemma PlainFencePayload(t: string)
    requires !Contains(t, JsonFence) && Contains(t, Fence)
    ensures StripFence(t) == Strip(Before(After(t, Fence), Fence))
    ensures !Contains(After(t, Fence), Fence) ==> StripFence(t) == Strip(After(t, Fence))
  {
    BeforeIdempotent(After(t, Fence), Fence);
  }

  /**
   * With a single ```` ```json ```` tag, the payload is the text after the tag up to
   * the next fence, or all the text after the tag when no fence follows it.
   */
  lemma TaggedFencePayload(t: string)
    requires Contains(t, JsonFence)
    requires !Contains(After(t, JsonFence), JsonFence)
    ensures StripFence(t) == Strip(Before(After(t, JsonFence), Fence))
    ensures !Contains(After(t, JsonFence), Fence) ==> StripFence(t) == Strip(After(t, JsonFence))
  {
  }

  /** A payload without backquotes, closed by a fence, ends at that fence and holds no tag. */
  lemma ClosedPayload(p: string)
    requires forall i :: 0 <= i < |p| ==> p[i] != '`'
    ensures Before(p + Fence, Fence) == p
    ensures !Contains(p + Fence, JsonFence)
  {
    var body := p + Fence;
    assert OccursAt(body, Fence, |p|);
    BeforeAt(body, Fence, |p|);
    assert body[..|p|] == p;
    forall j: nat | j + |JsonFence| <= |body| ensures !OccursAt(body, JsonFence, j) {
      assert body[j..j + |JsonFence|][0] == body[j] == p[j];
    }
  }

  /** A payload without backquotes inside a ```` ```json ```` block is the block's content, trimmed. */
  lemma TaggedBlockPayload(p: string)
    requires forall i :: 0 <= i < |p| ==> p[i] != '`'
    ensures StripFence(JsonFence + p + Fence) == Strip(p)
  {
    var body := p + Fence;
    ClosedPayload(p);
    var tagged := JsonFence + p + Fence;
    assert tagged == JsonFence + body;
    FindAtStart(tagged, JsonFence);
    assert After(tagged, JsonFence) == body;
    assert Before(body, JsonFence) == body;
  }

  /** A plain block around a backquote-free payload not starting with `j` holds no tag. */
  lemma PlainBlockHasNoTag(p: string)
    requires forall i :: 0 <= i < |p| ==> p[i] != '`'
    requires p == [] || p[0] != 'j'
    ensures !Contains(Fence + p + Fence, JsonFence)
  {
    var plain := Fence + p + Fence;
    forall j: nat | j + |JsonFence| <= |plain| ensures !OccursAt(plain, JsonFence, j) {
      var w := plain[j..j + |JsonFence|];
      if j < 3 {
        assert w[3 - j] == plain[3] == p[0];
      } else {
        assert w[0] == plain[j] == p[j - 3];
      }
    }
  }

  /**
   * A payload without backquotes inside a plain ```` ``` ```` block is the block's
   * content, trimmed, unless it starts with `j` (a payload starting with `json`
   * turns the block into a tagged one).
   */
  lemma PlainBlockPayload(p: string)
    requires forall i :: 0 <= i < |p| ==> p[i] != '`'
    requires p == [] || p[0] != 'j'
    ensures StripFence(Fence + p + Fence) == Strip(p)
  {
    var body := p + Fence;
    ClosedPayload(p);
    var plain := Fence + p + Fence;
    assert plain == Fence + body;
    PlainBlockHasNoTag(p);
    assert OccursAt(plain, Fence, 3 + |p|);
    FindAtStart(plain, Fence);
    assert After(plain, Fence) == body;
    BeforeIdempotent(body, Fence);
  }

  /** The reply after line 68 and lines 70-74: trimmed, then unwrapped from a code block. */
  function Cleaned(text: string): (t: string)
    ensures |t| <= |text|
    ensures !Contains(t, Fence)
    ensures Strip(t) == t
  {
    StripIdempotent(text);
    StripFenceKeepsStripped(Strip(text));
    StripFence(Strip(text))
  }

  /** Unwrapping a trimmed text leaves it trimmed: the payload is trimmed at lines 72 and 74. */
  lemma StripFenceKeepsStripped(t: string)
    requires Strip(t) == t
    ensures Strip(StripFence(t)) == StripFence(t)
  {
    if Contains(t, JsonFence) {
      StripIdempotent(Before(Before(After(t, JsonFence), JsonFence), Fence));
    } else if Contains(t, Fence) {
      StripIdempotent(Before(Before(After(t, Fence), Fence), Fence));
    }
  }

  /**
   * Lines 77-81: the slice from the first `{` to the last `}`, inclusive, when the
   * first `{` comes before the last `}`.
   */
  function BraceSlice(t: string): (r: Option<string>)
    ensures r.Some? <==> exists i, j :: 0 <= i < j < |t| && t[i] == '{' && t[j] == '}'
    ensures r.Some? ==>
      |r.value| >= 2 && r.value[0] == '{' && r.value[|r.value| - 1] == '}'
      && exists i: nat :: OccursAt(t, r.value, i)
           && (forall k :: 0 <= k < i ==> t[k] != '{')
           && (forall k :: i + |r.value| <= k < |t| ==> t[k] != '}')
  {
    var start := FindChar(t, '{');
    var end := RFindChar(t, '}');
    if start != -1 && end != -1 && end > start then
      var slice := t[start..end + 1];
      assert OccursAt(t, slice, start);
      Some(slice)
    else
      None
  }

  /** `text[:200]`. */
  function Excerpt(t: string): (e: string)
    ensures |e| <= ExcerptLength && |e| <= |t| && e == t[..|e|]
    ensures |t| <= ExcerptLength ==> e == t
    ensures |t| > ExcerptLength ==> |e| == ExcerptLength
  {
    if |t| <= ExcerptLength then t else t[..ExcerptLength]
  }

  /**
   * `_extract_json` (lines 57-91). The brace slice is decoded first; the whole
   * cleaned text only when there is no brace slice or it does not decode; when
   * neither decodes, a ValueError carries at most 200 characters of the
   * cleaned text.
   */
  function Extract(text: string, decode: string -> Option<Value>): (r: Result<Value, Error>)
    ensures BraceSlice(Cleaned(text)).Some? && decode(BraceSlice(Cleaned(text)).value).Some? ==>
      r == Ok(decode(BraceSlice(Cleaned(text)).value).value)
    ensures (BraceSlice(Cleaned(text)).None? || decode(BraceSlice(Cleaned(text)).value).None?) ==>
      (decode(Cleaned(text)).Some? ==> r == Ok(decode(Cleaned(text)).value))
    ensures r.Err? <==>
      (BraceSlice(Cleaned(text)).None? || decode(BraceSlice(Cleaned(text)).value).None?)
      && decode(Cleaned(text)).None?
    ensures r.Err? ==> r.error == ValueError(NoJsonPrefix + Excerpt(Cleaned(text)))
  {
    var t := Cleaned(text);
    var slice := BraceSlice(t);
    if slice.Some? && decode(slice.value).Some? then
      Ok(decode(slice.value).value)
    else
      match decode(t)
      case Some(v) => Ok(v)
      case None => Err(ValueError(NoJsonPrefix + Excerpt(t)))
  }

  /** A text in brackets holding no backquote is left as it is by trimming and unwrapping. */
  lemma BracketedIsClean(o: string)
    requires forall i :: 0 <= i < |o| ==> o[i] != '`'
    ensures Cleaned("[" + o + "]") == "[" + o + "]"
  {
    var t := "[" + o + "]";
    assert StripStart(t) == 0;
    assert StripEnd(t, 0) == |t|;
    assert t[0..|t|] == t;
    forall j: nat | j + |Fence| <= |t| ensures !OccursAt(t, Fence, j) {
      assert t[j..j + |Fence|][0] == t[j];
      if 0 < j {
        assert t[j] == o[j - 1];
      }
    }
  }

  /**
   * A reply that is a one-element list of objects, `[` + o + `]`, has that object
   * as its brace slice: when the object decodes, `_extract_json` returns it, and
   * the list the reply spells is never looked at.
   */
  lemma SingleObjectListUnwrapped(o: string, decode: string -> Option<Value>)
    requires |o| >= 2 && o[0] == '{' && o[|o| - 1] == '}'
    requires forall i :: 0 <= i < |o| ==> o[i] != '`'
    requires decode(o).Some?
    ensures Cleaned("[" + o + "]") == "[" + o + "]"
    ensures Extract("[" + o + "]", decode) == Ok(decode(o).value)
  {
    var t := "[" + o + "]";
    BracketedIsClean(o);
    assert t[0] != '{' && t[1] == o[0];
    assert FindChar(t, '{') == 1;
    assert t[|t| - 1] == ']' && t[|t| - 2] == o[|o| - 1];
    assert RFindChar(t, '}') == |o|;
    assert t[1..|o| + 1] == o;
  }

  /**
   * Extraction as the list-expecting callers evidently intend it: a reply that
   * decodes as a whole to a list is that list; any other reply is extracted as
   * `_extract_json` does.
   */
  function ExtractList(text: string, decode: string -> Option<Value>): Result<Value, Error> {
    var whole := decode(Cleaned(text));
    if whole.Some? && whole.value.Arr? then Ok(whole.value) else Extract(text, decode)
  }

  /**
   * The correction keeps every list the reply spells, fails on exactly the
   * replies `_extract_json` fails on, and agrees with it on every result that
   * is not a list.
   */
  lemma ExtractListAgrees(text: string, decode: string -> Option<Value>)
    ensures decode(Cleaned(text)).Some? && decode(Cleaned(text)).value.Arr? ==>
      ExtractList(text, decode) == Ok(decode(Cleaned(text)).value)
    ensures ExtractList(text, decode).Err? <==> Extract(text, decode).Err?
    ensures ExtractList(text, decode).Ok? && !ExtractList(text, decode).value.Arr? ==>
      ExtractList(text, decode) == Extract(text, decode)
  {
  }

  /** Whatever `_extract_json` returns is what `json.loads` made of one of its two candidates. */
  lemma ExtractDecodesACandidate(text: string, decode: string -> Option<Value>)
    requires Extract(text, decode).Ok?
    ensures decode(Cleaned(text)) == Some(Extract(text, decode).value)
      || (BraceSlice(Cleaned(text)).Some?
          && decode(BraceSlice(Cleaned(text)).value) == Some(Extract(text, decode).value))
  {
  }

  /** A reply without fences or surrounding blanks is decoded as it is when it holds no brace pair. */
  lemma PlainReplyDecodedWhole(text: string, decode: string -> Option<Value>)
    requires Strip(text) == text && !Contains(text, Fence)
    requires forall i, j :: 0 <= i < j < |text| ==> !(text[i] == '{' && text[j] == '}')
    ensures Extract(text, decode) ==
      match decode(text)
      case Some(v) => Ok(v)
      case None => Err(ValueError(NoJsonPrefix + Excerpt(text)))
  {
  }
}
