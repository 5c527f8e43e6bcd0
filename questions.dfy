/**
 * Turning a decoded model reply into quiz questions: `gerar_questoes`
 * (lines 123-160) and `gerar_reforco` (lines 279-309), from the moment the
 * model's reply text is in hand. Both unwrap the decoded value into a list,
 * keep the entries that are well-formed question records in their order,
 * and cut the result at the requested count; only `gerar_questoes` treats a
 * shortfall as an error.
 *
 * As written, a reply that spells a one-element list reaches the loop as the
 * dict inside it and is rejected (see `SingleQuestionListRejected`);
 * `QuizCorrected` and `RemediationCorrected` keep a reply that decodes to a
 * list as that list, which is what both prompts ask the model for.
 */
module Questions {
  import opened JsonValue
  import opened Text
  import ExtractJson

  /** A record as built at lines 148-152 and 303-307; the question text and options are kept as decoded. */
  datatype Question = Question(pergunta: Value, opcoes: Value, correta: string)

  const UnexpectedFormatPrefix: string := "Formato de resposta inesperado: "

  predicate IsAnswerLabel(s: string) {
    s == "A" || s == "B" || s == "C" || s == "D"
  }

  /** What the validation at lines 145 and 300 guarantees of every kept record. */
  predicate WellFormed(q: Question) {
    Truthy(q.pergunta) && Len(q.opcoes) == Some(4) && IsAnswerLabel(q.correta)
  }

  /** How Python prints `type(v)`. */
  function TypeRepr(v: Value): (r: string)
    ensures |r| == |TypeName(v)| + 10
    ensures r[..8] == "<class '" && r[8..|r| - 2] == TypeName(v) && r[|r| - 2..] == "'>"
    ensures v.Obj? ==> r == "<class 'dict'>"
  {
    "<class '" + TypeName(v) + "'>"
  }

  /**
   * Lines 127-132 and 283-288: the question list is the `questoes` entry of a
   * dict that has one, or the decoded value itself when it is a list.
   */
  function QuestionList(data: Value): (r: Result<Value, Error>)
    ensures r.Ok? <==> (data.Obj? && HasKey(data.fields, "questoes")) || data.Arr?
    ensures data.Obj? && HasKey(data.fields, "questoes") ==> Lookup(data.fields, "questoes") == Some(r.value)
    ensures data.Arr? ==> r == Ok(data)
    ensures r.Err? ==> r.error == ValueError(UnexpectedFormatPrefix + TypeRepr(data))
  {
    if data.Obj? && HasKey(data.fields, "questoes") then Ok(GetOr(data.fields, "questoes", Null))
    else if data.Arr? then Ok(data)
    else Err(ValueError(UnexpectedFormatPrefix + TypeRepr(data)))
  }

  /** The entries the loop visits once the reply has been decoded to `data`. */
  function Entries(data: Result<Value, Error>): (r: Result<seq<Value>, Error>)
    ensures data.Err? ==> r == Err(data.error)
    ensures data.Ok? && QuestionList(data.value).Err? ==> r == Err(QuestionList(data.value).error)
    ensures data.Ok? && data.value.Arr? ==> r == Ok(data.value.items)
    ensures r.Ok? ==> data.Ok? && QuestionList(data.value).Ok?
  {
    match data
    case Err(e) => Err(e)
    case Ok(v) =>
      match QuestionList(v)
      case Err(e) => Err(e)
      case Ok(questoes) =>
        match Iterate(questoes)
        case None => Err(TypeError(TypeName(questoes)))
        case Some(items) => Ok(items)
  }

  /**
   * What the loops at lines 136 and 292 visit: the entries of the question
   * list found by `_extract_json` in the reply, or the exception raised on the
   * way there.
   */
  function Candidates(reply: string, decode: string -> Option<Value>): (r: Result<seq<Value>, Error>)
    ensures ExtractJson.Extract(reply, decode).Err? ==> r == Err(ExtractJson.Extract(reply, decode).error)
    ensures r.Ok? ==> ExtractJson.Extract(reply, decode).Ok?
  {
    Entries(ExtractJson.Extract(reply, decode))
  }

  /** What the loops would visit if a reply that decodes to a list were kept as that list. */
  function CandidatesCorrected(reply: string, decode: string -> Option<Value>): Result<seq<Value>, Error> {
    Entries(ExtractJson.ExtractList(reply, decode))
  }

  /**
   * As written, a reply spelling a list of one question record is unwrapped to
   * the record itself, a dict without `questoes`, and both generators reject it,
   * whatever the requested count.
   */
  lemma SingleQuestionListRejected(o: string, decode: string -> Option<Value>, fields: seq<(string, Value)>, count: int)
    requires |o| >= 2 && o[0] == '{' && o[|o| - 1] == '}'
    requires forall i :: 0 <= i < |o| ==> o[i] != '`'
    requires decode(o) == Some(Obj(fields)) && !HasKey(fields, "questoes")
    ensures Candidates("[" + o + "]", decode) == Err(ValueError(UnexpectedFormatPrefix + "<class 'dict'>"))
    ensures Quiz("[" + o + "]", decode, count) == Err(ValueError(UnexpectedFormatPrefix + "<class 'dict'>"))
    ensures Remediation("[" + o + "]", decode, count) == Err(ValueError(UnexpectedFormatPrefix + "<class 'dict'>"))
  {
    ExtractJson.SingleObjectListUnwrapped(o, decode);
    DictRejected(fields);
  }

  /** A dict without `questoes` is rejected with its type. */
  lemma DictRejected(fields: seq<(string, Value)>)
    requires !HasKey(fields, "questoes")
    ensures Entries(Ok(Obj(fields))) == Err(ValueError(UnexpectedFormatPrefix + "<class 'dict'>"))
  {
    assert TypeRepr(Obj(fields)) == "<class 'dict'>";
  }

  /**
   * With the correction, the same reply yields its one entry, and a request for
   * one question gets exactly the record that entry passes validation as.
   */
  lemma SingleQuestionListKept(o: string, decode: string -> Option<Value>, v: Value)
    requires forall i :: 0 <= i < |o| ==> o[i] != '`'
    requires decode("[" + o + "]") == Some(Arr([v]))
    ensures CandidatesCorrected("[" + o + "]", decode) == Ok([v])
    ensures CheckEntry(v).Ok? ==> RemediationCorrected("[" + o + "]", decode, 1) == Ok(Kept(v))
    ensures CheckEntry(v).Ok? && CheckEntry(v).value.Some? ==>
      QuizCorrected("[" + o + "]", decode, 1) == Ok([CheckEntry(v).value.value])
  {
    ExtractJson.BracketedIsClean(o);
    var single := [v];
    assert single[..|single| - 1] == [];
    assert Formatted(single[..|single| - 1]) == Ok([]);
    if CheckEntry(v).Ok? && CheckEntry(v).value.Some? {
      var x := CheckEntry(v).value.value;
      assert [] + [x] == [x];
      assert Formatted(single) == Ok([x]);
      assert PyPrefix([x], 1) == [x];
    }
  }

  /**
   * One pass of the loop body at lines 137-152 (and 293-307): skip a non-dict,
   * read the three fields with their defaults, upper-case the answer label,
   * and keep the record only if it passes validation. The label is read with
   * `.upper()` before validation, so a label that is not a string raises; the
   * check calls `len` on the options only once the question text is truthy.
   */
  function CheckEntry(q: Value): (r: Result<Option<Question>, Error>)
    ensures !q.Obj? ==> r == Ok(None)
    ensures r.Ok? && r.value.Some? ==> WellFormed(r.value.value)
  {
    if !q.Obj? then Ok(None)
    else
      var pergunta := GetOr(q.fields, "pergunta", Str(""));
      var opcoes := GetOr(q.fields, "opcoes", Arr([]));
      var answer := GetOr(q.fields, "correta", Str(""));
      if !answer.Str? then Err(AttributeError(TypeName(answer)))
      else
        var correta := Upper(answer.s);
        if !Truthy(pergunta) then Ok(None)
        else
          match Len(opcoes)
          case None => Err(TypeError(TypeName(opcoes)))
          case Some(n) =>
            if n != 4 || !IsAnswerLabel(correta) then Ok(None)
            else Ok(Some(Question(pergunta, opcoes, correta)))
  }

  /**
   * What one pass of the loop does with an entry: non-dicts are skipped; a dict
   * raises exactly when its label is not a string, or its question text is
   * truthy and its options have no length; it is kept exactly when its question
   * text is truthy, its options have length 4 and its upper-cased label is one
   * of A-D; a kept record holds the fields as read, never repaired.
   */
  lemma CheckEntrySpec(q: Value)
    ensures !q.Obj? ==> CheckEntry(q) == Ok(None)
    ensures q.Obj? ==>
      var pergunta := GetOr(q.fields, "pergunta", Str(""));
      var opcoes := GetOr(q.fields, "opcoes", Arr([]));
      var answer := GetOr(q.fields, "correta", Str(""));
      && (CheckEntry(q).Err? <==> !answer.Str? || (Truthy(pergunta) && Len(opcoes).None?))
      && (CheckEntry(q).Ok? && CheckEntry(q).value.Some? <==>
            answer.Str? && Truthy(pergunta) && Len(opcoes) == Some(4) && IsAnswerLabel(Upper(answer.s)))
      && (CheckEntry(q).Ok? && CheckEntry(q).value.Some? ==>
            CheckEntry(q).value.value == Question(pergunta, opcoes, Upper(answer.s)))
    ensures CheckEntry(q).Ok? && CheckEntry(q).value.Some? ==> WellFormed(CheckEntry(q).value.value)
  {
  }

  /** The record an entry contributes to the output: one if it passes validation, none otherwise. */
  function Kept(q: Value): seq<Question> {
    match CheckEntry(q)
    case Ok(Some(x)) => [x]
    case _ => []
  }

  /**
   * The state of `questoes_formatadas` after the loop has visited `items`, or
   * the exception that stopped it.
   */
  function Formatted(items: seq<Value>): (r: Result<seq<Question>, Error>)
    ensures r.Ok? ==> |r.value| <= |items|
    ensures r.Ok? ==> forall k :: 0 <= k < |r.value| ==> WellFormed(r.value[k])
    decreases |items|
  {
    if items == [] then Ok([])
    else
      match Formatted(items[..|items| - 1])
      case Err(e) => Err(e)
      case Ok(acc) =>
        match CheckEntry(items[|items| - 1])
        case Err(e) => Err(e)
        case Ok(None) => Ok(acc)
        case Ok(Some(x)) => Ok(acc + [x])
  }

  /** The records `keep` draws from each entry, concatenated front to back. */
  function Collect(items: seq<Value>, keep: Value -> seq<Question>): seq<Question>
    decreases |items|
  {
    if items == [] then [] else keep(items[0]) + Collect(items[1..], keep)
  }

  /** Collecting preserves order: a concatenation yields the records of its parts, in turn. */
  lemma {:induction false} CollectAppend(a: seq<Value>, b: seq<Value>, keep: Value -> seq<Question>)
    ensures Collect(a + b, keep) == Collect(a, keep) + Collect(b, keep)
    decreases |a|
  {
    if a == [] {
      assert a + b == b;
    } else {
      var ab := a + b;
      assert ab[0] == a[0];
      assert ab[1..] == a[1..] + b;
      CollectAppend(a[1..], b, keep);
    }
  }

  /** A single entry yields what `keep` draws from it. */
  lemma {:induction false} CollectSingle(x: Value, keep: Value -> seq<Question>)
    ensures Collect([x], keep) == keep(x)
  {
    assert [x][1..] == [];
  }

  /** The records of a sequence split around position i. */
  lemma {:induction false} CollectAround(items: seq<Value>, i: nat, keep: Value -> seq<Question>)
    requires i < |items|
    ensures Collect(items, keep) == Collect(items[..i], keep) + keep(items[i]) + Collect(items[i + 1..], keep)
  {
    var front, x, back := items[..i], items[i], items[i + 1..];
    var rest := [x] + back;
    assert items == front + rest;
    CollectAppend(front, rest, keep);
    assert rest[0] == x && rest[1..] == back;
    assert Collect(rest, keep) == keep(x) + Collect(back, keep);
  }

  /** An independent description of the output: the kept entries, front to back. */
  function Reference(items: seq<Value>): seq<Question> {
    Collect(items, Kept)
  }

  /** At most one record per entry, and every record is well-formed. */
  lemma {:induction false} ReferenceBounds(items: seq<Value>)
    ensures |Reference(items)| <= |items|
    ensures forall k :: 0 <= k < |Reference(items)| ==> WellFormed(Reference(items)[k])
    decreases |items|
  {
    if items != [] {
      CheckEntrySpec(items[0]);
      ReferenceBounds(items[1..]);
      assert Reference(items) == Kept(items[0]) + Reference(items[1..]);
    }
  }

  /** The filter preserves order: the records of a concatenation are the records of its parts, in turn. */
  lemma ReferenceAppend(a: seq<Value>, b: seq<Value>)
    ensures Reference(a + b) == Reference(a) + Reference(b)
  {
    CollectAppend(a, b, Kept);
  }

  /** Every entry that passes validation is in the output, between the records of the entries around it. */
  lemma ReferenceKeepsAccepted(items: seq<Value>, i: nat)
    requires i < |items|
    requires CheckEntry(items[i]).Ok? && CheckEntry(items[i]).value.Some?
    ensures Reference(items) ==
      Reference(items[..i]) + [CheckEntry(items[i]).value.value] + Reference(items[i + 1..])
  {
    CollectAround(items, i, Kept);
  }

  /** A rejected entry contributes no record. */
  lemma KeptRejected(x: Value)
    requires !x.Obj? || CheckEntry(x) == Ok(None)
    ensures Kept(x) == []
  {
    if !x.Obj? {
      CheckEntrySpec(x);
    }
  }

  /** An entry that is not a dict, or a dict that fails validation, contributes nothing. */
  lemma ReferenceSkipsRejected(items: seq<Value>, i: nat)
    requires i < |items|
    requires !items[i].Obj? || CheckEntry(items[i]) == Ok(None)
    ensures Reference(items) == Reference(items[..i]) + Reference(items[i + 1..])
  {
    KeptRejected(items[i]);
    CollectAround(items, i, Kept);
  }

  /**
   * Only a list can hold question records: when the `questoes` entry is a string
   * or a dict, the loop visits characters or keys, all skipped.
   */
  lemma OnlyListsHoldRecords(reply: string, decode: string -> Option<Value>)
    requires Candidates(reply, decode).Ok?
    ensures ExtractJson.Extract(reply, decode).Ok?
    ensures QuestionList(ExtractJson.Extract(reply, decode).value).Ok?
    ensures !QuestionList(ExtractJson.Extract(reply, decode).value).value.Arr? ==>
      Reference(Candidates(reply, decode).value) == []
  {
    var items := Candidates(reply, decode).value;
    if !QuestionList(ExtractJson.Extract(reply, decode).value).value.Arr? {
      NoDictsNoRecords(items);
    }
  }

  /** Entries none of which is a dict yield no records. */
  lemma {:induction false} NoDictsNoRecords(items: seq<Value>)
    requires forall i :: 0 <= i < |items| ==> !items[i].Obj?
    ensures Reference(items) == []
    decreases |items|
  {
    if items != [] {
      CheckEntrySpec(items[0]);
      NoDictsNoRecords(items[1..]);
    }
  }

  /** Once an entry has raised, the loop's outcome is that exception. */
  lemma {:induction false} FormattedErrorSticks(items: seq<Value>, i: nat)
    requires i <= |items|
    requires Formatted(items[..i]).Err?
    ensures Formatted(items) == Formatted(items[..i])
    decreases |items| - i
  {
    if i < |items| {
      assert items[..i + 1][..i] == items[..i];
      FormattedErrorSticks(items, i + 1);
    } else {
      assert items[..i] == items;
    }
  }

  /**
   * The loop either stops at the first entry whose fields raise, or ends with
   * exactly the kept entries in their order.
   */
  lemma {:induction false} FormattedIsReference(items: seq<Value>)
    ensures Formatted(items).Ok? <==> forall i :: 0 <= i < |items| ==> CheckEntry(items[i]).Ok?
    ensures Formatted(items).Ok? ==> Formatted(items).value == Reference(items)
    ensures Formatted(items).Err? ==>
      exists i :: 0 <= i < |items| && CheckEntry(items[i]) == Err(Formatted(items).error)
        && forall j :: 0 <= j < i ==> CheckEntry(items[j]).Ok?
    decreases |items|
  {
    if items != [] {
      var front := items[..|items| - 1];
      var last := items[|items| - 1];
      FormattedIsReference(front);
      assert items == front + [last];
      CollectAppend(front, [last], Kept);
      CollectSingle(last, Kept);
      assert forall i :: 0 <= i < |front| ==> front[i] == items[i];
    }
  }

  /**
   * The validation loop of lines 135-152 (the same loop is at lines 291-307):
   * appends each kept record to `questoes_formatadas`.
   */
  method FormatQuestions(items: seq<Value>) returns (r: Result<seq<Question>, Error>)
    ensures r == Formatted(items)
  {
    var formatted: seq<Question> := [];
    var i := 0;
    while i < |items|
      invariant 0 <= i <= |items|
      invariant Formatted(items[..i]) == Ok(formatted)
    {
      assert items[..i + 1][..i] == items[..i];
      var q := items[i];
      if !q.Obj? {
        i := i + 1;
        continue;
      }
      var pergunta := GetOr(q.fields, "pergunta", Str(""));
      var opcoes := GetOr(q.fields, "opcoes", Arr([]));
      var answer := GetOr(q.fields, "correta", Str(""));
      if !answer.Str? {
        FormattedErrorSticks(items, i + 1);
        return Err(AttributeError(TypeName(answer)));
      }
      var correta := Upper(answer.s);
      if !Truthy(pergunta) {
        i := i + 1;
        continue;
      }
      var n := Len(opcoes);
      if n.None? {
        FormattedErrorSticks(items, i + 1);
        return Err(TypeError(TypeName(opcoes)));
      }
      if n.value != 4 || !IsAnswerLabel(correta) {
        i := i + 1;
        continue;
      }
      formatted := formatted + [Question(pergunta, opcoes, correta)];
      i := i + 1;
    }
    assert items[..i] == items;
    r := Ok(formatted);
  }

  /** Python's `s[:n]`: a negative `n` counts from the end. */
  function PyPrefix<T>(s: seq<T>, n: int): (r: seq<T>)
    ensures |r| <= |s| && r == s[..|r|]
    ensures n >= 0 ==> |r| == if n <= |s| then n else |s|
    ensures n < 0 ==> |r| == if |s| + n >= 0 then |s| + n else 0
  {
    if n >= 0 then (if n <= |s| then s[..n] else s)
    else if |s| + n >= 0 then s[..|s| + n]
    else []
  }

  /** The message of the ValueError at lines 155-158. */
  function TooFewMessage(found: nat, expected: int): (r: string)
    ensures |r| >= 7 + |NatToString(found)| + |IntToString(expected)|
    ensures r[..7] == "Apenas " && r[7..7 + |NatToString(found)|] == NatToString(found)
    ensures r[|r| - |IntToString(expected)|..] == IntToString(expected)
  {
    var n, e := NatToString(found), IntToString(expected);
    var head := "Apenas " + n;
    var r := head + TooFewMiddle + e;
    assert r[..|head|] == head;
    assert r[|head| + |TooFewMiddle|..] == e;
    assert head[..7] == "Apenas " && head[7..] == n;
    r
  }

  /** The fixed text between the two counts of the message at lines 155-158. */
  const TooFewMiddle: string := " questões válidas foram geradas. Esperado: "


  /**
   * Lines 154-160: the outcome of `gerar_questoes` once the loop has been given
   * `entries` (or the exception raised before it).
   */
  function QuizFrom(entries: Result<seq<Value>, Error>, count: int): (r: Result<seq<Question>, Error>)
    ensures entries.Err? ==> r == Err(entries.error)
    ensures entries.Ok? && Formatted(entries.value).Err? ==> r == Err(Formatted(entries.value).error)
    ensures entries.Ok? && Formatted(entries.value).Ok? ==>
      (r.Err? <==> |Formatted(entries.value).value| < count)
    ensures r.Ok? && count >= 0 ==>
      |r.value| == count && r.value == Formatted(entries.value).value[..count]
    ensures r.Ok? ==> forall k :: 0 <= k < |r.value| ==> WellFormed(r.value[k])
  {
    match entries
    case Err(e) => Err(e)
    case Ok(items) =>
      match Formatted(items)
      case Err(e) => Err(e)
      case Ok(all) =>
        if |all| < count then Err(ValueError(TooFewMessage(|all|, count)))
        else Ok(PyPrefix(all, count))
  }

  /** Line 309: the outcome of `gerar_reforco` once the loop has been given `entries`. */
  function RemediationFrom(entries: Result<seq<Value>, Error>, count: int): (r: Result<seq<Question>, Error>)
    ensures entries.Err? ==> r == Err(entries.error)
    ensures entries.Ok? ==> (r.Ok? <==> Formatted(entries.value).Ok?)
    ensures entries.Ok? && Formatted(entries.value).Err? ==> r == Err(Formatted(entries.value).error)
    ensures r.Ok? ==>
      && entries.Ok? && Formatted(entries.value).Ok?
      && |r.value| <= |Formatted(entries.value).value|
      && r.value == Formatted(entries.value).value[..|r.value|]
    ensures r.Ok? && count >= 0 ==> |r.value| <= count
    ensures r.Ok? ==> forall k :: 0 <= k < |r.value| ==> WellFormed(r.value[k])
  {
    match entries
    case Err(e) => Err(e)
    case Ok(items) =>
      match Formatted(items)
      case Err(e) => Err(e)
      case Ok(all) => Ok(PyPrefix(all, count))
  }

  /** `gerar_questoes` (lines 123-160) once the model has answered with `reply`. */
  function Quiz(reply: string, decode: string -> Option<Value>, count: int): Result<seq<Question>, Error> {
    QuizFrom(Candidates(reply, decode), count)
  }

  /** `gerar_reforco` (lines 279-309) once the model has answered with `reply`. */
  function Remediation(reply: string, decode: string -> Option<Value>, count: int): Result<seq<Question>, Error> {
    RemediationFrom(Candidates(reply, decode), count)
  }

  /** `gerar_questoes` with a reply that decodes to a list kept as that list. */
  function QuizCorrected(reply: string, decode: string -> Option<Value>, count: int): Result<seq<Question>, Error> {
    QuizFrom(CandidatesCorrected(reply, decode), count)
  }

  /** `gerar_reforco` with a reply that decodes to a list kept as that list. */
  function RemediationCorrected(reply: string, decode: string -> Option<Value>, count: int): Result<seq<Question>, Error> {
    RemediationFrom(CandidatesCorrected(reply, decode), count)
  }

  /** Lines 123-160: decode the reply, validate its entries, and insist on the requested count. */
  method GenerateQuiz(reply: string, decode: string -> Option<Value>, count: int)
    returns (r: Result<seq<Question>, Error>)
    ensures r == Quiz(reply, decode, count)
  {
    var items := Candidates(reply, decode);
    if items.Err? {
      return Err(items.error);
    }
    var formatted := FormatQuestions(items.value);
    if formatted.Err? {
      return Err(formatted.error);
    }
    if |formatted.value| < count {
      return Err(ValueError(TooFewMessage(|formatted.value|, count)));
    }
    r := Ok(PyPrefix(formatted.value, count));
  }

  /** Lines 279-309: decode the reply, validate its entries, and keep at most the requested count. */
  method GenerateRemediation(reply: string, decode: string -> Option<Value>, count: int)
    returns (r: Result<seq<Question>, Error>)
    ensures r == Remediation(reply, decode, count)
  {
    var items := Candidates(reply, decode);
    if items.Err? {
      return Err(items.error);
    }
    var formatted := FormatQuestions(items.value);
    if formatted.Err? {
      return Err(formatted.error);
    }
    r := Ok(PyPrefix(formatted.value, count));
  }

  /*
   * The lemmas below are stated over the entries the loop is given, so they hold
   * of `Quiz` and `Remediation` (entries `Candidates(reply, decode)`) and of the
   * corrected generators alike.
   */

  /**
   * A quiz that is returned has exactly the requested number of records, all
   * well-formed, and they are the first kept entries, in order.
   */
  lemma QuizExactCount(entries: Result<seq<Value>, Error>, count: int)
    requires count >= 0 && QuizFrom(entries, count).Ok?
    ensures entries.Ok?
    ensures count <= |Reference(entries.value)|
    ensures |QuizFrom(entries, count).value| == count
    ensures QuizFrom(entries, count).value == Reference(entries.value)[..count]
    ensures forall k :: 0 <= k < count ==> WellFormed(QuizFrom(entries, count).value[k])
  {
    FormattedIsReference(entries.value);
    ReferenceBounds(entries.value);
  }

  /**
   * When every entry can be read, `gerar_questoes` fails exactly when fewer
   * entries pass validation than were requested, with the message of lines 155-158.
   */
  lemma QuizShortfall(entries: Result<seq<Value>, Error>, count: int)
    requires entries.Ok?
    requires forall i :: 0 <= i < |entries.value| ==> CheckEntry(entries.value[i]).Ok?
    ensures var found := |Reference(entries.value)|;
      QuizFrom(entries, count).Err? <==> found < count
    ensures var found := |Reference(entries.value)|;
      found < count ==> QuizFrom(entries, count) == Err(ValueError(TooFewMessage(found, count)))
  {
    FormattedIsReference(entries.value);
  }

  /**
   * `gerar_reforco` never fails for a shortfall: when every entry can be read it
   * returns the first `min(found, count)` kept entries, possibly none.
   */
  lemma RemediationCount(entries: Result<seq<Value>, Error>, count: int)
    requires count >= 0
    requires entries.Ok?
    requires forall i :: 0 <= i < |entries.value| ==> CheckEntry(entries.value[i]).Ok?
    ensures var kept := Reference(entries.value);
      RemediationFrom(entries, count) == Ok(kept[..if |kept| < count then |kept| else count])
  {
    FormattedIsReference(entries.value);
  }

  /**
   * The two generators differ only in the shortfall: where `gerar_questoes`
   * succeeds, `gerar_reforco` returns the same records, and where it fails,
   * `gerar_reforco` fails identically unless the failure is the shortfall.
   */
  lemma QuizAgreesWithRemediation(reply: string, decode: string -> Option<Value>, count: int)
    ensures Quiz(reply, decode, count).Ok? ==> Remediation(reply, decode, count) == Quiz(reply, decode, count)
    ensures Remediation(reply, decode, count).Err? ==> Quiz(reply, decode, count) == Remediation(reply, decode, count)
    ensures Quiz(reply, decode, count).Err? && Remediation(reply, decode, count).Ok? ==>
      |Remediation(reply, decode, count).value| < count
      && Quiz(reply, decode, count).error ==
         ValueError(TooFewMessage(|Remediation(reply, decode, count).value|, count))
  {
  }
}
