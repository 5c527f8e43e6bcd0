/**
 * `analisar_respostas` (lines 185-248): scoring a student's answers against
 * a quiz and assembling the analysis record. The score loop pairs questions
 * with answers as `zip` does, counts case-insensitive matches and lists every
 * miss with its 1-based position. The model's own analysis is the reply of
 * the request at line 228, given as `reply` (None where the request raised);
 * when it is missing or undecodable, a fallback analysis is built from the
 * score alone.
 */
module Analysis {
  import opened JsonValue
  import opened Text
  import opened Questions
  import ExtractJson

  /** One entry of `questoes_erradas` (lines 193-198). */
  datatype WrongAnswer = WrongAnswer(indice: nat, pergunta: Value, respostaErrada: string, respostaCorreta: string)

  /** The loop state: `acertos` and `questoes_erradas`. */
  datatype Tally = Tally(acertos: nat, erradas: seq<WrongAnswer>)

  /** The record returned at lines 239-248; `nota` is the exact ratio, before rounding. */
  datatype Report = Report(
    nota: real,
    acertos: nat,
    erros: nat,
    questoesErradas: seq<WrongAnswer>,
    nivelDominio: Value,
    topicosDificuldade: Value,
    recomendacoes: Value,
    pontosFortes: Value)

  const Basic: string := "Básico"
  const Intermediate: string := "Intermediário"
  const Advanced: string := "Avançado"

  /** How many pairs `zip(questoes, respostas_aluno)` yields. */
  function Paired(qs: seq<Question>, rs: seq<string>): (n: nat)
    ensures n <= |qs| && n <= |rs| && (n == |qs| || n == |rs|)
  {
    if |qs| <= |rs| then |qs| else |rs|
  }

  /** Line 190: an answer is right when it equals the recorded label up to case. */
  predicate Correct(qs: seq<Question>, rs: seq<string>, i: nat)
    requires i < |qs| && i < |rs|
  {
    SameIgnoringCase(rs[i], qs[i].correta)
  }

  /** The loop state after the first n pairs (lines 186-198). */
  function TallyOf(qs: seq<Question>, rs: seq<string>, n: nat): (r: Tally)
    requires n <= |qs| && n <= |rs|
    ensures r.acertos <= n && |r.erradas| <= n
  {
    if n == 0 then Tally(0, [])
    else
      var t := TallyOf(qs, rs, n - 1);
      if Correct(qs, rs, n - 1) then Tally(t.acertos + 1, t.erradas)
      else Tally(t.acertos, t.erradas + [WrongAnswer(n, qs[n - 1].pergunta, rs[n - 1], qs[n - 1].correta)])
  }

  /** Every pair is counted once, as a hit or as a miss. */
  lemma {:induction false} TallyTotal(qs: seq<Question>, rs: seq<string>, n: nat)
    requires n <= |qs| && n <= |rs|
    ensures TallyOf(qs, rs, n).acertos + |TallyOf(qs, rs, n).erradas| == n
    decreases n
  {
    if n > 0 {
      TallyTotal(qs, rs, n - 1);
    }
  }

  /**
   * Each listed miss is a wrong answer at a 1-based position within the first n
   * pairs, with that question, the answer given and the recorded label.
   */
  predicate MissesAreWrongAnswers(qs: seq<Question>, rs: seq<string>, n: nat, e: seq<WrongAnswer>)
    requires n <= |qs| && n <= |rs|
  {
    forall k :: 0 <= k < |e| ==>
      1 <= e[k].indice <= n
      && !Correct(qs, rs, e[k].indice - 1)
      && e[k] == WrongAnswer(e[k].indice, qs[e[k].indice - 1].pergunta, rs[e[k].indice - 1], qs[e[k].indice - 1].correta)
  }

  /** The misses are listed in strictly increasing position. */
  predicate Increasing(e: seq<WrongAnswer>) {
    forall k, l :: 0 <= k < l < |e| ==> e[k].indice < e[l].indice
  }

  /** Every wrong answer among the first n pairs has an entry. */
  predicate ListsEveryMiss(qs: seq<Question>, rs: seq<string>, n: nat, e: seq<WrongAnswer>)
    requires n <= |qs| && n <= |rs|
  {
    forall i :: 0 <= i < n && !Correct(qs, rs, i) ==> exists k :: 0 <= k < |e| && e[k].indice == i + 1
  }

  /** The step of the loop on pair n - 1, for the wrong list. */
  lemma TallyStep(qs: seq<Question>, rs: seq<string>, n: nat)
    requires 0 < n <= |qs| && n <= |rs|
    ensures Correct(qs, rs, n - 1) ==> TallyOf(qs, rs, n).erradas == TallyOf(qs, rs, n - 1).erradas
    ensures !Correct(qs, rs, n - 1) ==>
      TallyOf(qs, rs, n).erradas ==
        TallyOf(qs, rs, n - 1).erradas + [WrongAnswer(n, qs[n - 1].pergunta, rs[n - 1], qs[n - 1].correta)]
  {
  }

  /** Each listed miss is a wrong answer, recorded with its position, question, answer and label. */
  lemma {:induction false} TallyMissesAreWrong(qs: seq<Question>, rs: seq<string>, n: nat)
    requires n <= |qs| && n <= |rs|
    ensures MissesAreWrongAnswers(qs, rs, n, TallyOf(qs, rs, n).erradas)
    decreases n
  {
    if n > 0 {
      TallyMissesAreWrong(qs, rs, n - 1);
      TallyStep(qs, rs, n);
      var e := TallyOf(qs, rs, n - 1).erradas;
      var e' := TallyOf(qs, rs, n).erradas;
      if !Correct(qs, rs, n - 1) {
        assert forall k :: 0 <= k < |e| ==> e'[k] == e[k];
      }
    }
  }

  /** The misses are listed in strictly increasing 1-based position. */
  lemma {:induction false} TallyIncreasing(qs: seq<Question>, rs: seq<string>, n: nat)
    requires n <= |qs| && n <= |rs|
    ensures Increasing(TallyOf(qs, rs, n).erradas)
    decreases n
  {
    if n > 0 {
      TallyIncreasing(qs, rs, n - 1);
      TallyMissesAreWrong(qs, rs, n - 1);
      TallyStep(qs, rs, n);
      var e := TallyOf(qs, rs, n - 1).erradas;
      var e' := TallyOf(qs, rs, n).erradas;
      if !Correct(qs, rs, n - 1) {
        assert forall k :: 0 <= k < |e| ==> e'[k] == e[k] && e[k].indice <= n - 1;
      }
    }
  }

  /** No wrong answer is left out of the list. */
  lemma {:induction false} TallyComplete(qs: seq<Question>, rs: seq<string>, n: nat)
    requires n <= |qs| && n <= |rs|
    ensures ListsEveryMiss(qs, rs, n, TallyOf(qs, rs, n).erradas)
    decreases n
  {
    if n > 0 {
      TallyComplete(qs, rs, n - 1);
      TallyStep(qs, rs, n);
      var e := TallyOf(qs, rs, n - 1).erradas;
      var e' := TallyOf(qs, rs, n).erradas;
      if !Correct(qs, rs, n - 1) {
        assert e'[|e|].indice == n;
        forall i | 0 <= i < n - 1 && !Correct(qs, rs, i)
          ensures exists k :: 0 <= k < |e'| && e'[k].indice == i + 1
        {
          var k :| 0 <= k < |e| && e[k].indice == i + 1;
          assert e'[k] == e[k];
        }
      }
    }
  }

  /** All answers right: every pair is a hit and nothing is listed as wrong. */
  lemma AllCorrectTally(qs: seq<Question>, rs: seq<string>, n: nat)
    requires n <= |qs| && n <= |rs|
    requires forall i :: 0 <= i < n ==> Correct(qs, rs, i)
    ensures TallyOf(qs, rs, n) == Tally(n, [])
  {
    TallyTotal(qs, rs, n);
    TallyMissesAreWrong(qs, rs, n);
  }

  /** All answers wrong: no hits, and every position is listed. */
  lemma AllWrongTally(qs: seq<Question>, rs: seq<string>, n: nat)
    requires n <= |qs| && n <= |rs|
    requires forall i :: 0 <= i < n ==> !Correct(qs, rs, i)
    ensures TallyOf(qs, rs, n).acertos == 0 && |TallyOf(qs, rs, n).erradas| == n
  {
    if n > 0 {
      AllWrongTally(qs, rs, n - 1);
    }
  }

  /** The scoring loop of lines 186-198, over `zip(questoes, respostas_aluno)`. */
  method Score(qs: seq<Question>, rs: seq<string>) returns (acertos: nat, erradas: seq<WrongAnswer>)
    ensures Tally(acertos, erradas) == TallyOf(qs, rs, Paired(qs, rs))
  {
    acertos := 0;
    erradas := [];
    var n := Paired(qs, rs);
    var i := 0;
    while i < n
      invariant 0 <= i <= n
      invariant Tally(acertos, erradas) == TallyOf(qs, rs, i)
    {
      var questao, resposta := qs[i], rs[i];
      if Upper(resposta) == Upper(questao.correta) {
        acertos := acertos + 1;
      } else {
        erradas := erradas + [WrongAnswer(i + 1, questao.pergunta, resposta, questao.correta)];
      }
      i := i + 1;
    }
  }

  /** Line 200: `nota = (acertos / len(questoes)) * 100`, exactly. */
  function Nota(acertos: nat, total: nat): (r: real)
    requires total > 0
    ensures r * total as real == acertos as real * 100.0
  {
    (acertos as real / total as real) * 100.0
  }

  /** A score below a threshold percentage, without division. */
  lemma NotaBelow(acertos: nat, total: nat, threshold: nat)
    requires total > 0
    ensures Nota(acertos, total) < threshold as real <==> acertos * 100 < threshold * total
  {
    var a, n, t := acertos as real, total as real, threshold as real;
    assert Nota(acertos, total) * n == a * 100.0;
    assert (acertos * 100) as real == a * 100.0;
    assert (threshold * total) as real == t * n;
  }

  /** The score stays within 0 to 100 while the hits do not exceed the questions. */
  lemma NotaRange(acertos: nat, total: nat)
    requires 0 < total && acertos <= total
    ensures 0.0 <= Nota(acertos, total) <= 100.0
    ensures Nota(acertos, total) == 100.0 <==> acertos == total
    ensures Nota(acertos, total) == 0.0 <==> acertos == 0
  {
    var a, n, r := acertos as real, total as real, Nota(acertos, total);
    assert r * n == a * 100.0;
    if r == 100.0 {
      assert 100.0 * n == a * 100.0;
    }
    if r == 0.0 {
      assert 0.0 * n == a * 100.0;
    }
    if acertos == total {
      assert a / n == 1.0;
    }
  }

  /** Line 233, in whole numbers: below 70% Basic, below 90% Intermediate, otherwise Advanced. */
  function Mastery(acertos: nat, total: nat): (r: string)
    ensures r == Basic || r == Intermediate || r == Advanced
    ensures r == Basic <==> acertos * 100 < 70 * total
    ensures r == Advanced <==> 90 * total <= acertos * 100
  {
    if acertos * 100 < 70 * total then Basic
    else if acertos * 100 < 90 * total then Intermediate
    else Advanced
  }

  /** The whole-number tiers are the ones line 233 draws on the percentage score. */
  lemma MasteryByNota(acertos: nat, total: nat)
    requires total > 0
    ensures Mastery(acertos, total) ==
      if Nota(acertos, total) < 70.0 then Basic
      else if Nota(acertos, total) < 90.0 then Intermediate
      else Advanced
  {
    NotaBelow(acertos, total, 70);
    NotaBelow(acertos, total, 90);
  }

  /** The difficulty topics of lines 234 and 245: the quiz topic exactly when something was wrong. */
  function DefaultTopics(t: Tally, topico: string): (r: Value)
    ensures r.Arr? && |r.items| <= 1
    ensures r.items == [] <==> t.erradas == []
    ensures forall k :: 0 <= k < |r.items| ==> r.items[k] == Str(topico)
  {
    Arr(if t.erradas != [] then [Str(topico)] else [])
  }

  /** The fallback recommendation of line 235: review the topic when something was wrong. */
  function Advice(t: Tally, topico: string): (r: string)
    ensures t.erradas == [] ==> r == "Bom desempenho!"
    ensures t.erradas != [] ==> |r| == |topico| + 29 && r[28..|r| - 1] == topico && r[|r| - 1] == '\''
  {
    if t.erradas != [] then "Focar em revisão do tópico '" + topico + "'" else "Bom desempenho!"
  }

  /** The fallback strong point of line 236: the hit count out of the question count. */
  function Strengths(acertos: nat, total: nat): (r: string)
    ensures |r| == 22 + |NatToString(acertos)| + |NatToString(total)|
    ensures r[..8] == "Acertou " && r[8..8 + |NatToString(acertos)|] == NatToString(acertos)
    ensures r[|r| - |NatToString(total)| - 10..|r| - 10] == NatToString(total)
  {
    var head := "Acertou " + NatToString(acertos);
    var tail := NatToString(total) + " questões.";
    var r := head + " de " + tail;
    assert r[..|head|] == head;
    assert r[|r| - |tail|..] == tail;
    r
  }

  /** The fallback analysis of lines 232-237: every field line 244-247 reads is present. */
  function Fallback(t: Tally, total: nat, topico: string): (r: Value)
    ensures r.Obj? && |r.fields| == 4
    ensures HasKey(r.fields, "nivel_dominio") && HasKey(r.fields, "topicos_dificuldade")
    ensures HasKey(r.fields, "recomendacoes") && HasKey(r.fields, "pontos_fortes")
  {
    var r := Obj([
      ("nivel_dominio", Str(Mastery(t.acertos, total))),
      ("topicos_dificuldade", DefaultTopics(t, topico)),
      ("recomendacoes", Str(Advice(t, topico))),
      ("pontos_fortes", Str(Strengths(t.acertos, total)))
    ]);
    assert r.fields[0].0 == "nivel_dominio" && r.fields[1].0 == "topicos_dificuldade";
    assert r.fields[2].0 == "recomendacoes" && r.fields[3].0 == "pontos_fortes";
    r
  }

  /** The four fields the fallback analysis holds, as line 244-247 read them. */
  lemma FallbackFields(t: Tally, total: nat, topico: string)
    ensures var f := Fallback(t, total, topico).fields;
      GetOr(f, "nivel_dominio", Str(Basic)) == Str(Mastery(t.acertos, total))
      && GetOr(f, "topicos_dificuldade", DefaultTopics(t, topico)) == DefaultTopics(t, topico)
      && GetOr(f, "recomendacoes", Str("")) == Str(Advice(t, topico))
      && GetOr(f, "pontos_fortes", Str("")) == Str(Strengths(t.acertos, total))
  {
    var f := Fallback(t, total, topico).fields;
    LookupLastBinding(f, 0);
    LookupLastBinding(f, 1);
    LookupLastBinding(f, 2);
    LookupLastBinding(f, 3);
  }

  /**
   * Lines 227-237: the model's analysis when the request succeeds and its
   * reply decodes, otherwise the fallback.
   */
  function ModelAnalysis(reply: Option<string>, decode: string -> Option<Value>, fallback: Value): (r: Value)
    ensures reply.None? ==> r == fallback
    ensures reply.Some? && ExtractJson.Extract(reply.value, decode).Ok? ==>
      r == ExtractJson.Extract(reply.value, decode).value
    ensures r != fallback ==> reply.Some? && ExtractJson.Extract(reply.value, decode) == Ok(r)
  {
    match reply
    case None => fallback
    case Some(text) =>
      match ExtractJson.Extract(text, decode)
      case Ok(v) => v
      case Err(_) => fallback
  }

  /**
   * Lines 239-248: the returned record, with missing fields of the analysis
   * defaulted; `.get` on a decoded value that is not a dict raises.
   */
  function Assemble(t: Tally, total: nat, topico: string, analise: Value): (r: Result<Report, Error>)
    requires total > 0
    ensures r.Err? <==> !analise.Obj?
    ensures r.Err? ==> r.error == AttributeError(TypeName(analise))
    ensures r.Ok? ==>
      r.value.nota == Nota(t.acertos, total) && r.value.acertos == t.acertos
      && r.value.erros == |t.erradas| && r.value.questoesErradas == t.erradas
    ensures r.Ok? ==>
      var f := analise.fields;
      && (HasKey(f, "nivel_dominio") ==> Lookup(f, "nivel_dominio") == Some(r.value.nivelDominio))
      && (!HasKey(f, "nivel_dominio") ==> r.value.nivelDominio == Str(Basic))
      && (HasKey(f, "topicos_dificuldade") ==> Lookup(f, "topicos_dificuldade") == Some(r.value.topicosDificuldade))
      && (!HasKey(f, "topicos_dificuldade") ==> r.value.topicosDificuldade == DefaultTopics(t, topico))
      && (HasKey(f, "recomendacoes") ==> Lookup(f, "recomendacoes") == Some(r.value.recomendacoes))
      && (!HasKey(f, "recomendacoes") ==> r.value.recomendacoes == Str(""))
      && (HasKey(f, "pontos_fortes") ==> Lookup(f, "pontos_fortes") == Some(r.value.pontosFortes))
      && (!HasKey(f, "pontos_fortes") ==> r.value.pontosFortes == Str(""))
  {
    if !analise.Obj? then Err(AttributeError(TypeName(analise)))
    else
      var f := analise.fields;
      Ok(Report(
        Nota(t.acertos, total), t.acertos, |t.erradas|, t.erradas,
        GetOr(f, "nivel_dominio", Str(Basic)),
        GetOr(f, "topicos_dificuldade", DefaultTopics(t, topico)),
        GetOr(f, "recomendacoes", Str("")),
        GetOr(f, "pontos_fortes", Str(""))))
  }

  /** `analisar_respostas` (lines 185-248), with the model's reply as a parameter. */
  function AnalysisOf(qs: seq<Question>, rs: seq<string>, topico: string,
                      reply: Option<string>, decode: string -> Option<Value>): Result<Report, Error>
  {
    var t := TallyOf(qs, rs, Paired(qs, rs));
    if |qs| == 0 then Err(ZeroDivisionError)
    else Assemble(t, |qs|, topico, ModelAnalysis(reply, decode, Fallback(t, |qs|, topico)))
  }

  /** Lines 185-248: score the answers, then assemble the analysis record. */
  method AnalyzeAnswers(qs: seq<Question>, rs: seq<string>, topico: string,
                        reply: Option<string>, decode: string -> Option<Value>)
    returns (r: Result<Report, Error>)
    ensures r == AnalysisOf(qs, rs, topico, reply, decode)
  {
    var acertos, erradas := Score(qs, rs);
    if |qs| == 0 {
      return Err(ZeroDivisionError);
    }
    var t := Tally(acertos, erradas);
    var analise := ModelAnalysis(reply, decode, Fallback(t, |qs|, topico));
    r := Assemble(t, |qs|, topico, analise);
  }

  /** Line 200 divides by the number of questions: an empty quiz raises, and only it does. */
  lemma EmptyQuizRaises(qs: seq<Question>, rs: seq<string>, topico: string,
                        reply: Option<string>, decode: string -> Option<Value>)
    ensures AnalysisOf(qs, rs, topico, reply, decode) == Err(ZeroDivisionError) <==> |qs| == 0
  {
  }

  /**
   * The counts of a returned record: hits and misses add up to the answered
   * pairs, `erros` is the length of the wrong list, and the score is the hit
   * ratio, between 0 and 100.
   */
  lemma ReportCounts(qs: seq<Question>, rs: seq<string>, topico: string,
                     reply: Option<string>, decode: string -> Option<Value>)
    requires AnalysisOf(qs, rs, topico, reply, decode).Ok?
    ensures var r := AnalysisOf(qs, rs, topico, reply, decode).value;
      r.acertos + r.erros == Paired(qs, rs)
      && r.erros == |r.questoesErradas|
      && r.questoesErradas == TallyOf(qs, rs, Paired(qs, rs)).erradas
      && |qs| > 0 && r.nota == Nota(r.acertos, |qs|)
      && 0.0 <= r.nota <= 100.0
  {
    TallyTotal(qs, rs, Paired(qs, rs));
    NotaRange(TallyOf(qs, rs, Paired(qs, rs)).acertos, |qs|);
  }

  /**
   * When the model gives no usable analysis, the record carries the fallback:
   * the tier drawn from the score, the quiz topic as the only difficulty
   * exactly when something was wrong, the matching recommendation, and the
   * hit count as the strong point.
   */
  lemma FallbackReport(qs: seq<Question>, rs: seq<string>, topico: string,
                       reply: Option<string>, decode: string -> Option<Value>)
    requires |qs| > 0
    requires reply.None? || ExtractJson.Extract(reply.value, decode).Err?
    ensures var r := AnalysisOf(qs, rs, topico, reply, decode);
      r.Ok?
      && r.value.nivelDominio ==
           Str(if r.value.nota < 70.0 then Basic else if r.value.nota < 90.0 then Intermediate else Advanced)
      && (r.value.topicosDificuldade == Arr([Str(topico)]) <==> r.value.questoesErradas != [])
      && (r.value.topicosDificuldade == Arr([]) <==> r.value.questoesErradas == [])
      && r.value.recomendacoes == Str(Advice(TallyOf(qs, rs, Paired(qs, rs)), topico))
      && r.value.pontosFortes == Str(Strengths(r.value.acertos, |qs|))
  {
    var t := TallyOf(qs, rs, Paired(qs, rs));
    var fb := Fallback(t, |qs|, topico);
    assert ModelAnalysis(reply, decode, fb) == fb;
    assert AnalysisOf(qs, rs, topico, reply, decode) == Assemble(t, |qs|, topico, fb);
    FallbackFields(t, |qs|, topico);
    MasteryByNota(t.acertos, |qs|);
  }

  /**
   * When the model's analysis is a dict, its fields are taken as they are, and
   * the missing ones default: the tier to Basic, the topics to the quiz topic
   * exactly when something was wrong, the texts to empty.
   */
  lemma ModelReportDefaults(qs: seq<Question>, rs: seq<string>, topico: string,
                            text: string, decode: string -> Option<Value>)
    requires |qs| > 0
    requires ExtractJson.Extract(text, decode).Ok? && ExtractJson.Extract(text, decode).value.Obj?
    ensures var f := ExtractJson.Extract(text, decode).value.fields;
      var r := AnalysisOf(qs, rs, topico, Some(text), decode);
      var wrong := TallyOf(qs, rs, Paired(qs, rs)).erradas != [];
      r.Ok?
      && (HasKey(f, "nivel_dominio") ==> Lookup(f, "nivel_dominio") == Some(r.value.nivelDominio))
      && (!HasKey(f, "nivel_dominio") ==> r.value.nivelDominio == Str(Basic))
      && (HasKey(f, "topicos_dificuldade") ==> Lookup(f, "topicos_dificuldade") == Some(r.value.topicosDificuldade))
      && (!HasKey(f, "topicos_dificuldade") ==>
            r.value.topicosDificuldade == Arr(if wrong then [Str(topico)] else []))
      && (HasKey(f, "recomendacoes") ==> Lookup(f, "recomendacoes") == Some(r.value.recomendacoes))
      && (!HasKey(f, "recomendacoes") ==> r.value.recomendacoes == Str(""))
      && (HasKey(f, "pontos_fortes") ==> Lookup(f, "pontos_fortes") == Some(r.value.pontosFortes))
      && (!HasKey(f, "pontos_fortes") ==> r.value.pontosFortes == Str(""))
  {
  }

  /** A model analysis that decodes to something other than a dict makes line 244 raise. */
  lemma NonDictAnalysisRaises(qs: seq<Question>, rs: seq<string>, topico: string,
                              text: string, decode: string -> Option<Value>)
    requires |qs| > 0
    requires ExtractJson.Extract(text, decode).Ok? && !ExtractJson.Extract(text, decode).value.Obj?
    ensures AnalysisOf(qs, rs, topico, Some(text), decode) ==
      Err(AttributeError(TypeName(ExtractJson.Extract(text, decode).value)))
  {
  }

  /**
   * Every question answered with its recorded label, in any case: the score is
   * 100, nothing is wrong, and the fallback tier is Advanced.
   */
  lemma PerfectScore(qs: seq<Question>, rs: seq<string>, topico: string,
                     reply: Option<string>, decode: string -> Option<Value>)
    requires 0 < |qs| <= |rs|
    requires forall i :: 0 <= i < |qs| ==> SameIgnoringCase(rs[i], qs[i].correta)
    ensures var r := AnalysisOf(qs, rs, topico, reply, decode);
      r.Ok? ==> r.value.nota == 100.0 && r.value.questoesErradas == [] && r.value.erros == 0
    ensures reply.None? ==>
      AnalysisOf(qs, rs, topico, reply, decode).Ok?
      && AnalysisOf(qs, rs, topico, reply, decode).value.nivelDominio == Str(Advanced)
  {
    AllCorrectTally(qs, rs, |qs|);
    NotaRange(|qs|, |qs|);
    FallbackFields(TallyOf(qs, rs, |qs|), |qs|, topico);
  }

  /**
   * Every answered question wrong, with an answer for each: the score is 0,
   * every question is listed, and the fallback tier is Basic.
   */
  lemma ZeroScore(qs: seq<Question>, rs: seq<string>, topico: string,
                  reply: Option<string>, decode: string -> Option<Value>)
    requires 0 < |qs| <= |rs|
    requires forall i :: 0 <= i < |qs| ==> !SameIgnoringCase(rs[i], qs[i].correta)
    ensures var r := AnalysisOf(qs, rs, topico, reply, decode);
      r.Ok? ==> r.value.nota == 0.0 && |r.value.questoesErradas| == |qs| && r.value.erros == |qs|
    ensures reply.None? ==>
      AnalysisOf(qs, rs, topico, reply, decode).Ok?
      && AnalysisOf(qs, rs, topico, reply, decode).value.nivelDominio == Str(Basic)
  {
    AllWrongTally(qs, rs, |qs|);
    NotaRange(0, |qs|);
    FallbackFields(TallyOf(qs, rs, |qs|), |qs|, topico);
  }
}
