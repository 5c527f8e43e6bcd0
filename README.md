# PROFOCO quiz client, modelled in Dafny

PROFOCO is a study tool that asks a local language model (served by Ollama)
to write multiple-choice quizzes, scores a student's answers and asks the
model for a pedagogical analysis. This project models the client's core,
`ollama_client.py`, from the moment the model's reply text is in hand:

- `_extract_json` (module `ExtractJson`) trims the reply and unwraps a
  markdown code block, tagged `json` or plain. It then decodes, in order,
  the slice from the first `{` to the last `}` and the whole cleaned text.
  When neither decodes it raises a ValueError carrying at most 200
  characters of the text.
- `gerar_questoes` and `gerar_reforco` (module `Questions`) take the list
  from the decoded reply. They keep, in order, the entries that are dicts
  with truthy question text, exactly four options and an answer label in
  A-D once upper-cased. Each returns the first *n* records. `gerar_questoes`
  raises when fewer than *n* entries were kept; `gerar_reforco` never does.
- `analisar_respostas` (module `Analysis`) pairs questions with answers as
  `zip` does and counts case-insensitive matches. It lists every miss with
  its 1-based position and computes the percentage score. It then takes
  the model's analysis, or a fallback built from the score when the
  request or the extraction fails, and fills in missing fields with
  defaults.

Supporting modules:
- `JsonValue` holds the decoded values and the Python built-ins applied to
  them: truthiness, `len`, `dict.get`, `in`, `for` and `type`.
- `Text` holds the string operations used: `strip`, `in`, `find`,
  `rfind`, `split(sep)[k]`, `upper` and `str(int)`.

Python's run-time errors are modelled as values of `JsonValue.Error`:
- `.upper()` on a label that is not a string: AttributeError.
- `len` on a number: TypeError.
- iterating a number: TypeError.
- scoring an empty quiz: ZeroDivisionError.
- `.get` on an analysis that is not a dict: AttributeError.

`_extract_json` has no loop or state, so it is modelled by the function
`ExtractJson.Extract`. The three client methods with loops are modelled
by Dafny methods, each proved equal to a specification function that
follows the code as written:
- `Questions.GenerateQuiz` equals `Questions.Quiz` (`gerar_questoes`);
- `Questions.GenerateRemediation` equals `Questions.Remediation` (`gerar_reforco`);
- `Analysis.AnalyzeAnswers` equals `Analysis.AnalysisOf` (`analisar_respostas`).

The lemmas beside each function state what the source promises about it.

## Model

| member | source | states |
|---|---|---|
| JsonValue.Lookup | ollama_client.py:128 | `d[key]` finds a value exactly when the key is bound, and the value is one bound to that key |
| JsonValue.LookupLastBinding | ollama_client.py:128 | for a key bound more than once in the reply, lookup gives the last binding, as the decoded dict does |
| JsonValue.GetOr | ollama_client.py:140-142 | `d.get(key, default)` is the default when the key is absent and the bound value otherwise |
| JsonValue.Keys | ollama_client.py:136 | iterating a dict visits each key once, and exactly the keys it binds |
| JsonValue.Len | ollama_client.py:145 | `len` raises on None, bool and numbers; it is the length of a str or list; for a dict it is the number of distinct keys, zero exactly when the dict is empty |
| JsonValue.Truthy | ollama_client.py:145 | `not pergunta`: a str, list or dict is true exactly when its length is not zero; None is false; an int is true exactly when it is not zero |
| JsonValue.Iterate | ollama_client.py:136 | `for` over a list visits its items; over None, bool or a number it raises; over a str or dict it visits only strings |
| Text.StripStart | ollama_client.py:68 | the leading run of whitespace ends at the first non-space character |
| Text.StripEnd | ollama_client.py:68 | the trailing run of whitespace starts after the last non-space character |
| Text.Strip | ollama_client.py:68 | `strip()` is a slice of the text that neither starts nor ends with whitespace |
| Text.StripEmptyIffBlank | ollama_client.py:68 | a text strips to nothing exactly when it is all whitespace |
| Text.StripIdempotent | ollama_client.py:68-74 | stripping a stripped text changes nothing, so the text lines 68-74 leave behind is trimmed |
| Text.FindFrom | ollama_client.py:71 | the first occurrence at or after a position, or -1 when there is none |
| Text.Find | ollama_client.py:71 | `find` is -1 exactly when the pattern does not occur, and otherwise the first occurrence |
| Text.FindChar | ollama_client.py:77 | `find('{')` is the first position of the character, or -1 when it is absent |
| Text.RFindChar | ollama_client.py:78 | `rfind('}')` is the last position of the character, or -1 when it is absent |
| Text.Before | ollama_client.py:72 | `split(sep)[0]` is a prefix free of the separator; it ends where the first separator starts, or is the whole text when there is none |
| Text.After | ollama_client.py:72 | the text after the first separator, which `split(sep)[1]` then cuts |
| Text.FindAtStart | ollama_client.py:72 | a text that starts with the separator finds it at position 0 |
| Text.BeforeAt | ollama_client.py:72 | the first piece ends at a separator that nothing earlier could begin |
| Text.BeforeIdempotent | ollama_client.py:72 | cutting a piece that is already free of the separator changes nothing |
| Text.SliceAvoids | ollama_client.py:72 | a stripped payload free of fences stays free of fences |
| Text.UpperChar | ollama_client.py:142 | ASCII lower-case letters move to upper case; every other character is kept |
| Text.Upper | ollama_client.py:142 | `upper()` keeps the length and converts each character on its own |
| Text.UpperIdempotent | ollama_client.py:190 | upper-casing an upper-cased label changes nothing, so a kept label compares as it is stored |
| Text.NatToString | ollama_client.py:156 | `str(n)` is decimal digits without a leading zero that spell n back |
| Text.IntToString | ollama_client.py:157 | `str(i)` of a negative number is a minus sign before the digits of its magnitude |
| ExtractJson.JsonFenceIsFence | ollama_client.py:71-73 | a text with a tagged fence also has a plain one, so the plain branch is reached only when there is no tag |
| ExtractJson.StripFence | ollama_client.py:70-74 | a text without fences is unchanged; the unwrapped payload holds no fence and is no longer than the text |
| ExtractJson.PlainFencePayload | ollama_client.py:73-74 | with plain fences only, the payload is the text between the first two fences, or the rest after a lone fence |
| ExtractJson.TaggedFencePayload | ollama_client.py:71-72 | with one `json` tag, the payload is the text after the tag up to the next fence, or the whole rest |
| ExtractJson.ClosedPayload | ollama_client.py:72 | a payload without backquotes that is closed by a fence ends at that fence and holds no tag |
| ExtractJson.TaggedBlockPayload | ollama_client.py:71-72 | a backquote-free payload inside a tagged block is returned trimmed |
| ExtractJson.PlainBlockHasNoTag | ollama_client.py:71-73 | a plain block around a backquote-free payload not starting with `j` takes the plain branch |
| ExtractJson.PlainBlockPayload | ollama_client.py:73-74 | a backquote-free payload inside a plain block, not starting with `j`, is returned trimmed |
| ExtractJson.Cleaned | ollama_client.py:68-74 | the cleaned text is no longer than the reply, holds no fence and is trimmed |
| ExtractJson.StripFenceKeepsStripped | ollama_client.py:72-74 | unwrapping a trimmed text leaves it trimmed, since the payload is trimmed |
| ExtractJson.BraceSlice | ollama_client.py:76-81 | a slice exists exactly when some `{` comes before some `}`; it runs from the first `{` to the last `}` of the text |
| ExtractJson.Excerpt | ollama_client.py:91 | `text[:200]`: the whole text up to 200 characters, otherwise its first 200 |
| ExtractJson.Extract | ollama_client.py:57-91 | the brace slice wins when it decodes; otherwise the whole text; it fails exactly when neither decodes, with the message and a 200-character excerpt |
| ExtractJson.BracketedIsClean | ollama_client.py:68-74 | a bracketed reply without backquotes is neither trimmed nor unwrapped |
| ExtractJson.SingleObjectListUnwrapped | ollama_client.py:76-83 | for a reply `[` + object + `]` the brace slice is the object, and the object is what is returned |
| ExtractJson.ExtractListAgrees | ollama_client.py:80-89 | the list-preferring extraction keeps a reply that decodes to a list, fails on the same replies, and agrees on every non-list result |
| ExtractJson.ExtractDecodesACandidate | ollama_client.py:80-89 | every extracted value is what decoding gave for the brace slice or for the whole text |
| ExtractJson.PlainReplyDecodedWhole | ollama_client.py:87-91 | a bare reply with no `{`...`}` pair is decoded whole, or the error quotes it |
| Questions.QuestionList | ollama_client.py:126-132 | the list is the `questoes` entry of a dict holding one, or the decoded list itself; anything else raises with its type |
| Questions.TypeRepr | ollama_client.py:132 | `type(data)` prints as `<class '…'>` around the type name, `<class 'dict'>` for a dict |
| Questions.Entries | ollama_client.py:126-136 | an extraction error is passed on; a list is visited item by item; a shape the rule rejects raises its ValueError; the loop runs only on an accepted shape |
| Questions.Candidates | ollama_client.py:124-136 | an error raised by `_extract_json` is what the generator raises; the loop runs only on a reply that `_extract_json` decodes |
| Questions.CheckEntry | ollama_client.py:137-152 | one pass of the loop body: a non-dict is skipped, and every record kept is well-formed (its full statement is CheckEntrySpec) |
| Questions.CheckEntrySpec | ollama_client.py:137-152 | non-dicts are skipped; an entry raises exactly when its label is not a string, or when its text is truthy and its options have no length; it is kept exactly when all three checks pass, as read, and well-formed |
| Questions.DictRejected | ollama_client.py:127-132 | a decoded dict without `questoes` is rejected with the message naming its type |
| Questions.SingleQuestionListRejected | ollama_client.py:124-132 | as written, a reply spelling a one-record list is rejected as an unexpected dict by both generators, whatever the count |
| Questions.SingleQuestionListKept | ollama_client.py:148-160 | the corrected generators give that reply its one entry, and a request for one question returns its record |
| Questions.ReferenceBounds | ollama_client.py:145-152 | at most one record per entry, and every record has truthy text, four options and a label in A-D |
| Questions.ReferenceAppend | ollama_client.py:135-152 | the kept records of a concatenation are those of its parts, in order |
| Questions.ReferenceKeepsAccepted | ollama_client.py:148-152 | an entry that passes validation sits in the output between the records of its neighbours |
| Questions.KeptRejected | ollama_client.py:137-146 | a skipped entry contributes no record |
| Questions.ReferenceSkipsRejected | ollama_client.py:137-146 | removing a skipped entry leaves the output unchanged |
| Questions.OnlyListsHoldRecords | ollama_client.py:126-138 | when `questoes` is a str or a dict, the loop visits characters or keys and keeps nothing |
| Questions.NoDictsNoRecords | ollama_client.py:137-138 | entries none of which is a dict yield no records |
| Questions.FormattedErrorSticks | ollama_client.py:136-152 | once an entry has raised, that exception is the loop's outcome |
| Questions.FormattedIsReference | ollama_client.py:135-152 | the loop succeeds exactly when no entry raises, with exactly the kept entries in order; it otherwise fails with the error of the first entry that raises |
| Questions.Formatted | ollama_client.py:135-152 | the state of `questoes_formatadas` after the loop, or the exception that stopped it: never more records than entries, each of them well-formed |
| Questions.FormatQuestions | ollama_client.py:135-152 | the loop's outcome is the specification `Formatted` of its entries |
| Questions.PyPrefix | ollama_client.py:160 | `s[:n]` is a prefix of length min(n, len) for n >= 0, and counts from the end for negative n |
| Questions.TooFewMessage | ollama_client.py:155-158 | the shortfall message starts with "Apenas " and the number found, and ends with the number expected |
| Questions.QuizFrom | ollama_client.py:154-160 | an error before or inside the loop is passed on; with the loop done, the quiz fails exactly when fewer records than requested were kept; otherwise it is the first `count` records, all well-formed |
| Questions.RemediationFrom | ollama_client.py:309 | an error before or inside the loop is passed on, and no other failure occurs; the result is a prefix of the kept records, at most `count` long, all well-formed |
| Questions.GenerateQuiz | ollama_client.py:123-160 | the generator's outcome is the specification `Quiz` of the reply |
| Questions.GenerateRemediation | ollama_client.py:279-309 | the generator's outcome is the specification `Remediation` of the reply |
| Questions.QuizExactCount | ollama_client.py:154-160 | whatever entries the loop is given, a returned quiz has exactly the requested number of well-formed records: the first kept entries, in order |
| Questions.QuizShortfall | ollama_client.py:154-158 | when every entry can be read, the quiz fails exactly when too few entries were kept, with the "Apenas N questões válidas" message |
| Questions.RemediationCount | ollama_client.py:309 | when every entry can be read, remediation returns the first min(found, n) kept entries and never fails for a shortfall |
| Questions.QuizAgreesWithRemediation | ollama_client.py:282-309 | the two generators return the same records and fail identically, except for the shortfall that only `gerar_questoes` raises |
| Analysis.Paired | ollama_client.py:189 | `zip` yields as many pairs as the shorter list |
| Analysis.TallyOf | ollama_client.py:186-198 | the loop state after the first n pairs: neither the hits nor the listed misses exceed n |
| Analysis.TallyTotal | ollama_client.py:186-198 | hits and listed misses add up to the number of pairs |
| Analysis.TallyStep | ollama_client.py:189-198 | a hit leaves the miss list as it was; a miss appends its position, question, answer and label |
| Analysis.TallyMissesAreWrong | ollama_client.py:190-198 | every listed miss is a wrong answer at its 1-based position, with its question, the answer given and the stored label |
| Analysis.TallyIncreasing | ollama_client.py:189-198 | the misses are listed in strictly increasing position |
| Analysis.TallyComplete | ollama_client.py:189-198 | every wrong answer among the pairs is listed |
| Analysis.AllCorrectTally | ollama_client.py:190-191 | when every answer matches, all pairs are hits and nothing is listed |
| Analysis.AllWrongTally | ollama_client.py:192-198 | when every answer misses, there are no hits and every pair is listed |
| Analysis.Score | ollama_client.py:186-198 | the scoring loop ends with the specification tally of the pairs |
| Analysis.Nota | ollama_client.py:200 | the score times the number of questions is 100 times the hits |
| Analysis.NotaBelow | ollama_client.py:233 | the score is below a threshold percentage exactly when 100 times the hits is below the threshold times the questions |
| Analysis.NotaRange | ollama_client.py:200 | the score lies between 0 and 100; it is 100 exactly when all are hits and 0 exactly when none are |
| Analysis.Mastery | ollama_client.py:233 | the tier is one of the three names; Básico exactly below 70% of hits, Avançado exactly from 90% on |
| Analysis.MasteryByNota | ollama_client.py:233 | the tier is Básico below 70, Intermediário below 90, and Avançado otherwise |
| Analysis.DefaultTopics | ollama_client.py:234 | the topic list holds at most the quiz topic, and holds it exactly when something was wrong (it is also the default of line 245) |
| Analysis.Advice | ollama_client.py:235 | "Bom desempenho!" when nothing was wrong; otherwise the review recommendation, 29 characters longer than the topic, which ends it just before the closing quote |
| Analysis.Strengths | ollama_client.py:236 | "Acertou " followed by the hit count, then the question count before " questões." |
| Analysis.Fallback | ollama_client.py:232-237 | the fallback is a dict of four fields that holds every key lines 244-247 read, so none of their defaults applies to it |
| Analysis.FallbackFields | ollama_client.py:232-237 | read back through `.get`, the fallback gives the tier drawn from the score, the topic list naming the quiz topic when something was wrong, the review advice or "Bom desempenho!", and "Acertou N de M questões." |
| Analysis.ModelAnalysis | ollama_client.py:227-237 | with no reply the fallback is used; a reply that `_extract_json` decodes gives its value; any other value than the fallback comes from a decoded reply |
| Analysis.Assemble | ollama_client.py:239-248 | a non-dict analysis raises AttributeError, and only it does; the record holds the score, counts and miss list of the tally; each analysis field is taken when its key is bound and defaults otherwise |
| Analysis.AnalyzeAnswers | ollama_client.py:185-248 | the method's outcome is the specification `AnalysisOf` of its inputs |
| Analysis.EmptyQuizRaises | ollama_client.py:200 | the analysis raises ZeroDivisionError exactly when the quiz is empty |
| Analysis.ReportCounts | ollama_client.py:239-243 | a returned record's hits and errors add up to the pairs; `erros` is the length of the miss list; the score is the hit ratio, within 0 to 100 |
| Analysis.FallbackReport | ollama_client.py:227-237 | with no usable model reply, the record holds the tier drawn from the score, the quiz topic as the only difficulty exactly when something was wrong, the matching advice and the hit count as strong point |
| Analysis.ModelReportDefaults | ollama_client.py:244-247 | each of the four fields a dict analysis binds is taken as it is; a missing tier becomes Básico, missing topics the quiz topic when something was wrong, missing texts empty |
| Analysis.NonDictAnalysisRaises | ollama_client.py:244 | an analysis that decodes to something other than a dict raises AttributeError |
| Analysis.PerfectScore | ollama_client.py:186-200 | all answers right, in any case: the score is 100, nothing is listed, and the fallback tier is Avançado |
| Analysis.ZeroScore | ollama_client.py:186-200 | all answers wrong: the score is 0, every question is listed, and the fallback tier is Básico |

## Findings

| source | as written | input that shows it | evidently intended | confidence | as-written member | corrected member |
|---|---|---|---|---|---|---|
| ollama_client.py:76-83 | the brace slice is decoded before the whole text, so a reply that is a one-element list yields the object inside it; lines 127-132 then reject that dict as an unexpected format | `[{"pergunta": "P", "opcoes": ["a","b","c","d"], "correta": "b"}]`, the shape both prompts ask for, with or without a `json` fence | a reply that decodes to a list reaches the validation loop as that list | high; not executed | Questions.SingleQuestionListRejected | Questions.SingleQuestionListKept |

The generators (`Questions.Quiz`, `Questions.Remediation` and the methods
`GenerateQuiz` and `GenerateRemediation`) follow the code as written.
`Questions.QuizCorrected` and `Questions.RemediationCorrected` apply the
correction: they read entries through `ExtractJson.ExtractList`, which keeps
a reply that decodes to a list as that list. The count lemmas
(`QuizExactCount`, `QuizShortfall`, `RemediationCount`) are stated over the
entries the loop is given, so they hold of both. The analysis uses only
`ExtractJson.Extract`: there the object inside a one-element list is what
the code goes on to use.

A reply holding several records does not show this behaviour. Its brace
slice, `{...}, {...}`, does not decode, so the whole text is decoded.

## Left out

- `_make_request` is not part of this model: the HTTP call to Ollama, its payload, the 120-second timeout and the mapping of connection errors. Its reply text is a parameter. An analysis request that raises is `None`.
- `json.loads` is the parameter `decode`. It gives the decoded value, or `None` where it raises. So every exception `json.loads` raises is treated as the JSONDecodeError that lines 84 and 90 catch. Another exception, such as a RecursionError on deeply nested input, escapes `gerar_questoes` in the source. In the model it leads on to the next candidate, and at worst to the ValueError of line 91. The JSON grammar, NaN and Infinity are not modelled. Objects keep their bindings in reply order.
- The prompt texts and the f-strings that build them are left out, and so are the parameters used only there: `disciplina`, `nome_aluno`, and `topicos_dificuldade` in `gerar_reforco`. They do not affect any result.
- The default counts `num_questoes=5` (line 93) and `num_questoes=3` (line 250) are not modelled: `count` is always passed explicitly.
- `OllamaClient.__init__` stores the base URL and model name, which only the request uses.
- Analysis.Nota: the score is the exact ratio, not a float, and `round(nota, 1)` at line 240 is not applied. The mastery tiers are compared exactly by cross-multiplying.
- Text.Upper: only ASCII letters are upper-cased. Python also converts non-ASCII letters, which cannot turn a string into one of A-D.
- Text.UpperChar: only the ASCII letters a-z are mapped, for the same reason as Text.Upper.
- Analysis.Score: questions are the records the generators build. A caller-made dict lacking `correta` or `pergunta`, which would raise KeyError at lines 190 and 195, is not modelled.
- Analysis.ModelAnalysis: an exception other than the extraction's ValueError is caught in the source by the same `except` and also leads to the fallback. Here only the two modelled failures lead there: a request that raises, and an undecodable reply.
- ExtractJson.StripFence: when the text after a `json` tag holds a second tag, `split` cuts at that tag before looking for the closing fence. For a tag, then `ab` and two backquotes, then a second tag, the payload is `ab` followed by the two backquotes, not `ab`. This is modelled as the code does it. TaggedFencePayload states the simpler reading under the condition that no second tag is present.
- The Streamlit interface in `app.py` and the SQLite store in `database.py` are not part of this model.
