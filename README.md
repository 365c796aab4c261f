# A verified model of the QA-dataset pipeline

This project models the question-dataset pipeline of the `agents/` package:

- the registry of question evolution techniques;
- the evolution loop that asks a language model for questions per technique;
- the pipeline wiring and the seed-question loop;
- the critic gate that scores questions on two rubrics;
- the retrieval stage that finds passages for each question with a flat L2 index or a Qdrant client;
- the answer stage with its two fallback answers;
- the export stage that left-joins questions with answers and passages.

The state the stages pass along is the datatype `State.QAState`, with one optional field per key of the state dictionary. Each stage is a method. It takes the state and returns the new state, or a `Result` whose error stands for the `ValueError` the source raises.

External services become parameters:

- The language model is a function from a call number and the prompt's inputs to the reply text. The call number is the position of the loop iteration that asks: the attempt number in the evolution loop, the iteration number in the seed loop, the question's position in the answer stage. An iteration that makes no request (a document without text, a question without passages) still uses up its number.
- The critic chain is a function from a call number and the question text to the parsed reply, or to an unparseable reply.
- The embedding model is a function from text to a vector.
- The Qdrant client is a datatype holding its search function.
- `random.choice` and `uuid.uuid4()` are a supplied sequence of draws, one per loop iteration. Each draw has a document index, a question id and an 8-character id suffix.

Each loop is modelled twice:

1. As a method with a `while`/`for` loop, as in the source.
2. As a recursive reference function that follows the loop step by step (`Evolution.Evolve`, `QuestionCritic.Critique`, `QuestionGenerator.InitialQuestions`, `Retrieval.Collect`).

Each method's postcondition ties its result to its reference function. What the source promises is proved about the reference function as separate lemmas. The flat FAISS index is a class (`Retrieval.FlatIndexL2`) whose `Add` changes its stored vectors in place.

Modules, in pipeline order:

| file | module | models |
|---|---|---|
| wrappers.dfy | `Wrappers` | `Option`, `Result`, the error kinds |
| text.dfy | `Text` | `str.strip()`, blank strings, `" ".join` |
| lookup.dfy | `Lookup` | first-match search, `next(..., None)` |
| state.dfy | `State` | the state record and the entities it holds |
| techniques.dfy | `Techniques` | `agents/evolution_techniques.py` |
| evolution.dfy | `Evolution` | `agents/evolution_agent.py` |
| critic.dfy | `QuestionCritic` | `agents/question_critic_agent.py` |
| question_generator.dfy | `QuestionGenerator` | `agents/question_generator.py` |
| retrieval.dfy | `Retrieval` | `agents/context_gathering.py` |
| answers.dfy | `AnswerGeneration` | `agents/answer_generator.py` |
| export.dfy | `Export` | `agents/export_agent.py` |

Three behaviours of the code shape the model:

- **The critic stage can fail.** `validate_question` parses the critic's reply before its `try` block (`agents/question_critic_agent.py:35-39`). An unreadable reply therefore escapes the handler and ends the stage with an error (`QuestionCritic.CriticAgent`).
- **The flat index pads short rows.** A FAISS flat index asked for `k` neighbours returns exactly `k` ids and fills the positions past the stored vectors with `-1`. The model returns that padded row (`Retrieval.NearestKMeaning`). The padding then meets a one-sided filter (`agents/context_gathering.py:61`), which is the finding below.
- **The weights are attached but never read.** The distribution's weights are attached to the techniques (`agents/question_generator.py:52-55`). The evolution loop ignores them (`agents/evolution_agent.py:73`) and walks the techniques in registry order (`Evolution.EvolveInOrder`).

## Model

| member | source | states |
|---|---|---|
| Text.Strip | agents/evolution_agent.py:38 | the stripped text has no whitespace at either end, and the input is a blank prefix, the result, then a blank suffix: only whitespace at the two ends is removed |
| Text.StripKeepsPiece | agents/evolution_agent.py:38 | what `strip()` keeps is a contiguous piece of its input, and it is empty exactly when the input is all whitespace |
| Text.TrimBothExact | agents/evolution_agent.py:38 | `rstrip()` after `lstrip()` leaves the input less a blank prefix and a blank suffix |
| Text.StripUnique | agents/evolution_agent.py:38 | any string without whitespace at its ends that the input holds between blank ends is the result, so the two clauses determine `strip()` exactly |
| Text.TrimStartAt | agents/evolution_agent.py:38 | `lstrip()` of a string blank before its first non-space position `k` is the string from `k` |
| Text.TrimEndAt | agents/evolution_agent.py:38 | `rstrip()` of a string blank after its last non-space position is the string up to it |
| Text.StripIdempotent | agents/answer_generator.py:28 | stripping twice gives the same as stripping once |
| Text.JoinLength | agents/answer_generator.py:62 | the joined text has every character of the parts plus one space per gap |
| Text.JoinEmptyIff | agents/answer_generator.py:62 | the joined text is empty exactly for no parts or a single empty part |
| Text.JoinContainsParts | agents/answer_generator.py:62 | every passage occurs in the joined context |
| Lookup.FirstIndex | agents/answer_generator.py:45-47 | the result is the first position satisfying the predicate, and None exactly when no position does |
| Techniques.CreateEvolutionPrompt | agents/evolution_techniques.py:5-52 | an initial template declares exactly context, instruction, examples; any other also declares question, first; it declares question iff it is not initial |
| Techniques.Names | agents/question_generator.py:39-41 | one name per registry entry, in order |
| Techniques.FindTechnique | agents/question_generator.py:85-92 | None exactly when no entry has the name; otherwise the first registry entry with that name |
| Techniques.RegistryShape | agents/evolution_techniques.py:55-343 | twelve entries, the first is `simple_question` with the initial template |
| Techniques.OnlyFirstTechniqueIsInitial | agents/evolution_techniques.py:55-343 | an entry lacks a question input exactly when it is the first |
| Techniques.RegistryNamesDistinct | agents/evolution_techniques.py:55-343 | no two entries share a name |
| Techniques.RegistryHasSimpleQuestion | agents/evolution_techniques.py:56-59 | the lookup of `simple_question` finds the first entry |
| Evolution.EvolutionPrompt | agents/evolution_agent.py:31-35 | a question input is present iff the template declares one, and then it is the question or, when that is empty, the fixed placeholder; never an empty string |
| Evolution.ApplyEvolution | agents/evolution_agent.py:36-38 | the result has no whitespace at its ends and is the reply less a blank prefix and a blank suffix |
| Evolution.ApplyEvolutionKeepsReply | agents/evolution_agent.py:38 | the result is the model's reply less its leading and trailing whitespace (blank prefix, result, blank suffix), a piece of the reply, empty exactly when the reply is blank |
| Evolution.LineageRoundTrip | agents/evolution_agent.py:56 | an id built from a question id, a technique name and an 8-character suffix reads back to those three |
| Evolution.LineageIdsDistinct | agents/evolution_agent.py:56 | different question ids of one length give different lineage ids |
| Evolution.CreateEvolvedQuestion | agents/evolution_agent.py:41-60 | copies the original id, the type and the text, and has no feedback yet |
| Evolution.EvolvedQuestionId | agents/evolution_agent.py:55-60 | the entry's id contains the technique name and reads back to (question id, technique, suffix) |
| Evolution.ReplayEntries | agents/evolution_agent.py:72-95 | every kept entry is the non-blank answer of one of the calls made, typed by that call's technique |
| Evolution.EvolveReplays | agents/evolution_agent.py:72-98 | the run's entries are exactly what its own calls keep: blank answers add nothing |
| Evolution.EvolveInOrder | agents/evolution_agent.py:72-95 | calls go technique by technique in registry order |
| Evolution.EvolveCaps | agents/evolution_agent.py:74-95 | at most the per-technique cap per technique, and exactly that many for each when the run was not cut short |
| Evolution.EvolveTotal | agents/evolution_agent.py:97-98 | at most `max_evolved_questions` entries, or one when that is below one |
| Evolution.EvolveEnds | agents/evolution_agent.py:75-76 | a run that ran out of draws used all of them; a zero per-technique cap makes no call |
| Evolution.AskStripped | agents/evolution_agent.py:76-87 | every question a call gives is stripped |
| Evolution.EvolutionRunEntries | agents/evolution_agent.py:63-100 | the whole run: at most one call per draw, in technique order, every entry a non-blank stripped answer of its call with that draw's ids |
| Evolution.EvolutionRunCaps | agents/evolution_agent.py:63-100 | the whole run keeps to both caps, and fills every technique's cap unless it stopped early |
| Evolution.ReplayKindsSorted | agents/evolution_agent.py:72-95 | calls made in technique order keep entries whose technique indices never decrease |
| Evolution.EvolutionRunGrouped | agents/evolution_agent.py:72-95 | the run's entries are grouped by technique in registry order, each typed by its technique's name |
| Evolution.ReplayIdsDistinct | agents/evolution_agent.py:89-94 | with pairwise distinct question ids of one length in the draws, the kept entries have pairwise distinct ids |
| Evolution.EvolutionRunIdsDistinct | agents/evolution_agent.py:89-94 | the same for the whole run: every evolved id is unique |
| Evolution.GenerateEvolvedQuestions | agents/evolution_agent.py:63-100 | the loop's entries are those of the reference run, which the lemmas above describe |
| Evolution.EvolutionAgent | agents/evolution_agent.py:103-136 | an empty or missing document list is the `ValueError`; otherwise only `evolved_questions` is replaced, by the run's entries |
| QuestionCritic.ValidateQuestion | agents/question_critic_agent.py:32-48 | a reply with both rubric keys is kept unchanged, one missing a key becomes zero on both, an unparseable reply is an error |
| QuestionCritic.MissingRubricScoresZero | agents/question_critic_agent.py:41-48 | a reply missing a rubric totals zero and fails any positive threshold |
| QuestionCritic.Annotate | agents/question_critic_agent.py:75 | `critic_feedback` becomes the entry's own verdict; id, lineage, type and text are kept |
| QuestionCritic.AcceptedUpTo | agents/question_critic_agent.py:70-76 | at most one kept entry per judged entry |
| QuestionCritic.AnnotatedUpTo | agents/question_critic_agent.py:70-76 | the entry list keeps its length |
| QuestionCritic.AcceptedKept | agents/question_critic_agent.py:70-76 | each kept entry is an accepted entry, annotated with its own verdict |
| QuestionCritic.AcceptedInOrder | agents/question_critic_agent.py:70-76 | the kept entries keep list order |
| QuestionCritic.AcceptedComplete | agents/question_critic_agent.py:72-76 | every accepted entry among those judged is kept |
| QuestionCritic.AnnotatedUpToMeaning | agents/question_critic_agent.py:75 | an entry of the list is annotated exactly when it was judged and accepted; the others are unchanged |
| QuestionCritic.CritiqueErrors | agents/question_critic_agent.py:34-36 | the loop fails only with the parser's error, and never when every reply parses |
| QuestionCritic.CritiqueMeaning | agents/question_critic_agent.py:70-79 | a successful loop kept exactly the accepted entries among those it judged, and judged all unless the cap was reached |
| QuestionCritic.CritiqueStopsFirst | agents/question_critic_agent.py:78-79 | the loop stops at the first judgement that reaches the cap, so no later question is sent to the model |
| QuestionCritic.CritiqueCap | agents/question_critic_agent.py:78-79 | at most `max_validated_questions` kept, or one when that is below one |
| QuestionCritic.CriticRunMeaning | agents/question_critic_agent.py:66-82 | the whole critic loop: errors, the judged prefix, the kept entries, the annotations and the cap, as above |
| QuestionCritic.CriticKeepsDistinctIds | agents/question_critic_agent.py:66-82 | distinct ids stay distinct in both the annotated list and the validated list |
| QuestionCritic.CriticAgent | agents/question_critic_agent.py:51-82 | the result is the reference loop's: the kept entries become `validated_questions`, the annotated list becomes `evolved_questions`, and nothing else changes |
| QuestionGenerator.OrDefault | agents/question_generator.py:33-36 | the state's setting when present and non-zero, the argument otherwise |
| QuestionGenerator.UnsetCapsTakeDefaults | agents/question_generator.py:14-15 | with a cap missing or zero in the state, the default arguments give 12 evolved questions in all and 5 per technique |
| QuestionGenerator.DefaultDistribution | agents/question_generator.py:38-42 | every registry name has an entry, each one over the registry length |
| QuestionGenerator.AttachWeights | agents/question_generator.py:52-55 | registry order, names and templates kept, each weight the distribution's value or 0 |
| QuestionGenerator.DefaultWeightsEqual | agents/question_generator.py:39-42 | under the default distribution all weights are equal to one over the count |
| QuestionGenerator.DefaultWeightsSumToOne | agents/question_generator.py:39-42 | under the default distribution the weights of a non-empty registry sum to one |
| QuestionGenerator.RegistryDefaultWeights | agents/question_generator.py:38-42 | the registry's default weights are one twelfth each and sum to one |
| QuestionGenerator.PipelineIdsDistinct | agents/question_generator.py:11-74 | with pairwise distinct draw question ids of one length, the evolved ids are pairwise distinct, and so are the ids of both lists a successful critic stage stores, so the export lemmas apply to the pipeline's output |
| QuestionGenerator.QuestionGenerationPipeline | agents/question_generator.py:11-74 | the missing-model error comes before any stage; then the no-documents error; otherwise the evolution run with the resolved caps and weights feeds the critic with the quality threshold and the evolved-question cap, and its outcome is the result |
| QuestionGenerator.SeedReplyStripped | agents/question_generator.py:98-109 | every seed reply is stripped, and a non-blank one came from a document with text |
| QuestionGenerator.Productive | agents/question_generator.py:97-117 | lists only iterations below the count whose reply is not blank |
| QuestionGenerator.ProductiveComplete | agents/question_generator.py:97-117 | every iteration with a non-blank reply is listed, in increasing order |
| QuestionGenerator.InitialQuestionsFrom | agents/question_generator.py:96-117 | one seed per productive iteration, in order, with that iteration's uuid, document text and reply |
| QuestionGenerator.InitialQuestionsEmptyIff | agents/question_generator.py:97-120 | no seeds exactly when every iteration's reply was blank |
| QuestionGenerator.InitialQuestionsMeaning | agents/question_generator.py:97-117 | at most `num_questions` seeds, each with a non-blank stripped question and a non-empty context |
| QuestionGenerator.SeedQuestions | agents/question_generator.py:96-117 | the loop's seeds are the reference function's |
| QuestionGenerator.GenerateInitialQuestions | agents/question_generator.py:77-123 | empty corpus (for any `num_questions`), missing technique and no seeds are the three `ValueError`s; otherwise only `questions` is replaced by the seeds |
| QuestionGenerator.RegistryFindsSimpleQuestion | agents/question_generator.py:85-94 | with the real registry the missing-technique error never occurs |
| Retrieval.SqDist | agents/context_gathering.py:50 | an L2 distance is never negative |
| Retrieval.Distances | agents/context_gathering.py:79-92 | one distance per stored vector, each that vector's distance to the query |
| Retrieval.RankMeaning | agents/context_gathering.py:79-92 | the ranking lists every stored id once, nearest first, ties by lower id |
| Retrieval.NearestKMeaning | agents/context_gathering.py:79-92 | the row has k entries: the nearest min(k, n) ids, best first and without repeats, then `-1` padding; every id left out is no nearer than any returned; with k at least n every id is returned |
| Retrieval.NearestKExample | agents/context_gathering.py:79-92 | a concrete search returns the query point, then two equidistant points in id order |
| Retrieval.NearestKPads | agents/context_gathering.py:79-92 | asking for more neighbours than are stored ends the row with `-1` |
| Retrieval.FlatIndexL2.constructor | agents/context_gathering.py:50 | a new index of the given width holds no vectors |
| Retrieval.FlatIndexL2.Add | agents/context_gathering.py:51 | rows of the index's width are appended in order; otherwise nothing is added and failure is reported |
| Retrieval.FlatIndexL2.Search | agents/context_gathering.py:79-92 | a query of another width is rejected; otherwise the result is the nearest-k row over the stored vectors |
| Retrieval.QdrantSearch | agents/context_gathering.py:95-113 | the hit ids in backend order, at most k of them |
| Retrieval.Passages | agents/context_gathering.py:60-62 | at most one passage per returned id |
| Retrieval.PassagesMeaning | agents/context_gathering.py:60-62 | each passage is the text of the document a returned id names, in returned order, and every id that names a document contributes |
| Retrieval.PassagesEmptyIff | agents/context_gathering.py:60-64 | no passages exactly when no returned id names a document |
| Retrieval.PassagesAsWritten | agents/context_gathering.py:60-62 | the comprehension as written succeeds exactly when no id is below minus the document count, fails then with `IndexError`, and keeps at most one passage per id |
| Retrieval.PassagesAsWrittenAgrees | agents/context_gathering.py:60-62 | without negative ids the filter as written gives the same passages |
| Retrieval.NearestKWithinStore | agents/context_gathering.py:79-92 | a flat index holding at least `k` vectors returns only stored ids, no padding |
| Retrieval.SearchesAsWrittenAgree | agents/context_gathering.py:56-62 | when the backend returns no negative id (a flat index with at least `k` vectors, or a Qdrant client with non-negative ids), the comprehension as written gives each question exactly the passages the stage records |
| Retrieval.PaddingReadsLastDocument | agents/context_gathering.py:61 | the filter as written turns a `-1` padding id into a copy of the last document, or an `IndexError` on an empty corpus |
| Retrieval.Searches | agents/context_gathering.py:56-58 | one search result per question, in order, each from that question's embedding |
| Retrieval.SearchErrors | agents/context_gathering.py:50-58 | a search fails only on the flat index, with a dimension mismatch, exactly when the question embeds to another width |
| Retrieval.Covered | agents/context_gathering.py:64-73 | lists, in increasing order, questions that got passages |
| Retrieval.CoveredComplete | agents/context_gathering.py:64-73 | every question with passages is listed |
| Retrieval.CollectErrors | agents/context_gathering.py:56-58 | the loop succeeds exactly when every search succeeds, and fails only with a search's error |
| Retrieval.CollectStops | agents/context_gathering.py:56-58 | the first failed search decides the outcome |
| Retrieval.CollectRecords | agents/context_gathering.py:56-71 | one record per question with passages, in question order, carrying its id, text and passages |
| Retrieval.RecordsHavePassages | agents/context_gathering.py:64-71 | no record has an empty passage list |
| Retrieval.SearchWith | agents/context_gathering.py:44-54 | the search goes to the chosen backend |
| Retrieval.GatherContexts | agents/context_gathering.py:56-73 | the loop's records are the reference function's over the questions' searches |
| Retrieval.ContextGathering | agents/context_gathering.py:9-76 | missing embeddings (flat index) and a missing client or collection (Qdrant) are the two `ValueError`s; rows of unequal width are a dimension mismatch; otherwise only `contexts` is replaced by the loop's records |
| AnswerGeneration.GenerateAnswer | agents/answer_generator.py:22-28 | the answer has no whitespace at its ends and is the reply less a blank prefix and a blank suffix |
| AnswerGeneration.GenerateAnswerKeepsReply | agents/answer_generator.py:28 | the answer is the reply less its leading and trailing whitespace (blank prefix, answer, blank suffix), a piece of the reply, empty exactly when the reply is blank |
| AnswerGeneration.FindContextMeaning | agents/answer_generator.py:45-47 | the passages of the first record with the id, and none exactly when no record has it |
| AnswerGeneration.AnswerForMeaning | agents/answer_generator.py:45-87 | id and question copied; answer never empty; without passages the insufficient-context text with context `""`; otherwise the context is the passages joined by spaces, each passage in it, and the answer is the stripped reply or, for a blank reply, the generation-failed text |
| AnswerGeneration.AnswerGenerator | agents/answer_generator.py:31-90 | exactly min(number of questions, max(max_answers, 0)) answers, answer j for question j as above, and only `answers` is replaced |
| AnswerGeneration.AnswersNonEmpty | agents/answer_generator.py:48-89 | every stored answer text is non-empty and has the id of the question at its position |
| Export.FindAnswerMeaning | agents/export_agent.py:39-42 | the first answer with the id, and none exactly when no answer has it |
| Export.ExportRowsMeaning | agents/export_agent.py:46-56 | one row per evolved question, in order, with id, type and text copied; answer and passages are the first match by id, and missing exactly when there is no match |
| Export.ExportAgent | agents/export_agent.py:5-68 | only `final_output` is replaced, by rows computed from the evolved questions, answers and contexts alone: neither `questions` nor an earlier `final_output` has any influence |
| Export.ExportAfterAnswers | agents/export_agent.py:39-56 | after the answer stage, with distinct ids, the questions under the cap are exported with their own non-empty answer and the rest with none |
| Export.ExportAfterContexts | agents/export_agent.py:40-56 | after the context stage, with distinct ids, a question is exported with passages exactly when its search found some, and then with those |

## Left out

- Prompt wording, the example library and `PromptTemplate.format` are not part of this model. A template is reduced to its declared input names. `create_evolution_prompt` uses its name argument only for logging. The instruction and example slots that `generate_evolved_questions` fills from the template are therefore determined by the template. The prompt records only the template, the context and the question slot.
- The `hasattr(result, "content")` distinction is not modelled: the model oracle returns the reply text itself.
- The LLM oracle receives a call number: the position of the asking iteration, not a count of requests actually made. The model does not say which replies a real model would give.
- `random.choice` and `uuid.uuid4()` are a supplied sequence of draws. Only `LineageRoundTrip` needs the suffix to have 8 characters; the uuid format is not modelled.
- Evolution.GenerateEvolvedQuestions: the source loop never ends if the model always replies blank. The model's loop makes at most one attempt per supplied draw and reports `exhausted` when the draws run out. The caps are proved for every run, finished or cut short.
- QuestionGenerator.QuestionGenerationPipeline: after an evolution run cut short by the draws, the model passes the partial list to the critic. In the source that run would never have returned.
- The weights are `real`, not binary floating point. Sampling by weight does not exist in the source, which walks the techniques in order.
- QuestionCritic.ValidateQuestion: JSON parsing is left to the critic oracle, whose reply is either parsed feedback or unparseable. Scores are integers. A non-numeric score, which would make the sum raise `TypeError` in the source, is not modelled.
- QuestionCritic.ValidateQuestion: a reply that parses to JSON other than an object (a list, a string, a number) is not modelled. In the source the `in` test then searches a list or a string, or raises `TypeError` on a number; parsed replies here are always key-to-score maps.
- QuestionCritic.CriticAgent: the annotation happens in place on shared dictionaries. The model returns the annotated list as the new `evolved_questions` value, so aliasing with other references to those dictionaries is not modelled. A parser error in the middle of the loop leaves the source's earlier annotations in place; the model returns only the error.
- Failures of the external services are not modelled. The LLM, the critic chain, the embedder and the Qdrant client are total functions here. In the source, an exception from `model.invoke` (agents/evolution_agent.py:76-87, agents/answer_generator.py:26), `chain.invoke` (agents/question_critic_agent.py:36), `embed_query` (agents/context_gathering.py:56) or `client.search` (agents/context_gathering.py:44-54) propagates unchanged out of the stage, so an unreachable backend ends the run. The one failure the model does carry is an unparseable critic reply, as an `Err`.
- A missing `embedding_model` or `model` in the state raises `AttributeError` in the retrieval and answer stages. This is not modelled: the embedder and the model oracle are parameters.
- Retrieval.FlatIndexL2.Search: distances are exact reals, not float32. Equal distances are ordered by lower id; the FAISS order for ties is not specified. For `k <= 0` the row is empty, while FAISS rejects such a call.
- Retrieval.QdrantSearch: the client is an oracle, and the model only takes at most `k` of its hits in order. A negative limit and non-integer (UUID) point ids are not modelled.
- Retrieval.ContextGathering: rows of unequal width make `np.array` fail in the source. The model reports this as a dimension mismatch, as the index would.
- Retrieval.ContextGathering: the stage is built on the corrected passage filter `Retrieval.Passages` (see Findings). When the flat index holds fewer than `k` vectors, the source's `-1` padding repeats the last document's text, or raises `IndexError` with no documents; the stage model does not reproduce either. `Retrieval.SearchesAsWrittenAgree` proves the two filters agree whenever no id is negative.
- Retrieval.GatherContexts: the loop uses the corrected filter, so with flat-index padding its records lack the source's repeated last-document passages. Without negative ids they are the source's (`Retrieval.SearchesAsWrittenAgree`).
- Retrieval.CollectRecords: the records it describes carry the corrected filter's passages. With padding ids the source's records would differ as above; without negative ids they coincide.
- `agents/document_loader.py` (PDF loading and embedding) is not part of this model. `agents/state_config.py` is reflected only in the fields of `State.QAState`. That includes `validated_questions`, which the source writes although the type does not declare it.
- All `print` calls and logging, including the export summary, are left out.

## Findings

| source | as written | input that shows it | evidently intended | confidence | as-written member | corrected member |
|---|---|---|---|---|---|---|
| agents/context_gathering.py:61 | the passage filter checks only `i < len(documents)`, so the `-1` padding the flat index returns when `k` exceeds the stored vectors selects `documents[-1]` | two documents and `k = 3`: the ids `[0, 1, -1]` give the passages `["a", "b", "b"]`; with no documents the id `-1` raises `IndexError` | keep only ids with `0 <= i < len(documents)`, giving `["a", "b"]` | not executed | Retrieval.PaddingReadsLastDocument | Retrieval.PassagesMeaning |

The rest of the model uses the corrected `Retrieval.Passages`. `Retrieval.PassagesAsWritten` is the filter as written. `Retrieval.PassagesAsWrittenAgrees` shows that the two agree whenever no id is negative.
