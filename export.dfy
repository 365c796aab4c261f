/** The export stage (`export_agent`): a left join of the evolved questions
    with the answer and the passages recorded for each of them. */
module Export {
  import opened Wrappers
  import opened Lookup
  import opened State
  import opened AnswerGeneration
  import opened Retrieval

  /** The answer text of the first answer with id `id`, if any. */
  function FindAnswer(answers: seq<Answer>, id: string): Option<string>
  {
    match FirstIndex(answers, (a: Answer) => a.id == id)
    case None => None
    case Some(i) => Some(answers[i].answer)
  }

  /** The lookup finds the first answer with the id, and nothing exactly when
      no answer has it. */
  lemma FindAnswerMeaning(answers: seq<Answer>, id: string)
    ensures FindAnswer(answers, id).None? <==> forall i :: 0 <= i < |answers| ==> answers[i].id != id
    ensures forall i :: 0 <= i < |answers| && answers[i].id == id && (forall j :: 0 <= j < i ==> answers[j].id != id) ==>
              FindAnswer(answers, id) == Some(answers[i].answer)
  {
    var p := (a: Answer) => a.id == id;
    assert forall i :: 0 <= i < |answers| ==> (p(answers[i]) <==> answers[i].id == id);
  }

  /** The exported row of one evolved question. */
  function Row(eq: EvolvedQuestion, answers: seq<Answer>, contexts: seq<ContextRecord>): FinalRecord
  {
    FinalRecord(eq.id, eq.evolutionType, FindAnswer(answers, eq.id), FindContext(contexts, eq.id), eq.evolvedQuestion)
  }

  /** The rows of the evolved questions, in order. */
  function ExportRows(evolved: seq<EvolvedQuestion>, answers: seq<Answer>, contexts: seq<ContextRecord>)
    : seq<FinalRecord>
  {
    seq(|evolved|, j requires 0 <= j < |evolved| => Row(evolved[j], answers, contexts))
  }

  /** One row per evolved question, in order, with its id, kind and text; its
      answer is missing exactly when no answer has its id and is otherwise the
      first such answer's text, and likewise for its passages. */
  lemma ExportRowsMeaning(evolved: seq<EvolvedQuestion>, answers: seq<Answer>, contexts: seq<ContextRecord>)
    ensures |ExportRows(evolved, answers, contexts)| == |evolved|
    ensures forall j :: 0 <= j < |evolved| ==>
              var row := ExportRows(evolved, answers, contexts)[j];
              row.id == evolved[j].id && row.evolutionType == evolved[j].evolutionType
              && row.evolvedQuestion == evolved[j].evolvedQuestion
    ensures forall j :: 0 <= j < |evolved| ==>
              (ExportRows(evolved, answers, contexts)[j].answer.None?
               <==> forall i :: 0 <= i < |answers| ==> answers[i].id != evolved[j].id)
    ensures forall j, i :: 0 <= j < |evolved| && 0 <= i < |answers| && answers[i].id == evolved[j].id
                           && (forall h :: 0 <= h < i ==> answers[h].id != evolved[j].id) ==>
              ExportRows(evolved, answers, contexts)[j].answer == Some(answers[i].answer)
    ensures forall j :: 0 <= j < |evolved| ==>
              (ExportRows(evolved, answers, contexts)[j].contexts.None?
               <==> forall i :: 0 <= i < |contexts| ==> contexts[i].id != evolved[j].id)
    ensures forall j, i :: 0 <= j < |evolved| && 0 <= i < |contexts| && contexts[i].id == evolved[j].id
                           && (forall h :: 0 <= h < i ==> contexts[h].id != evolved[j].id) ==>
              ExportRows(evolved, answers, contexts)[j].contexts == Some(contexts[i].contexts)
  {
    forall j | 0 <= j < |evolved|
      ensures FindAnswer(answers, evolved[j].id).None? <==> forall i :: 0 <= i < |answers| ==> answers[i].id != evolved[j].id
      ensures forall i :: 0 <= i < |answers| && answers[i].id == evolved[j].id
                          && (forall h :: 0 <= h < i ==> answers[h].id != evolved[j].id) ==>
                FindAnswer(answers, evolved[j].id) == Some(answers[i].answer)
      ensures FindContext(contexts, evolved[j].id).None? <==> forall i :: 0 <= i < |contexts| ==> contexts[i].id != evolved[j].id
      ensures forall i :: 0 <= i < |contexts| && contexts[i].id == evolved[j].id
                          && (forall h :: 0 <= h < i ==> contexts[h].id != evolved[j].id) ==>
                FindContext(contexts, evolved[j].id) == Some(contexts[i].contexts)
    {
      FindAnswerMeaning(answers, evolved[j].id);
      FindContextMeaning(contexts, evolved[j].id);
    }
  }

  /** `export_agent`: the rows replace `final_output` and nothing else
      changes. */
  method ExportAgent(state: QAState) returns (r: QAState)
    ensures r == state.(finalOutput := Some(ExportRows(state.EvolvedQuestions(), state.Answers(), state.Contexts())))
  {
    var evolved := state.EvolvedQuestions();
    var answers := state.Answers();
    var contexts := state.Contexts();
    var finalOutput: seq<FinalRecord> := [];
    for j := 0 to |evolved|
      invariant finalOutput == ExportRows(evolved[..j], answers, contexts)
    {
      var eq := evolved[j];
      finalOutput := finalOutput + [FinalRecord(eq.id, eq.evolutionType, FindAnswer(answers, eq.id),
                                                FindContext(contexts, eq.id), eq.evolvedQuestion)];
    }
    assert evolved[..|evolved|] == evolved;
    r := state.(finalOutput := Some(finalOutput));
  }

  /** After the answer stage, with distinct ids, the questions under the cap
      are exported with their own non-empty answer and the rest with none. */
  lemma ExportAfterAnswers(evolved: seq<EvolvedQuestion>, contexts: seq<ContextRecord>,
                           llm: (nat, AnswerPrompt) -> string, answers: seq<Answer>)
    requires DistinctIds(evolved) && |answers| <= |evolved|
    requires forall j :: 0 <= j < |answers| ==> answers[j] == AnswerFor(evolved[j], contexts, llm, j)
    ensures forall j :: 0 <= j < |answers| ==>
              ExportRows(evolved, answers, contexts)[j].answer == Some(answers[j].answer) && answers[j].answer != ""
    ensures forall j :: |answers| <= j < |evolved| ==> ExportRows(evolved, answers, contexts)[j].answer.None?
  {
    AnswersNonEmpty(evolved, contexts, llm, answers);
    forall j | 0 <= j < |evolved|
      ensures j < |answers| ==> FindAnswer(answers, evolved[j].id) == Some(answers[j].answer)
      ensures |answers| <= j ==> FindAnswer(answers, evolved[j].id).None?
    {
      FindAnswerMeaning(answers, evolved[j].id);
    }
  }

  /** After a successful context stage, with distinct ids, a question is
      exported with passages exactly when its search found some, and then
      with exactly those. */
  lemma ExportAfterContexts(evolved: seq<EvolvedQuestion>, documents: seq<Document>, found: seq<Result<seq<int>>>,
                            answers: seq<Answer>)
    requires DistinctIds(evolved) && |found| == |evolved| && Collect(evolved, documents, found, |evolved|).Ok?
    ensures forall j :: 0 <= j < |evolved| ==>
              ExportRows(evolved, answers, Collect(evolved, documents, found, |evolved|).value)[j].contexts
              == if PassagesOf(documents, found, j) != [] then Some(PassagesOf(documents, found, j)) else None
  {
    var records := Collect(evolved, documents, found, |evolved|).value;
    forall j | 0 <= j < |evolved|
      ensures FindContext(records, evolved[j].id)
              == if PassagesOf(documents, found, j) != [] then Some(PassagesOf(documents, found, j)) else None
    {
      ContextOfQuestion(evolved, documents, found, j);
    }
  }

  /** The lookup of one question's id in the records the context stage
      produced. */
  lemma ContextOfQuestion(evolved: seq<EvolvedQuestion>, documents: seq<Document>, found: seq<Result<seq<int>>>,
                          j: nat)
    requires DistinctIds(evolved) && |found| == |evolved| && Collect(evolved, documents, found, |evolved|).Ok?
    requires j < |evolved|
    ensures FindContext(Collect(evolved, documents, found, |evolved|).value, evolved[j].id)
            == if PassagesOf(documents, found, j) != [] then Some(PassagesOf(documents, found, j)) else None
  {
    var records := Collect(evolved, documents, found, |evolved|).value;
    var covered := Covered(documents, found, |evolved|);
    CollectRecords(evolved, documents, found, |evolved|);
    LookupAligned(records, evolved, covered, j);
    if PassagesOf(documents, found, j) != [] {
      CoveredComplete(documents, found, |evolved|);
      var t :| 0 <= t < |covered| && covered[t] == j;
      assert records[t].contexts == PassagesOf(documents, found, j);
    }
  }

  /** Looking up a question's id in records that follow the questions in
      order, one record per covered question: the covered question's record,
      or nothing for a question that is not covered. */
  lemma LookupAligned(records: seq<ContextRecord>, evolved: seq<EvolvedQuestion>, covered: seq<nat>, j: nat)
    requires DistinctIds(evolved) && j < |evolved| && |records| == |covered|
    requires forall t :: 0 <= t < |covered| ==> covered[t] < |evolved| && records[t].id == evolved[covered[t]].id
    requires forall t, u :: 0 <= t < u < |covered| ==> covered[t] < covered[u]
    ensures forall t :: 0 <= t < |covered| && covered[t] == j ==> FindContext(records, evolved[j].id) == Some(records[t].contexts)
    ensures j !in covered ==> FindContext(records, evolved[j].id).None?
  {
    FindContextMeaning(records, evolved[j].id);
    forall t | 0 <= t < |covered| && covered[t] == j
      ensures FindContext(records, evolved[j].id) == Some(records[t].contexts)
    {
      assert forall h :: 0 <= h < t ==> covered[h] < j;
    }
  }
}
