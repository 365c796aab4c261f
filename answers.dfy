/** The answer stage (`answer_generator`): one answer per evolved question up
    to a cap, from the model when the question has passages, otherwise one of
    two fixed fallback texts. */
module AnswerGeneration {
  import opened Wrappers
  import opened Text
  import opened Lookup
  import opened State
  import opened Evolution

  const InsufficientContext := "Research required: Insufficient context to provide an accurate answer."
  const GenerationFailed := "Research required: Unable to generate an answer based on the given context."

  /** The fields of the answer prompt (`create_answer_prompt`); the fixed
      wording around them is not modelled. */
  datatype AnswerPrompt = AnswerPrompt(question: string, context: string)

  /** `generate_answer` under call number `call`: the stripped reply. */
  function GenerateAnswer(question: string, context: string, llm: (nat, AnswerPrompt) -> string, call: nat): (r: string)
    ensures IsStripped(r)
    ensures TrimmedFrom(r, llm(call, AnswerPrompt(question, context)))
  {
    Strip(llm(call, AnswerPrompt(question, context)))
  }

  /** The answer is the model's reply with the whitespace at its two ends
      removed and nothing else, so it is empty exactly when the reply is blank. */
  lemma GenerateAnswerKeepsReply(question: string, context: string, llm: (nat, AnswerPrompt) -> string, call: nat)
    ensures IsSubstring(GenerateAnswer(question, context, llm, call), llm(call, AnswerPrompt(question, context)))
    ensures GenerateAnswer(question, context, llm, call) == "" <==> IsBlank(llm(call, AnswerPrompt(question, context)))
    ensures TrimmedFrom(GenerateAnswer(question, context, llm, call), llm(call, AnswerPrompt(question, context)))
  {
    StripKeepsPiece(llm(call, AnswerPrompt(question, context)));
  }

  /** The passages of the first context record with id `id`, if any. */
  function FindContext(contexts: seq<ContextRecord>, id: string): Option<seq<string>>
  {
    match FirstIndex(contexts, (c: ContextRecord) => c.id == id)
    case None => None
    case Some(i) => Some(contexts[i].contexts)
  }

  /** The lookup finds the passages of the first record with the id, and
      nothing exactly when no record has it. */
  lemma FindContextMeaning(contexts: seq<ContextRecord>, id: string)
    ensures FindContext(contexts, id).None? <==> forall i :: 0 <= i < |contexts| ==> contexts[i].id != id
    ensures forall i :: 0 <= i < |contexts| && contexts[i].id == id && (forall j :: 0 <= j < i ==> contexts[j].id != id) ==>
              FindContext(contexts, id) == Some(contexts[i].contexts)
  {
    var p := (c: ContextRecord) => c.id == id;
    assert forall i :: 0 <= i < |contexts| ==> (p(contexts[i]) <==> contexts[i].id == id);
  }

  /** The question has no usable passages: no record, or an empty list. */
  predicate NoContext(contexts: seq<ContextRecord>, id: string)
  {
    FindContext(contexts, id).None? || FindContext(contexts, id).value == []
  }

  /** The answer for evolved question `q`, under call number `call`. */
  function AnswerFor(q: EvolvedQuestion, contexts: seq<ContextRecord>, llm: (nat, AnswerPrompt) -> string,
                     call: nat): Answer
  {
    var data := FindContext(contexts, q.id);
    if data.None? || data.value == [] then Answer(q.id, q.evolvedQuestion, InsufficientContext, "")
    else
      var combined := JoinWithSpaces(data.value);
      var answer := GenerateAnswer(q.evolvedQuestion, combined, llm, call);
      if answer != "" then Answer(q.id, q.evolvedQuestion, answer, combined)
      else Answer(q.id, q.evolvedQuestion, GenerationFailed, combined)
  }

  /** Every answer carries its question's id and text and a non-empty answer.
      Without passages it is the insufficient-context fallback with an empty
      context; otherwise its context is the passages joined with spaces, so
      each passage is part of it, and its answer is the stripped reply to the
      question and that context, or the generation-failed fallback when the
      reply is blank. */
  lemma AnswerForMeaning(q: EvolvedQuestion, contexts: seq<ContextRecord>, llm: (nat, AnswerPrompt) -> string,
                         call: nat)
    ensures AnswerFor(q, contexts, llm, call).id == q.id
    ensures AnswerFor(q, contexts, llm, call).question == q.evolvedQuestion
    ensures AnswerFor(q, contexts, llm, call).answer != ""
    ensures NoContext(contexts, q.id) ==> AnswerFor(q, contexts, llm, call).answer == InsufficientContext
                                           && AnswerFor(q, contexts, llm, call).context == ""
    ensures !NoContext(contexts, q.id) ==>
              && AnswerFor(q, contexts, llm, call).context == JoinWithSpaces(FindContext(contexts, q.id).value)
              && (forall k :: 0 <= k < |FindContext(contexts, q.id).value| ==>
                    IsSubstring(FindContext(contexts, q.id).value[k], AnswerFor(q, contexts, llm, call).context))
    ensures !NoContext(contexts, q.id) ==>
              var reply := llm(call, AnswerPrompt(q.evolvedQuestion, AnswerFor(q, contexts, llm, call).context));
              && (IsBlank(reply) ==> AnswerFor(q, contexts, llm, call).answer == GenerationFailed)
              && (!IsBlank(reply) ==> AnswerFor(q, contexts, llm, call).answer == Strip(reply)
                                      && IsSubstring(AnswerFor(q, contexts, llm, call).answer, reply))
  {
    if !NoContext(contexts, q.id) {
      var data := FindContext(contexts, q.id).value;
      var combined := JoinWithSpaces(data);
      forall k | 0 <= k < |data|
        ensures IsSubstring(data[k], combined)
      {
        JoinContainsParts(data, k);
      }
      GenerateAnswerKeepsReply(q.evolvedQuestion, combined, llm, call);
    }
  }

  /** `answer_generator`: the first `min(|evolved|, maxAnswers)` evolved
      questions get one answer each, in order, question `j` under call
      number `j` (also when an earlier question made no request); the answers replace `answers` and nothing else changes. */
  method AnswerGenerator(state: QAState, llm: (nat, AnswerPrompt) -> string, maxAnswers: int)
    returns (r: QAState)
    ensures r.answers.Some? && r == state.(answers := r.answers)
    ensures |r.answers.value| == if |state.EvolvedQuestions()| <= Max0(maxAnswers) then |state.EvolvedQuestions()|
                                  else Max0(maxAnswers)
    ensures forall j :: 0 <= j < |r.answers.value| ==>
              r.answers.value[j] == AnswerFor(state.EvolvedQuestions()[j], state.Contexts(), llm, j)
  {
    var evolved := state.EvolvedQuestions();
    var contexts := state.Contexts();
    var answers: seq<Answer> := [];
    var j := 0;
    while j < |evolved|
      invariant j <= |evolved| && j == |answers| && j <= Max0(maxAnswers)
      invariant forall i :: 0 <= i < j ==> answers[i] == AnswerFor(evolved[i], contexts, llm, i)
    {
      if |answers| >= maxAnswers {
        break;
      }
      var q := evolved[j];
      var data := FindContext(contexts, q.id);
      var a: Answer;
      if data.None? || data.value == [] {
        a := Answer(q.id, q.evolvedQuestion, InsufficientContext, "");
      } else {
        var combined := JoinWithSpaces(data.value);
        var answer := GenerateAnswer(q.evolvedQuestion, combined, llm, j);
        if answer != "" {
          a := Answer(q.id, q.evolvedQuestion, answer, combined);
        } else {
          a := Answer(q.id, q.evolvedQuestion, GenerationFailed, combined);
        }
      }
      assert a == AnswerFor(q, contexts, llm, j);
      answers := answers + [a];
      j := j + 1;
    }
    r := state.(answers := Some(answers));
  }

  /** Every stored answer text is non-empty and belongs to the evolved question
      at the same position. */
  lemma AnswersNonEmpty(evolved: seq<EvolvedQuestion>, contexts: seq<ContextRecord>, llm: (nat, AnswerPrompt) -> string,
                        answers: seq<Answer>)
    requires |answers| <= |evolved|
    requires forall j :: 0 <= j < |answers| ==> answers[j] == AnswerFor(evolved[j], contexts, llm, j)
    ensures forall j :: 0 <= j < |answers| ==> answers[j].answer != "" && answers[j].id == evolved[j].id
  {
    forall j | 0 <= j < |answers|
      ensures answers[j].answer != "" && answers[j].id == evolved[j].id
    {
      AnswerForMeaning(evolved[j], contexts, llm, j);
    }
  }
}
