/** The question-generation entry points: the pipeline that runs evolution and
    then the critic, and the seed-question generator. */
module QuestionGenerator {
  import opened Wrappers
  import opened Text
  import opened State
  import opened Techniques
  import opened Evolution
  import opened QuestionCritic

  const DefaultMaxEvolvedQuestions := 12
  const DefaultMaxEvolutionsPerTechnique := 5
  const ModelsMissingMessage := "Model or critic model not found in the state."
  const SimpleQuestionMissingMessage := "Simple question evolution technique not found."
  const NoInitialQuestionsMessage := "Failed to generate any initial questions."

  /** Sampling weights by technique name. */
  type Distribution = map<string, real>

  /** `state.get(key) or default` for an integer setting: a missing setting and a
      zero setting both fall back to the default. */
  function OrDefault(setting: Option<int>, default: int): (r: int)
    ensures r == default || (setting.Some? && r == setting.value && r != 0)
    ensures setting.Some? && setting.value != 0 ==> r == setting.value
  {
    if setting.Some? && setting.value != 0 then setting.value else default
  }

  /** With neither cap set in the state (missing or zero), the pipeline run
      with its default arguments uses 12 evolved questions in all and 5 per
      technique. */
  lemma UnsetCapsTakeDefaults(state: QAState)
    requires state.maxEvolvedQuestions.None? || state.maxEvolvedQuestions == Some(0)
    requires state.maxEvolutionsPerTechnique.None? || state.maxEvolutionsPerTechnique == Some(0)
    ensures OrDefault(state.maxEvolvedQuestions, DefaultMaxEvolvedQuestions) == 12
    ensures OrDefault(state.maxEvolutionsPerTechnique, DefaultMaxEvolutionsPerTechnique) == 5
  {
  }

  /** The default distribution: every registry name weighs one over the number of
      entries. An empty registry gives an empty map, with no division made. */
  function DefaultDistribution(techniques: seq<Technique>): (d: Distribution)
    ensures forall name :: name in d <==> name in Names(techniques)
    ensures forall name :: name in d ==> d[name] == 1.0 / (|techniques| as real)
  {
    map name | name in Names(techniques) :: 1.0 / (|techniques| as real)
  }

  /** `distribution.get(name, 0)`. */
  function WeightOf(d: Distribution, name: string): real
  {
    if name in d then d[name] else 0.0
  }

  /** The registry with weights attached, in registry order. */
  function AttachWeights(techniques: seq<Technique>, d: Distribution): (r: seq<WeightedTechnique>)
    ensures |r| == |techniques|
    ensures forall i :: 0 <= i < |r| ==>
              r[i].name == techniques[i].name && r[i].template == techniques[i].template
              && r[i].weight == WeightOf(d, techniques[i].name)
  {
    if techniques == [] then []
    else [WeightedTechnique(techniques[0].name, techniques[0].template, WeightOf(d, techniques[0].name))]
         + AttachWeights(techniques[1..], d)
  }

  /** The sum of the attached weights. */
  function TotalWeight(ws: seq<WeightedTechnique>): real
  {
    if ws == [] then 0.0 else ws[0].weight + TotalWeight(ws[1..])
  }

  /** Equal weights sum to their count times the weight. */
  lemma {:induction false} TotalOfEqualWeights(ws: seq<WeightedTechnique>, w: real)
    requires forall i :: 0 <= i < |ws| ==> ws[i].weight == w
    ensures TotalWeight(ws) == (|ws| as real) * w
  {
    if ws != [] {
      TotalOfEqualWeights(ws[1..], w);
    }
  }

  /** Under the default distribution every technique gets the same weight. */
  lemma DefaultWeightsEqual(techniques: seq<Technique>)
    ensures forall i :: 0 <= i < |techniques| ==>
              AttachWeights(techniques, DefaultDistribution(techniques))[i].weight == 1.0 / (|techniques| as real)
  {
    forall i | 0 <= i < |techniques|
      ensures AttachWeights(techniques, DefaultDistribution(techniques))[i].weight == 1.0 / (|techniques| as real)
    {
      assert Names(techniques)[i] == techniques[i].name;
    }
  }

  /** Under the default distribution the weights of a non-empty registry sum
      to one. */
  lemma DefaultWeightsSumToOne(techniques: seq<Technique>)
    requires techniques != []
    ensures TotalWeight(AttachWeights(techniques, DefaultDistribution(techniques))) == 1.0
  {
    var ws := AttachWeights(techniques, DefaultDistribution(techniques));
    DefaultWeightsEqual(techniques);
    assert |ws| == |techniques|;
    EqualSharesSumToOne(ws, 1.0 / (|techniques| as real));
  }

  /** Weights that are all one share of their count sum to one. */
  lemma EqualSharesSumToOne(ws: seq<WeightedTechnique>, w: real)
    requires ws != [] && w == 1.0 / (|ws| as real)
    requires forall i :: 0 <= i < |ws| ==> ws[i].weight == w
    ensures TotalWeight(ws) == 1.0
  {
    TotalOfEqualWeights(ws, w);
    ShareSumsToOne(|ws|, w);
  }

  lemma ShareSumsToOne(n: nat, w: real)
    requires n > 0 && w == 1.0 / (n as real)
    ensures (n as real) * w == 1.0
  {
  }

  /** The registry's default weights are one twelfth each. */
  lemma RegistryDefaultWeights()
    ensures forall i :: 0 <= i < |Registry| ==>
              AttachWeights(Registry, DefaultDistribution(Registry))[i].weight == 1.0 / 12.0
    ensures TotalWeight(AttachWeights(Registry, DefaultDistribution(Registry))) == 1.0
  {
    RegistryShape();
    DefaultWeightsEqual(Registry);
    DefaultWeightsSumToOne(Registry);
  }

  /** `question_generation_pipeline`: the two caps come from the state when set
      and non-zero; without a distribution every registry technique weighs the
      same; both models must be present; then the evolution stage runs on the
      registry and the critic keeps up to the resolved evolved-question cap of
      its entries at the quality threshold. */
  method QuestionGenerationPipeline(state: QAState, distribution: Option<Distribution>,
                                    maxEvolvedQuestions: int, maxEvolutionsPerTechnique: int,
                                    qualityThreshold: int, llm: (nat, Prompt) -> string,
                                    critic: (nat, string) -> CriticReply, trace: seq<Draw>)
    returns (r: Result<QAState>, exhausted: bool)
    requires DrawsWithin(trace, |state.Documents()|)
    ensures state.model.None? || state.criticModel.None? ==>
              r == Err(ValueError(ModelsMissingMessage)) && !exhausted
    ensures state.model.Some? && state.criticModel.Some? && state.Documents() == [] ==>
              r == Err(ValueError(NoDocumentsMessage)) && !exhausted
    ensures state.model.Some? && state.criticModel.Some? && state.Documents() != [] ==>
              var maxEv := OrDefault(state.maxEvolvedQuestions, maxEvolvedQuestions);
              var maxPer := OrDefault(state.maxEvolutionsPerTechnique, maxEvolutionsPerTechnique);
              var weighted := AttachWeights(Registry, distribution.GetOr(DefaultDistribution(Registry)));
              var run := EvolutionRun(state.Documents(), weighted, llm, maxEv, maxPer, trace);
              var review := CriticRun(run.evolved, critic, qualityThreshold, maxEv);
              && exhausted == run.exhausted
              && (r.Err? <==> review.Err?)
              && (r.Err? ==> r.error == review.error)
              && (r.Ok? ==> r.value == state.(evolvedQuestions := Some(review.value.annotated),
                                              validatedQuestions := Some(review.value.validated)))
  {
    var maxEv := OrDefault(state.maxEvolvedQuestions, maxEvolvedQuestions);
    var maxPer := OrDefault(state.maxEvolutionsPerTechnique, maxEvolutionsPerTechnique);
    var d := if distribution.Some? then distribution.value else DefaultDistribution(Registry);
    if state.model.None? || state.criticModel.None? {
      return Err(ValueError(ModelsMissingMessage)), false;
    }
    var weighted := AttachWeights(Registry, d);
    var evolved;
    evolved, exhausted := EvolutionAgent(state, llm, weighted, maxEv, maxPer, trace);
    if evolved.Err? {
      return evolved, exhausted;
    }
    r := CriticAgent(evolved.value, critic, qualityThreshold, maxEv);
  }

  /** With fresh question ids in the draws, the ids stay pairwise distinct
      through the pipeline: in the evolution run and, when the critic
      succeeds, in both of its lists. */
  lemma PipelineIdsDistinct(documents: seq<Document>, weighted: seq<WeightedTechnique>, llm: (nat, Prompt) -> string,
                            critic: (nat, string) -> CriticReply, maxEv: int, maxPer: int, qualityThreshold: int,
                            trace: seq<Draw>)
    requires FreshIds(trace)
    ensures var run := EvolutionRun(documents, weighted, llm, maxEv, maxPer, trace);
            var review := CriticRun(run.evolved, critic, qualityThreshold, maxEv);
            && DistinctIds(run.evolved)
            && (review.Ok? ==> DistinctIds(review.value.annotated) && DistinctIds(review.value.validated))
  {
    var run := EvolutionRun(documents, weighted, llm, maxEv, maxPer, trace);
    EvolutionRunIdsDistinct(documents, weighted, llm, maxEv, maxPer, trace);
    CriticKeepsDistinctIds(run.evolved, critic, qualityThreshold, maxEv);
  }

  /** The seed question iteration `i` yields: the stripped reply to the simple
      question template on the drawn document, when that document has text. */
  function SeedReply(documents: seq<Document>, simple: Technique, llm: (nat, Prompt) -> string,
                     trace: seq<Draw>): nat -> string
  {
    (i: nat) =>
      if i < |trace| && trace[i].document < |documents| && documents[trace[i].document].pageContent != ""
      then ApplyEvolution("", documents[trace[i].document].pageContent, simple.template, llm, i)
      else ""
  }

  /** Every seed reply is stripped, and a non-blank one was made on a document
      with text. */
  lemma SeedReplyStripped(documents: seq<Document>, simple: Technique, llm: (nat, Prompt) -> string,
                          trace: seq<Draw>, i: nat)
    requires i < |trace| && trace[i].document < |documents|
    ensures IsStripped(SeedReply(documents, simple, llm, trace)(i))
    ensures SeedReply(documents, simple, llm, trace)(i) != "" ==> documents[trace[i].document].pageContent != ""
  {
  }

  /** The seed questions of the first `n` iterations, in order, where `reply(i)`
      is the text iteration `i` yields. */
  function InitialQuestions(documents: seq<Document>, reply: nat -> string, trace: seq<Draw>, n: nat): seq<InitialQuestion>
    requires n <= |trace| && DrawsWithin(trace, |documents|)
  {
    if n == 0 then []
    else
      var prev := InitialQuestions(documents, reply, trace, n - 1);
      if reply(n - 1) == "" then prev
      else prev + [InitialQuestion(trace[n - 1].questionId, reply(n - 1), documents[trace[n - 1].document].pageContent)]
  }

  /** The iterations, below `n` and in order, whose reply is not blank. */
  function Productive(reply: nat -> string, n: nat): (r: seq<nat>)
    ensures |r| <= n
    ensures forall k :: 0 <= k < |r| ==> r[k] < n && reply(r[k]) != ""
  {
    if n == 0 then []
    else if reply(n - 1) == "" then Productive(reply, n - 1)
    else Productive(reply, n - 1) + [n - 1]
  }

  /** Every iteration with a non-blank reply is among the productive ones, and
      they are listed in increasing order. */
  lemma {:induction false} ProductiveComplete(reply: nat -> string, n: nat)
    ensures forall i :: 0 <= i < n && reply(i) != "" ==> i in Productive(reply, n)
    ensures forall a, b :: 0 <= a < b < |Productive(reply, n)| ==> Productive(reply, n)[a] < Productive(reply, n)[b]
  {
    if n > 0 {
      ProductiveComplete(reply, n - 1);
    }
  }

  /** Seed `s` came from iteration `i`: its id is that iteration's uuid, its
      context the drawn document's text and its question that iteration's reply. */
  predicate SeedFrom(s: InitialQuestion, documents: seq<Document>, reply: nat -> string, trace: seq<Draw>, i: nat)
    requires i < |trace| && trace[i].document < |documents|
  {
    && s.id == trace[i].questionId
    && s.context == documents[trace[i].document].pageContent
    && s.question == reply(i)
  }

  /** The seed questions are one per productive iteration, in that order. */
  lemma {:induction false} InitialQuestionsFrom(documents: seq<Document>, reply: nat -> string, trace: seq<Draw>, n: nat)
    requires n <= |trace| && DrawsWithin(trace, |documents|)
    ensures |InitialQuestions(documents, reply, trace, n)| == |Productive(reply, n)|
    ensures forall k :: 0 <= k < |InitialQuestions(documents, reply, trace, n)| ==>
              SeedFrom(InitialQuestions(documents, reply, trace, n)[k], documents, reply, trace, Productive(reply, n)[k])
  {
    if n > 0 {
      InitialQuestionsFrom(documents, reply, trace, n - 1);
    }
  }

  /** No seed questions exactly when every iteration's reply was blank. */
  lemma {:induction false} InitialQuestionsEmptyIff(documents: seq<Document>, reply: nat -> string, trace: seq<Draw>, n: nat)
    requires n <= |trace| && DrawsWithin(trace, |documents|)
    ensures InitialQuestions(documents, reply, trace, n) == [] <==> forall i :: 0 <= i < n ==> reply(i) == ""
  {
    if n > 0 {
      InitialQuestionsEmptyIff(documents, reply, trace, n - 1);
    }
  }

  /** A run of `generate_initial_questions` yields at most one seed per
      iteration, and every seed question is non-blank
      and stripped and has a non-empty context. */
  lemma InitialQuestionsMeaning(documents: seq<Document>, simple: Technique, llm: (nat, Prompt) -> string,
                                trace: seq<Draw>, n: nat)
    requires n <= |trace| && DrawsWithin(trace, |documents|)
    ensures |InitialQuestions(documents, SeedReply(documents, simple, llm, trace), trace, n)| <= n
    ensures forall k :: 0 <= k < |InitialQuestions(documents, SeedReply(documents, simple, llm, trace), trace, n)| ==>
              && InitialQuestions(documents, SeedReply(documents, simple, llm, trace), trace, n)[k].question != ""
              && IsStripped(InitialQuestions(documents, SeedReply(documents, simple, llm, trace), trace, n)[k].question)
              && InitialQuestions(documents, SeedReply(documents, simple, llm, trace), trace, n)[k].context != ""
  {
    var reply := SeedReply(documents, simple, llm, trace);
    var r := InitialQuestions(documents, reply, trace, n);
    InitialQuestionsFrom(documents, reply, trace, n);
    forall k | 0 <= k < |r|
      ensures r[k].question != "" && IsStripped(r[k].question) && r[k].context != ""
    {
      var i := Productive(reply, n)[k];
      assert SeedFrom(r[k], documents, reply, trace, i);
      SeedReplyStripped(documents, simple, llm, trace, i);
    }
  }

  /** The loop of `generate_initial_questions`: `numQuestions` iterations,
      iteration `i` keeping draw `i`'s uuid and document text with `reply(i)`
      when that is not blank. */
  method SeedQuestions(documents: seq<Document>, reply: nat -> string, numQuestions: int, trace: seq<Draw>)
    returns (initial: seq<InitialQuestion>)
    requires numQuestions <= |trace| && DrawsWithin(trace, |documents|)
    ensures initial == InitialQuestions(documents, reply, trace, Max0(numQuestions))
  {
    initial := [];
    var i := 0;
    while i < numQuestions
      invariant 0 <= i <= Max0(numQuestions)
      invariant initial == InitialQuestions(documents, reply, trace, i)
    {
      var question := reply(i);
      if question != "" {
        initial := initial + [InitialQuestion(trace[i].questionId, question, documents[trace[i].document].pageContent)];
      }
      i := i + 1;
    }
  }

  /** `generate_initial_questions`, with `techniques` the registry it searches:
      an empty corpus, a registry without `simple_question` and a run that
      yields nothing are `ValueError`s; otherwise the seed questions replace
      `questions` and nothing else changes. Iteration `i` uses draw `i` and
      call number `i`, whether or not it asks the model. */
  method GenerateInitialQuestions(state: QAState, llm: (nat, Prompt) -> string, numQuestions: int,
                                  techniques: seq<Technique>, trace: seq<Draw>)
    returns (r: Result<QAState>)
    requires state.Documents() != [] ==> numQuestions <= |trace| && DrawsWithin(trace, |state.Documents()|)
    ensures state.Documents() == [] ==> r == Err(ValueError(NoDocumentsMessage))
    ensures state.Documents() != [] && FindTechnique(techniques, "simple_question").None? ==>
              r == Err(ValueError(SimpleQuestionMissingMessage))
    ensures state.Documents() != [] && FindTechnique(techniques, "simple_question").Some? ==>
              var simple := FindTechnique(techniques, "simple_question").value;
              var seeds := InitialQuestions(state.Documents(), SeedReply(state.Documents(), simple, llm, trace),
                                            trace, Max0(numQuestions));
              && (seeds == [] ==> r == Err(ValueError(NoInitialQuestionsMessage)))
              && (seeds != [] ==> r == Ok(state.(questions := Some(seeds))))
  {
    var documents := state.Documents();
    if documents == [] {
      return Err(ValueError(NoDocumentsMessage));
    }
    var found := FindTechnique(techniques, "simple_question");
    if found.None? {
      return Err(ValueError(SimpleQuestionMissingMessage));
    }
    var initial := SeedQuestions(documents, SeedReply(documents, found.value, llm, trace), numQuestions, trace);
    if initial == [] {
      return Err(ValueError(NoInitialQuestionsMessage));
    }
    r := Ok(state.(questions := Some(initial)));
  }

  /** The registry always has the simple-question technique, so with it only the
      other two errors can occur. */
  lemma RegistryFindsSimpleQuestion()
    ensures FindTechnique(Registry, "simple_question").Some?
  {
    RegistryHasSimpleQuestion();
  }
}
