/** The evolution stage: per technique, draw a document, ask the model for a
    question, keep the non-blank ones, and stop at a per-technique and a global cap. */
module Evolution {
  import opened Wrappers
  import opened Text
  import opened State
  import opened Techniques

  /** What the template's question slot receives when no prior question exists. */
  const QuestionPlaceholder := "Generate a question about the following context:"

  /** The inputs `apply_evolution` formats into a template. In the source the
      instruction and examples slots are filled from the template itself, so the
      template determines them; `question` is present only when declared. */
  datatype Prompt = Prompt(template: PromptTemplate, context: string, question: Option<string>)

  /** One attempt's supplied randomness: the index `random.choice` picks, the
      `uuid4()` string used as the question id, and the 8 hex characters of the
      second `uuid4()` that end the evolved id. */
  datatype Draw = Draw(document: nat, questionId: string, suffix: string)

  /** The draws' question ids are pairwise distinct and of one length, as the
      strings of fresh `uuid4()` values are. */
  predicate FreshIds(trace: seq<Draw>)
  {
    forall a, b :: 0 <= a < |trace| && 0 <= b < |trace| ==>
      |trace[a].questionId| == |trace[b].questionId| && (a != b ==> trace[a].questionId != trace[b].questionId)
  }

  /** Every draw picks an existing document. */
  predicate DrawsWithin(trace: seq<Draw>, documentCount: nat)
  {
    forall i :: 0 <= i < |trace| ==> trace[i].document < documentCount
  }

  function Max0(x: int): nat
  {
    if x < 0 then 0 else x
  }

  /** The input dictionary of `apply_evolution`: a question input is added only
      when the template declares one, and an empty question is replaced by the
      placeholder, so the slot is never filled with an empty string. */
  function EvolutionPrompt(question: string, context: string, template: PromptTemplate): (p: Prompt)
    ensures p.template == template && p.context == context
    ensures p.question.Some? <==> DeclaresQuestion(template)
    ensures p.question.Some? ==> p.question.value != ""
    ensures p.question.Some? && question != "" ==> p.question.value == question
    ensures p.question.Some? && question == "" ==> p.question.value == QuestionPlaceholder
  {
    var q := if question != "" then question else QuestionPlaceholder;
    Prompt(template, context, if DeclaresQuestion(template) then Some(q) else None)
  }

  /** `apply_evolution` under call number `call`: the model's reply to the
      prompt, stripped. */
  function ApplyEvolution(question: string, context: string, template: PromptTemplate,
                          llm: (nat, Prompt) -> string, call: nat): (r: string)
    ensures IsStripped(r)
    ensures TrimmedFrom(r, llm(call, EvolutionPrompt(question, context, template)))
  {
    Strip(llm(call, EvolutionPrompt(question, context, template)))
  }

  /** The evolved question is the model's reply with the whitespace at its two
      ends removed and nothing else, so it is empty exactly when the reply is
      blank. */
  lemma ApplyEvolutionKeepsReply(question: string, context: string, template: PromptTemplate,
                                 llm: (nat, Prompt) -> string, call: nat)
    ensures IsSubstring(ApplyEvolution(question, context, template, llm, call),
                        llm(call, EvolutionPrompt(question, context, template)))
    ensures ApplyEvolution(question, context, template, llm, call) == ""
            <==> IsBlank(llm(call, EvolutionPrompt(question, context, template)))
    ensures TrimmedFrom(ApplyEvolution(question, context, template, llm, call),
                        llm(call, EvolutionPrompt(question, context, template)))
  {
    StripKeepsPiece(llm(call, EvolutionPrompt(question, context, template)));
  }

  /** `f"{question_id}_{evolution_type}_{suffix}"` */
  function LineageId(questionId: string, evolutionType: string, suffix: string): string
  {
    questionId + "_" + evolutionType + "_" + suffix
  }

  /** Reads a lineage id back, given the length of its question-id part: the
      question id, the technique name and the 8-character suffix. */
  function SplitLineageId(id: string, idLength: nat): Option<(string, string, string)>
  {
    if |id| < idLength + 10 || id[idLength] != '_' || id[|id| - 9] != '_' then None
    else Some((id[..idLength], id[idLength + 1..|id| - 9], id[|id| - 8..]))
  }

  /** A lineage id with an 8-character suffix reads back to its three parts. */
  lemma LineageRoundTrip(questionId: string, evolutionType: string, suffix: string)
    requires |suffix| == 8
    ensures SplitLineageId(LineageId(questionId, evolutionType, suffix), |questionId|)
            == Some((questionId, evolutionType, suffix))
  {
    var id := LineageId(questionId, evolutionType, suffix);
    var n := |questionId|;
    assert id[..n] == questionId;
    assert id[n] == '_';
    assert id[|id| - 9] == '_';
    assert id[n + 1..|id| - 9] == evolutionType;
    assert id[|id| - 8..] == suffix;
  }

  /** Question ids of one length that differ give lineage ids that differ. */
  lemma LineageIdsDistinct(q1: string, t1: string, s1: string, q2: string, t2: string, s2: string)
    requires |q1| == |q2| && q1 != q2
    ensures LineageId(q1, t1, s1) != LineageId(q2, t2, s2)
  {
    assert LineageId(q1, t1, s1)[..|q1|] == q1;
    assert LineageId(q2, t2, s2)[..|q2|] == q2;
  }

  /** `create_evolved_question_dict`: the lineage fields and the question are
      copied, no critic feedback yet; the id is `LineageId`. */
  function CreateEvolvedQuestion(questionId: string, evolutionType: string, evolvedQuestion: string,
                                 suffix: string): (r: EvolvedQuestion)
    ensures r.originalQuestionId == questionId && r.evolutionType == evolutionType
    ensures r.evolvedQuestion == evolvedQuestion && r.criticFeedback == None
  {
    EvolvedQuestion(LineageId(questionId, evolutionType, suffix), questionId, evolvedQuestion, evolutionType, None)
  }

  /** The id of a created entry contains the technique name and, with an
      eight-character suffix, reads back to (question id, technique, suffix). */
  lemma EvolvedQuestionId(questionId: string, evolutionType: string, evolvedQuestion: string, suffix: string)
    ensures var r := CreateEvolvedQuestion(questionId, evolutionType, evolvedQuestion, suffix);
            && IsSubstring(evolutionType, r.id)
            && (|suffix| == 8 ==> SplitLineageId(r.id, |questionId|) == Some((questionId, evolutionType, suffix)))
  {
    var id := LineageId(questionId, evolutionType, suffix);
    assert id[|questionId| + 1..|questionId| + 1 + |evolutionType|] == evolutionType;
    if |suffix| == 8 {
      LineageRoundTrip(questionId, evolutionType, suffix);
    }
  }

  /** The question the `a`-th model call gives with technique `ti`: the stripped
      reply to the technique's template filled with the drawn document and no
      prior question. A call outside the techniques or the draws, which no run
      makes, gives nothing. */
  function Ask(documents: seq<Document>, techniques: seq<WeightedTechnique>, llm: (nat, Prompt) -> string,
               trace: seq<Draw>): (nat, nat) -> string
  {
    (ti: nat, a: nat) =>
      if ti < |techniques| && a < |trace| && trace[a].document < |documents|
      then ApplyEvolution("", documents[trace[a].document].pageContent, techniques[ti].template, llm, a)
      else ""
  }

  /** How many entries of `s` equal `t`. */
  function Tally(s: seq<nat>, t: nat): nat
  {
    if s == [] then 0 else Tally(s[..|s| - 1], t) + (if s[|s| - 1] == t then 1 else 0)
  }

  lemma TallySnoc(s: seq<nat>, x: nat, t: nat)
    ensures Tally(s + [x], t) == Tally(s, t) + (if x == t then 1 else 0)
  {
    assert (s + [x])[..|s|] == s;
  }

  /** The state of a run of `generate_evolved_questions`: the entries so far, the
      technique index of each entry (`kinds`), the technique index of each model
      call made (`ran`; its length is the number of calls) and whether the run
      stopped for lack of draws. */
  datatype Run = Run(evolved: seq<EvolvedQuestion>, kinds: seq<nat>, ran: seq<nat>, exhausted: bool)

  /** One attempt with technique `ti` on the next draw, given its question `q`: a
      non-blank question is kept with a fresh lineage id. */
  function Attempted(acc: Run, trace: seq<Draw>, techniques: seq<WeightedTechnique>, ti: nat, q: string): Run
    requires |acc.ran| < |trace| && ti < |techniques|
  {
    var d := trace[|acc.ran|];
    if q != "" then Run(acc.evolved + [CreateEvolvedQuestion(d.questionId, techniques[ti].name, q, d.suffix)],
                        acc.kinds + [ti], acc.ran + [ti], false)
    else Run(acc.evolved, acc.kinds, acc.ran + [ti], false)
  }

  /** The loops of `generate_evolved_questions` from technique `ti`, with `kept`
      questions already kept for it: the outer loop walks the techniques, the
      inner one calls the model until `cap` questions are kept, and the run
      returns as soon as `maxEvolvedQuestions` entries exist. When the draws run
      out the run stops with `exhausted`. */
  function Evolve(techniques: seq<WeightedTechnique>, ask: (nat, nat) -> string, maxEvolvedQuestions: int,
                  cap: nat, trace: seq<Draw>, ti: nat, kept: nat, acc: Run): Run
    requires |acc.ran| <= |trace| && ti <= |techniques|
    decreases |techniques| - ti, |trace| - |acc.ran|
  {
    if ti == |techniques| then acc
    else if kept >= cap then Evolve(techniques, ask, maxEvolvedQuestions, cap, trace, ti + 1, 0, acc)
    else if |acc.ran| == |trace| then acc.(exhausted := true)
    else
      var q := ask(ti, |acc.ran|);
      var next := Attempted(acc, trace, techniques, ti, q);
      if |next.evolved| >= maxEvolvedQuestions then next
      else Evolve(techniques, ask, maxEvolvedQuestions, cap, trace, ti, if q != "" then kept + 1 else kept, next)
  }

  /** The whole run from no entries and no calls. */
  function EvolutionRun(documents: seq<Document>, techniques: seq<WeightedTechnique>, llm: (nat, Prompt) -> string,
                        maxEvolvedQuestions: int, maxEvolutionsPerTechnique: int, trace: seq<Draw>): Run
  {
    Evolve(techniques, Ask(documents, techniques, llm, trace), maxEvolvedQuestions, Max0(maxEvolutionsPerTechnique),
           trace, 0, 0, Run([], [], [], false))
  }

  /** Every call ran an existing technique (stated call by call, from the last). */
  predicate RanWithin(ran: seq<nat>, techniqueCount: nat)
  {
    ran == [] || (RanWithin(ran[..|ran| - 1], techniqueCount) && ran[|ran| - 1] < techniqueCount)
  }

  /** The calls went technique by technique, in list order. */
  predicate Sorted(ran: seq<nat>)
  {
    forall a, b :: 0 <= a < b < |ran| ==> ran[a] <= ran[b]
  }

  /** What a sequence of calls keeps: call `a`, made with technique `ran[a]` on
      draw `trace[a]`, contributes its question when it is non-blank. */
  function Replay(techniques: seq<WeightedTechnique>, ask: (nat, nat) -> string, trace: seq<Draw>,
                  ran: seq<nat>): (r: Run)
    requires |ran| <= |trace| && RanWithin(ran, |techniques|)
    ensures r.ran == ran && !r.exhausted && |r.kinds| == |r.evolved|
  {
    if ran == [] then Run([], [], [], false)
    else
      var n := |ran| - 1;
      var prev := Replay(techniques, ask, trace, ran[..n]);
      assert ran[..n] + [ran[n]] == ran;
      Attempted(prev, trace, techniques, ran[n], ask(ran[n], n))
  }

  /** Entry `e` of technique `kind` is what some call `c` of that technique
      answered, created with that call's draw. */
  predicate AnsweredBy(e: EvolvedQuestion, kind: nat, techniques: seq<WeightedTechnique>,
                       ask: (nat, nat) -> string, trace: seq<Draw>, ran: seq<nat>)
  {
    exists c :: 0 <= c < |ran| && c < |trace| && ran[c] == kind && kind < |techniques|
      && e == CreateEvolvedQuestion(trace[c].questionId, techniques[kind].name, ask(kind, c), trace[c].suffix)
  }

  /** A call that answered an entry within the first `n` calls still does. */
  lemma AnsweredByPrefix(e: EvolvedQuestion, kind: nat, techniques: seq<WeightedTechnique>,
                         ask: (nat, nat) -> string, trace: seq<Draw>, ran: seq<nat>, n: nat)
    requires n <= |ran| && AnsweredBy(e, kind, techniques, ask, trace, ran[..n])
    ensures AnsweredBy(e, kind, techniques, ask, trace, ran)
  {
    var c :| 0 <= c < n && c < |trace| && ran[..n][c] == kind && kind < |techniques|
      && e == CreateEvolvedQuestion(trace[c].questionId, techniques[kind].name, ask(kind, c), trace[c].suffix);
    assert ran[c] == kind;
  }

  /** Each entry of `r` is a non-blank answer of one of the calls `ran`, with
      its technique's name as its type. */
  ghost predicate EntriesAnswered(r: Run, techniques: seq<WeightedTechnique>, ask: (nat, nat) -> string,
                                  trace: seq<Draw>, ran: seq<nat>)
  {
    && |r.kinds| == |r.evolved|
    && forall i :: 0 <= i < |r.evolved| ==>
         && r.kinds[i] < |techniques|
         && r.evolved[i].evolutionType == techniques[r.kinds[i]].name
         && r.evolved[i].evolvedQuestion != ""
         && AnsweredBy(r.evolved[i], r.kinds[i], techniques, ask, trace, ran)
  }

  /** What a sequence of calls keeps are non-blank answers of those calls. */
  lemma {:induction false} ReplayEntries(techniques: seq<WeightedTechnique>, ask: (nat, nat) -> string,
                                         trace: seq<Draw>, ran: seq<nat>)
    requires |ran| <= |trace| && RanWithin(ran, |techniques|)
    ensures EntriesAnswered(Replay(techniques, ask, trace, ran), techniques, ask, trace, ran)
  {
    if ran != [] {
      var n := |ran| - 1;
      var prev := Replay(techniques, ask, trace, ran[..n]);
      ReplayEntries(techniques, ask, trace, ran[..n]);
      assert EntriesAnswered(prev, techniques, ask, trace, ran[..n]);
      var r := Replay(techniques, ask, trace, ran);
      var q := ask(ran[n], n);
      assert r == Attempted(prev, trace, techniques, ran[n], q);
      forall i | 0 <= i < |r.evolved|
        ensures r.kinds[i] < |techniques|
        ensures r.evolved[i].evolutionType == techniques[r.kinds[i]].name
        ensures r.evolved[i].evolvedQuestion != ""
        ensures AnsweredBy(r.evolved[i], r.kinds[i], techniques, ask, trace, ran)
      {
        if i < |prev.evolved| {
          assert r.evolved[i] == prev.evolved[i] && r.kinds[i] == prev.kinds[i];
          AnsweredByPrefix(prev.evolved[i], prev.kinds[i], techniques, ask, trace, ran, n);
        } else {
          assert q != "" && r.kinds[i] == ran[n] && ran[n] < |techniques|;
          assert r.evolved[i] == CreateEvolvedQuestion(trace[n].questionId, techniques[ran[n]].name, q, trace[n].suffix);
        }
      }
    }
  }

  /** With fresh question ids in the draws, the entries a sequence of calls
      keeps have pairwise distinct ids: each comes from its own call. */
  lemma {:induction false} ReplayIdsDistinct(techniques: seq<WeightedTechnique>, ask: (nat, nat) -> string,
                                             trace: seq<Draw>, ran: seq<nat>)
    requires |ran| <= |trace| && RanWithin(ran, |techniques|) && FreshIds(trace)
    ensures DistinctIds(Replay(techniques, ask, trace, ran).evolved)
  {
    if ran != [] {
      var n := |ran| - 1;
      var prev := Replay(techniques, ask, trace, ran[..n]);
      ReplayIdsDistinct(techniques, ask, trace, ran[..n]);
      ReplayEntries(techniques, ask, trace, ran[..n]);
      var q := ask(ran[n], n);
      var r := Replay(techniques, ask, trace, ran);
      assert r == Attempted(prev, trace, techniques, ran[n], q);
      if q != "" {
        var e := r.evolved[|prev.evolved|];
        assert e.id == LineageId(trace[n].questionId, techniques[ran[n]].name, trace[n].suffix);
        forall i | 0 <= i < |prev.evolved|
          ensures prev.evolved[i].id != e.id
        {
          var kind := prev.kinds[i];
          assert AnsweredBy(prev.evolved[i], kind, techniques, ask, trace, ran[..n]);
          var c :| 0 <= c < n && c < |trace| && ran[..n][c] == kind && kind < |techniques|
            && prev.evolved[i] == CreateEvolvedQuestion(trace[c].questionId, techniques[kind].name, ask(kind, c), trace[c].suffix);
          LineageIdsDistinct(trace[c].questionId, techniques[kind].name, trace[c].suffix,
                             trace[n].questionId, techniques[ran[n]].name, trace[n].suffix);
        }
      }
    }
  }

  /** The run is exactly what its own calls keep: its entries and their
      techniques are those of `Replay` on the techniques it called. */
  lemma {:induction false} EvolveReplays(techniques: seq<WeightedTechnique>, ask: (nat, nat) -> string,
                                         maxEvolvedQuestions: int, cap: nat, trace: seq<Draw>,
                                         ti: nat, kept: nat, acc: Run)
    requires |acc.ran| <= |trace| && ti <= |techniques|
    requires RanWithin(acc.ran, |techniques|) && acc == Replay(techniques, ask, trace, acc.ran)
    ensures var r := Evolve(techniques, ask, maxEvolvedQuestions, cap, trace, ti, kept, acc);
            && |r.ran| <= |trace| && RanWithin(r.ran, |techniques|)
            && r.(exhausted := false) == Replay(techniques, ask, trace, r.ran)
    decreases |techniques| - ti, |trace| - |acc.ran|
  {
    if ti == |techniques| {
    } else if kept >= cap {
      EvolveReplays(techniques, ask, maxEvolvedQuestions, cap, trace, ti + 1, 0, acc);
    } else if |acc.ran| == |trace| {
    } else {
      var q := ask(ti, |acc.ran|);
      var next := Attempted(acc, trace, techniques, ti, q);
      assert next.ran == acc.ran + [ti] && next.ran[..|acc.ran|] == acc.ran;
      if |next.evolved| < maxEvolvedQuestions {
        EvolveReplays(techniques, ask, maxEvolvedQuestions, cap, trace, ti,
                      if q != "" then kept + 1 else kept, next);
      }
    }
  }

  /** The calls go technique by technique in list order. */
  lemma {:induction false} EvolveInOrder(techniques: seq<WeightedTechnique>, ask: (nat, nat) -> string,
                                         maxEvolvedQuestions: int, cap: nat, trace: seq<Draw>,
                                         ti: nat, kept: nat, acc: Run)
    requires |acc.ran| <= |trace| && ti <= |techniques|
    requires Sorted(acc.ran) && forall a :: 0 <= a < |acc.ran| ==> acc.ran[a] <= ti
    ensures Sorted(Evolve(techniques, ask, maxEvolvedQuestions, cap, trace, ti, kept, acc).ran)
    decreases |techniques| - ti, |trace| - |acc.ran|
  {
    if ti == |techniques| {
    } else if kept >= cap {
      EvolveInOrder(techniques, ask, maxEvolvedQuestions, cap, trace, ti + 1, 0, acc);
    } else if |acc.ran| == |trace| {
    } else {
      var q := ask(ti, |acc.ran|);
      var next := Attempted(acc, trace, techniques, ti, q);
      assert next.ran == acc.ran + [ti];
      if |next.evolved| < maxEvolvedQuestions {
        EvolveInOrder(techniques, ask, maxEvolvedQuestions, cap, trace, ti,
                      if q != "" then kept + 1 else kept, next);
      }
    }
  }

  /** After full rounds over the techniques before `ti` and `kept` entries of
      technique `ti`, each technique has `cap`, `kept` or no entries. */
  ghost predicate CountsSoFar(kinds: seq<nat>, ti: nat, kept: nat, cap: nat)
  {
    forall t: nat :: Tally(kinds, t) == if t < ti then cap else if t == ti then kept else 0
  }

  /** Per technique at most `cap` entries are kept; a run that neither ran out of
      draws nor reached `maxEvolvedQuestions` kept exactly `cap` for every technique. */
  lemma {:induction false} EvolveCaps(techniques: seq<WeightedTechnique>, ask: (nat, nat) -> string,
                                      maxEvolvedQuestions: int, cap: nat, trace: seq<Draw>,
                                      ti: nat, kept: nat, acc: Run)
    requires |acc.ran| <= |trace| && ti <= |techniques|
    requires CountsSoFar(acc.kinds, ti, kept, cap) && kept <= cap && !acc.exhausted
    requires ti == |techniques| ==> kept == 0
    ensures var r := Evolve(techniques, ask, maxEvolvedQuestions, cap, trace, ti, kept, acc);
            && (forall t: nat :: Tally(r.kinds, t) <= cap)
            && (!r.exhausted && |r.evolved| < maxEvolvedQuestions ==>
                  forall t: nat :: t < |techniques| ==> Tally(r.kinds, t) == cap)
    decreases |techniques| - ti, |trace| - |acc.ran|
  {
    if ti == |techniques| {
    } else if kept >= cap {
      EvolveCaps(techniques, ask, maxEvolvedQuestions, cap, trace, ti + 1, 0, acc);
    } else if |acc.ran| == |trace| {
    } else {
      var q := ask(ti, |acc.ran|);
      var next := Attempted(acc, trace, techniques, ti, q);
      var kept' := if q != "" then kept + 1 else kept;
      forall t: nat
        ensures Tally(next.kinds, t) == if t < ti then cap else if t == ti then kept' else 0
      {
        if q != "" {
          TallySnoc(acc.kinds, ti, t);
        }
      }
      if |next.evolved| < maxEvolvedQuestions {
        EvolveCaps(techniques, ask, maxEvolvedQuestions, cap, trace, ti, kept', next);
      }
    }
  }

  /** At most `maxEvolvedQuestions` entries, or one when that is below one: the
      run returns as soon as the count is reached. */
  lemma {:induction false} EvolveTotal(techniques: seq<WeightedTechnique>, ask: (nat, nat) -> string,
                                       maxEvolvedQuestions: int, cap: nat, trace: seq<Draw>,
                                       ti: nat, kept: nat, acc: Run)
    requires |acc.ran| <= |trace| && ti <= |techniques|
    requires |acc.evolved| < if maxEvolvedQuestions >= 1 then maxEvolvedQuestions else 1
    ensures |Evolve(techniques, ask, maxEvolvedQuestions, cap, trace, ti, kept, acc).evolved|
            <= if maxEvolvedQuestions >= 1 then maxEvolvedQuestions else 1
    decreases |techniques| - ti, |trace| - |acc.ran|
  {
    if ti == |techniques| {
    } else if kept >= cap {
      EvolveTotal(techniques, ask, maxEvolvedQuestions, cap, trace, ti + 1, 0, acc);
    } else if |acc.ran| == |trace| {
    } else {
      var q := ask(ti, |acc.ran|);
      var next := Attempted(acc, trace, techniques, ti, q);
      if |next.evolved| < maxEvolvedQuestions {
        EvolveTotal(techniques, ask, maxEvolvedQuestions, cap, trace, ti,
                    if q != "" then kept + 1 else kept, next);
      }
    }
  }

  /** A run marked exhausted used every draw; a run with a zero cap makes no call. */
  lemma {:induction false} EvolveEnds(techniques: seq<WeightedTechnique>, ask: (nat, nat) -> string,
                                      maxEvolvedQuestions: int, cap: nat, trace: seq<Draw>,
                                      ti: nat, kept: nat, acc: Run)
    requires |acc.ran| <= |trace| && ti <= |techniques|
    requires !acc.exhausted
    ensures var r := Evolve(techniques, ask, maxEvolvedQuestions, cap, trace, ti, kept, acc);
            && (r.exhausted ==> |r.ran| == |trace|)
            && (cap == 0 ==> r == acc)
    decreases |techniques| - ti, |trace| - |acc.ran|
  {
    if ti == |techniques| {
    } else if kept >= cap {
      EvolveEnds(techniques, ask, maxEvolvedQuestions, cap, trace, ti + 1, 0, acc);
    } else if |acc.ran| == |trace| {
    } else {
      var q := ask(ti, |acc.ran|);
      var next := Attempted(acc, trace, techniques, ti, q);
      if |next.evolved| < maxEvolvedQuestions {
        EvolveEnds(techniques, ask, maxEvolvedQuestions, cap, trace, ti,
                   if q != "" then kept + 1 else kept, next);
      }
    }
  }

  /** Whatever the model replies, the question a call gives has no whitespace at its ends. */
  lemma AskStripped(documents: seq<Document>, techniques: seq<WeightedTechnique>, llm: (nat, Prompt) -> string,
                    trace: seq<Draw>, ti: nat, a: nat)
    ensures IsStripped(Ask(documents, techniques, llm, trace)(ti, a))
  {
  }

  /** The calls of the whole run and what it keeps from them: at most one call
      per draw, technique by technique in list order, every entry a non-blank,
      stripped answer of one of those calls, typed by its technique. */
  lemma EvolutionRunEntries(documents: seq<Document>, techniques: seq<WeightedTechnique>,
                            llm: (nat, Prompt) -> string, maxEvolvedQuestions: int,
                            maxEvolutionsPerTechnique: int, trace: seq<Draw>)
    ensures var r := EvolutionRun(documents, techniques, llm, maxEvolvedQuestions, maxEvolutionsPerTechnique, trace);
            var ask := Ask(documents, techniques, llm, trace);
            && |r.ran| <= |trace| && RanWithin(r.ran, |techniques|) && Sorted(r.ran)
            && r.(exhausted := false) == Replay(techniques, ask, trace, r.ran)
            && EntriesAnswered(r, techniques, ask, trace, r.ran)
            && forall i :: 0 <= i < |r.evolved| ==> IsStripped(r.evolved[i].evolvedQuestion)
  {
    var r := EvolutionRun(documents, techniques, llm, maxEvolvedQuestions, maxEvolutionsPerTechnique, trace);
    var ask := Ask(documents, techniques, llm, trace);
    var cap := Max0(maxEvolutionsPerTechnique);
    var start := Run([], [], [], false);
    EvolveReplays(techniques, ask, maxEvolvedQuestions, cap, trace, 0, 0, start);
    EvolveInOrder(techniques, ask, maxEvolvedQuestions, cap, trace, 0, 0, start);
    ReplayEntries(techniques, ask, trace, r.ran);
    assert EntriesAnswered(r, techniques, ask, trace, r.ran);
    forall i | 0 <= i < |r.evolved|
      ensures IsStripped(r.evolved[i].evolvedQuestion)
    {
      var e, kind := r.evolved[i], r.kinds[i];
      assert AnsweredBy(e, kind, techniques, ask, trace, r.ran);
      var c :| 0 <= c < |r.ran| && c < |trace| && r.ran[c] == kind && kind < |techniques|
        && e == CreateEvolvedQuestion(trace[c].questionId, techniques[kind].name, ask(kind, c), trace[c].suffix);
      AskStripped(documents, techniques, llm, trace, kind, c);
    }
  }

  /** The caps of the whole run: at most `maxEvolutionsPerTechnique` entries per
      technique and exactly that many for each when the run neither ran out of
      draws nor reached `maxEvolvedQuestions`; at most `maxEvolvedQuestions`
      entries (one when that is below one); a run marked exhausted used every
      draw; with no evolutions per technique nothing is called or kept. */
  lemma EvolutionRunCaps(documents: seq<Document>, techniques: seq<WeightedTechnique>,
                         llm: (nat, Prompt) -> string, maxEvolvedQuestions: int,
                         maxEvolutionsPerTechnique: int, trace: seq<Draw>)
    ensures var r := EvolutionRun(documents, techniques, llm, maxEvolvedQuestions, maxEvolutionsPerTechnique, trace);
            var cap := Max0(maxEvolutionsPerTechnique);
            && (forall t: nat :: Tally(r.kinds, t) <= cap)
            && (!r.exhausted && |r.evolved| < maxEvolvedQuestions ==>
                  forall t: nat :: t < |techniques| ==> Tally(r.kinds, t) == cap)
            && |r.evolved| <= (if maxEvolvedQuestions >= 1 then maxEvolvedQuestions else 1)
            && (r.exhausted ==> |r.ran| == |trace|)
            && (cap == 0 ==> r == Run([], [], [], false))
  {
    var ask := Ask(documents, techniques, llm, trace);
    var cap := Max0(maxEvolutionsPerTechnique);
    var start := Run([], [], [], false);
    EvolveCaps(techniques, ask, maxEvolvedQuestions, cap, trace, 0, 0, start);
    EvolveTotal(techniques, ask, maxEvolvedQuestions, cap, trace, 0, 0, start);
    EvolveEnds(techniques, ask, maxEvolvedQuestions, cap, trace, 0, 0, start);
  }

  /** Calls made technique by technique keep entries grouped the same way:
      the technique indices of the kept entries never decrease. */
  lemma {:induction false} ReplayKindsSorted(techniques: seq<WeightedTechnique>, ask: (nat, nat) -> string,
                                             trace: seq<Draw>, ran: seq<nat>)
    requires |ran| <= |trace| && RanWithin(ran, |techniques|) && Sorted(ran)
    ensures Sorted(Replay(techniques, ask, trace, ran).kinds)
  {
    if ran != [] {
      var n := |ran| - 1;
      var prev := Replay(techniques, ask, trace, ran[..n]);
      assert Sorted(ran[..n]);
      ReplayKindsSorted(techniques, ask, trace, ran[..n]);
      ReplayEntries(techniques, ask, trace, ran[..n]);
      var q := ask(ran[n], n);
      var r := Replay(techniques, ask, trace, ran);
      assert r == Attempted(prev, trace, techniques, ran[n], q);
      if q != "" {
        forall i | 0 <= i < |prev.kinds|
          ensures prev.kinds[i] <= ran[n]
        {
          var kind := prev.kinds[i];
          assert AnsweredBy(prev.evolved[i], kind, techniques, ask, trace, ran[..n]);
          var c :| 0 <= c < n && c < |trace| && ran[..n][c] == kind && kind < |techniques|
            && prev.evolved[i] == CreateEvolvedQuestion(trace[c].questionId, techniques[kind].name, ask(kind, c), trace[c].suffix);
          assert ran[c] == kind;
        }
        assert r.kinds == prev.kinds + [ran[n]];
      }
    }
  }

  /** The entries of the whole run are grouped by technique, in registry
      order: entry `i` has the type of technique `kinds[i]`, and those indices
      never decrease. */
  lemma EvolutionRunGrouped(documents: seq<Document>, techniques: seq<WeightedTechnique>,
                            llm: (nat, Prompt) -> string, maxEvolvedQuestions: int,
                            maxEvolutionsPerTechnique: int, trace: seq<Draw>)
    ensures var r := EvolutionRun(documents, techniques, llm, maxEvolvedQuestions, maxEvolutionsPerTechnique, trace);
            && |r.kinds| == |r.evolved|
            && (forall i :: 0 <= i < |r.evolved| ==> r.kinds[i] < |techniques| && r.evolved[i].evolutionType == techniques[r.kinds[i]].name)
            && Sorted(r.kinds)
  {
    var r := EvolutionRun(documents, techniques, llm, maxEvolvedQuestions, maxEvolutionsPerTechnique, trace);
    var ask := Ask(documents, techniques, llm, trace);
    EvolutionRunEntries(documents, techniques, llm, maxEvolvedQuestions, maxEvolutionsPerTechnique, trace);
    assert r.kinds == Replay(techniques, ask, trace, r.ran).kinds;
    ReplayKindsSorted(techniques, ask, trace, r.ran);
  }

  /** With fresh question ids in the draws, the entries of the whole run have
      pairwise distinct ids. */
  lemma EvolutionRunIdsDistinct(documents: seq<Document>, techniques: seq<WeightedTechnique>,
                                llm: (nat, Prompt) -> string, maxEvolvedQuestions: int,
                                maxEvolutionsPerTechnique: int, trace: seq<Draw>)
    requires FreshIds(trace)
    ensures DistinctIds(EvolutionRun(documents, techniques, llm, maxEvolvedQuestions, maxEvolutionsPerTechnique, trace).evolved)
  {
    var r := EvolutionRun(documents, techniques, llm, maxEvolvedQuestions, maxEvolutionsPerTechnique, trace);
    var ask := Ask(documents, techniques, llm, trace);
    EvolutionRunEntries(documents, techniques, llm, maxEvolvedQuestions, maxEvolutionsPerTechnique, trace);
    assert r.evolved == Replay(techniques, ask, trace, r.ran).evolved;
    ReplayIdsDistinct(techniques, ask, trace, r.ran);
  }

  /** `generate_evolved_questions`, with the supplied draws standing for
      `random.choice` and `uuid4()`. */
  method GenerateEvolvedQuestions(documents: seq<Document>, techniques: seq<WeightedTechnique>,
                                  llm: (nat, Prompt) -> string,
                                  maxEvolvedQuestions: int, maxEvolutionsPerTechnique: int,
                                  trace: seq<Draw>)
    returns (evolved: seq<EvolvedQuestion>, exhausted: bool)
    requires DrawsWithin(trace, |documents|)
    ensures evolved == EvolutionRun(documents, techniques, llm, maxEvolvedQuestions, maxEvolutionsPerTechnique, trace).evolved
    ensures exhausted == EvolutionRun(documents, techniques, llm, maxEvolvedQuestions, maxEvolutionsPerTechnique, trace).exhausted
  {
    ghost var ask := Ask(documents, techniques, llm, trace);
    ghost var r := EvolutionRun(documents, techniques, llm, maxEvolvedQuestions, maxEvolutionsPerTechnique, trace);
    var cap := Max0(maxEvolutionsPerTechnique);
    evolved, exhausted := [], false;
    ghost var acc := Run([], [], [], false);
    var attempt := 0;
    var ti := 0;
    while ti < |techniques|
      invariant ti <= |techniques| && attempt == |acc.ran| <= |trace|
      invariant acc.evolved == evolved && !acc.exhausted
      invariant Evolve(techniques, ask, maxEvolvedQuestions, cap, trace, ti, 0, acc) == r
    {
      var evolutions := 0;
      while evolutions < maxEvolutionsPerTechnique
        invariant attempt == |acc.ran| <= |trace|
        invariant acc.evolved == evolved && !acc.exhausted && 0 <= evolutions <= cap
        invariant Evolve(techniques, ask, maxEvolvedQuestions, cap, trace, ti, evolutions, acc) == r
        decreases |trace| - attempt
      {
        if attempt == |trace| {
          exhausted := true;
          return;
        }
        var draw := trace[attempt];
        var question := ApplyEvolution("", documents[draw.document].pageContent, techniques[ti].template,
                                       llm, attempt);
        assert question == ask(ti, attempt);
        acc := Attempted(acc, trace, techniques, ti, question);
        if question != "" {
          evolved := evolved + [CreateEvolvedQuestion(draw.questionId, techniques[ti].name, question, draw.suffix)];
          evolutions := evolutions + 1;
        }
        attempt := attempt + 1;
        if |evolved| >= maxEvolvedQuestions {
          return;
        }
      }
      ti := ti + 1;
    }
  }

  /** `evolution_agent`: an empty (or missing) document list is a `ValueError`;
      otherwise the evolved questions of the run replace `evolved_questions` and
      nothing else in the state changes. `exhausted` reports a run that used up
      the supplied draws before its loops ended. */
  method EvolutionAgent(state: QAState, llm: (nat, Prompt) -> string, techniques: seq<WeightedTechnique>,
                        maxEvolvedQuestions: int, maxEvolutionsPerQuestion: int, trace: seq<Draw>)
    returns (r: Result<QAState>, exhausted: bool)
    requires DrawsWithin(trace, |state.Documents()|)
    ensures r.Err? <==> state.Documents() == []
    ensures r.Err? ==> r.error == ValueError(NoDocumentsMessage) && !exhausted
    ensures r.Ok? ==>
              var run := EvolutionRun(state.Documents(), techniques, llm, maxEvolvedQuestions,
                                      maxEvolutionsPerQuestion, trace);
              r.value == state.(evolvedQuestions := Some(run.evolved)) && exhausted == run.exhausted
  {
    var documents := state.Documents();
    if documents == [] {
      return Err(ValueError(NoDocumentsMessage)), false;
    }
    var evolved;
    evolved, exhausted := GenerateEvolvedQuestions(documents, techniques, llm, maxEvolvedQuestions,
                                                   maxEvolutionsPerQuestion, trace);
    r := Ok(state.(evolvedQuestions := Some(evolved)));
  }
}
