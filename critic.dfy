/** The critic stage: the critic model scores each evolved question on two
    rubrics, questions whose total reaches the threshold are annotated with
    their feedback and kept, and the stage stops once enough are kept. */
module QuestionCritic {
  import opened Wrappers
  import opened State

  const IndependenceKey := "Independence"
  const ClearIntentKey := "Clear Intent"

  /** What the critic chain gives for one question: the JSON object the output
      parser read from the reply, or a reply the parser could not read. */
  datatype CriticReply = Parsed(feedback: Feedback) | Unparseable

  /** Both rubric keys are present. */
  predicate HasRubrics(f: Feedback)
  {
    IndependenceKey in f && ClearIntentKey in f
  }

  /** The fallback verdict for a reply without both keys. */
  const ZeroFeedback: Feedback := map[IndependenceKey := 0, ClearIntentKey := 0]

  /** `validate_question`: a reply with both keys is kept whole (extra keys
      included), one missing a key becomes zero on both rubrics, and a reply
      the parser cannot read is an error: the parse happens before the `try`,
      so nothing catches it. */
  function ValidateQuestion(reply: CriticReply): (r: Result<Feedback>)
    ensures r.Err? <==> reply.Unparseable?
    ensures r.Err? ==> r.error == OutputParserError
    ensures r.Ok? ==> HasRubrics(r.value)
    ensures r.Ok? && HasRubrics(reply.feedback) ==> r.value == reply.feedback
    ensures r.Ok? && !HasRubrics(reply.feedback) ==> r.value == ZeroFeedback
  {
    match reply
    case Unparseable => Err(OutputParserError)
    case Parsed(f) => if HasRubrics(f) then Ok(f) else Ok(ZeroFeedback)
  }

  /** `feedback["Independence"] + feedback["Clear Intent"]`. */
  function TotalScore(f: Feedback): int
    requires HasRubrics(f)
  {
    f[IndependenceKey] + f[ClearIntentKey]
  }

  /** A reply missing a rubric scores zero, so any positive threshold rejects it. */
  lemma MissingRubricScoresZero(f: Feedback, threshold: int)
    requires !HasRubrics(f) && threshold >= 1
    ensures var v := ValidateQuestion(Parsed(f));
            v.Ok? && TotalScore(v.value) == 0 && TotalScore(v.value) < threshold
  {
  }

  /** The verdict on entry `i`, asked as the `i`-th critic call with its question text. */
  function Verdict(evolved: seq<EvolvedQuestion>, critic: (nat, string) -> CriticReply, i: nat): Result<Feedback>
    requires i < |evolved|
  {
    ValidateQuestion(critic(i, evolved[i].evolvedQuestion))
  }

  /** Entry `i` parsed and reached the threshold. */
  predicate Accepted(evolved: seq<EvolvedQuestion>, critic: (nat, string) -> CriticReply, threshold: int, i: nat)
    requires i < |evolved|
  {
    var v := Verdict(evolved, critic, i);
    v.Ok? && TotalScore(v.value) >= threshold
  }

  /** Entry `i` with its verdict attached as `critic_feedback`. */
  function Annotate(evolved: seq<EvolvedQuestion>, critic: (nat, string) -> CriticReply, i: nat): (e: EvolvedQuestion)
    requires i < |evolved| && Verdict(evolved, critic, i).Ok?
    ensures e.id == evolved[i].id && e.evolvedQuestion == evolved[i].evolvedQuestion
    ensures e.originalQuestionId == evolved[i].originalQuestionId && e.evolutionType == evolved[i].evolutionType
    ensures e.criticFeedback == Some(Verdict(evolved, critic, i).value)
  {
    evolved[i].(criticFeedback := Some(Verdict(evolved, critic, i).value))
  }

  /** The annotated accepted entries among the first `n`, in list order. */
  function AcceptedUpTo(evolved: seq<EvolvedQuestion>, critic: (nat, string) -> CriticReply, threshold: int,
                        n: nat): (r: seq<EvolvedQuestion>)
    requires n <= |evolved|
    ensures |r| <= n
  {
    if n == 0 then []
    else
      var prev := AcceptedUpTo(evolved, critic, threshold, n - 1);
      if Accepted(evolved, critic, threshold, n - 1) then prev + [Annotate(evolved, critic, n - 1)] else prev
  }

  /** The indices of the accepted entries among the first `n`. */
  function AcceptedIndices(evolved: seq<EvolvedQuestion>, critic: (nat, string) -> CriticReply, threshold: int,
                           n: nat): seq<nat>
    requires n <= |evolved|
  {
    if n == 0 then []
    else
      var prev := AcceptedIndices(evolved, critic, threshold, n - 1);
      if Accepted(evolved, critic, threshold, n - 1) then prev + [n - 1] else prev
  }

  /** The entry list after the first `n` verdicts: the accepted ones annotated in
      place, every other entry as it was. */
  function AnnotatedUpTo(evolved: seq<EvolvedQuestion>, critic: (nat, string) -> CriticReply, threshold: int,
                         n: nat): (r: seq<EvolvedQuestion>)
    requires n <= |evolved|
    ensures |r| == |evolved|
  {
    if n == 0 then evolved
    else
      var prev := AnnotatedUpTo(evolved, critic, threshold, n - 1);
      if Accepted(evolved, critic, threshold, n - 1) then prev[n - 1 := Annotate(evolved, critic, n - 1)] else prev
  }

  /** The `k`-th kept entry among the first `n` is entry `AcceptedIndices[k]`,
      accepted and annotated. */
  lemma {:induction false} AcceptedKept(evolved: seq<EvolvedQuestion>, critic: (nat, string) -> CriticReply,
                                        threshold: int, n: nat)
    requires n <= |evolved|
    ensures |AcceptedIndices(evolved, critic, threshold, n)| == |AcceptedUpTo(evolved, critic, threshold, n)|
    ensures forall k :: 0 <= k < |AcceptedIndices(evolved, critic, threshold, n)| ==>
              && AcceptedIndices(evolved, critic, threshold, n)[k] < n
              && Accepted(evolved, critic, threshold, AcceptedIndices(evolved, critic, threshold, n)[k])
              && AcceptedUpTo(evolved, critic, threshold, n)[k]
                 == Annotate(evolved, critic, AcceptedIndices(evolved, critic, threshold, n)[k])
  {
    if n > 0 {
      AcceptedKept(evolved, critic, threshold, n - 1);
    }
  }

  /** The kept entries keep the list order: their indices rise. */
  lemma {:induction false} AcceptedInOrder(evolved: seq<EvolvedQuestion>, critic: (nat, string) -> CriticReply,
                                           threshold: int, n: nat)
    requires n <= |evolved|
    ensures forall k :: 0 <= k < |AcceptedIndices(evolved, critic, threshold, n)| ==>
              AcceptedIndices(evolved, critic, threshold, n)[k] < n
    ensures forall k, l :: 0 <= k < l < |AcceptedIndices(evolved, critic, threshold, n)| ==>
              AcceptedIndices(evolved, critic, threshold, n)[k] < AcceptedIndices(evolved, critic, threshold, n)[l]
  {
    if n > 0 {
      AcceptedInOrder(evolved, critic, threshold, n - 1);
    }
  }

  /** No accepted entry among the first `n` is left out. */
  lemma {:induction false} AcceptedComplete(evolved: seq<EvolvedQuestion>, critic: (nat, string) -> CriticReply,
                                            threshold: int, n: nat)
    requires n <= |evolved|
    ensures forall i :: 0 <= i < n && Accepted(evolved, critic, threshold, i) ==>
              i in AcceptedIndices(evolved, critic, threshold, n)
  {
    if n > 0 {
      AcceptedComplete(evolved, critic, threshold, n - 1);
    }
  }

  /** Entry `i` after the first `n` verdicts is annotated exactly when it is one
      of them and was accepted. */
  lemma {:induction false} AnnotatedUpToMeaning(evolved: seq<EvolvedQuestion>, critic: (nat, string) -> CriticReply,
                                                threshold: int, n: nat, i: nat)
    requires n <= |evolved| && i < |evolved|
    ensures AnnotatedUpTo(evolved, critic, threshold, n)[i]
            == if i < n && Accepted(evolved, critic, threshold, i) then Annotate(evolved, critic, i) else evolved[i]
  {
    if n > 0 {
      AnnotatedUpToMeaning(evolved, critic, threshold, n - 1, i);
    }
  }

  /** The outcome of the critic loop: the entry list with the accepted entries
      annotated, the kept entries, and how many entries were judged. */
  datatype Review = Review(annotated: seq<EvolvedQuestion>, validated: seq<EvolvedQuestion>, calls: nat)

  /** The loop of `critic_agent` from entry `j`: judge the entry, keep it when
      its total reaches the threshold, and stop once `maxValidated` are kept
      (checked after every entry, kept or not). An unreadable reply ends the
      stage with its error. */
  function Critique(evolved: seq<EvolvedQuestion>, critic: (nat, string) -> CriticReply, threshold: int,
                    maxValidated: int, j: nat, annotated: seq<EvolvedQuestion>, validated: seq<EvolvedQuestion>)
    : Result<Review>
    requires j <= |evolved| && |annotated| == |evolved|
    decreases |evolved| - j
  {
    if j == |evolved| then Ok(Review(annotated, validated, j))
    else
      match Verdict(evolved, critic, j)
      case Err(e) => Err(e)
      case Ok(f) =>
        var q := evolved[j].(criticFeedback := Some(f));
        var accepted := TotalScore(f) >= threshold;
        var annotated' := if accepted then annotated[j := q] else annotated;
        var validated' := if accepted then validated + [q] else validated;
        if |validated'| >= maxValidated then Ok(Review(annotated', validated', j + 1))
        else Critique(evolved, critic, threshold, maxValidated, j + 1, annotated', validated')
  }

  /** The whole loop over the entries. */
  function CriticRun(evolved: seq<EvolvedQuestion>, critic: (nat, string) -> CriticReply, threshold: int,
                     maxValidated: int): Result<Review>
  {
    Critique(evolved, critic, threshold, maxValidated, 0, evolved, [])
  }

  /** Every one of the first `n` replies parsed. */
  predicate ParsedUpTo(evolved: seq<EvolvedQuestion>, critic: (nat, string) -> CriticReply, n: nat)
    requires n <= |evolved|
  {
    forall i :: 0 <= i < n ==> Verdict(evolved, critic, i).Ok?
  }

  /** After each of the first `n` judgements fewer than `maxValidated` entries
      were kept (stated judgement by judgement, from the last). */
  predicate BelowCapThrough(evolved: seq<EvolvedQuestion>, critic: (nat, string) -> CriticReply, threshold: int,
                            maxValidated: int, n: nat)
    requires n <= |evolved|
  {
    n == 0 || (BelowCapThrough(evolved, critic, threshold, maxValidated, n - 1)
               && |AcceptedUpTo(evolved, critic, threshold, n)| < maxValidated)
  }

  /** `BelowCapThrough` judgement by judgement. */
  lemma {:induction false} BelowCapAt(evolved: seq<EvolvedQuestion>, critic: (nat, string) -> CriticReply,
                                      threshold: int, maxValidated: int, n: nat, m: nat)
    requires n <= |evolved| && BelowCapThrough(evolved, critic, threshold, maxValidated, n) && 1 <= m <= n
    ensures |AcceptedUpTo(evolved, critic, threshold, m)| < maxValidated
    decreases n
  {
    if m < n {
      BelowCapAt(evolved, critic, threshold, maxValidated, n - 1, m);
    }
  }

  /** The loop fails only with the parser's error, and never when every reply parses. */
  lemma {:induction false} CritiqueErrors(evolved: seq<EvolvedQuestion>, critic: (nat, string) -> CriticReply,
                                          threshold: int, maxValidated: int, j: nat,
                                          annotated: seq<EvolvedQuestion>, validated: seq<EvolvedQuestion>)
    requires j <= |evolved| && |annotated| == |evolved|
    ensures var r := Critique(evolved, critic, threshold, maxValidated, j, annotated, validated);
            && (r.Err? ==> r.error == OutputParserError)
            && (ParsedUpTo(evolved, critic, |evolved|) ==> r.Ok?)
    decreases |evolved| - j
  {
    if j < |evolved| {
      var v := Verdict(evolved, critic, j);
      if v.Ok? {
        var f := v.value;
        var q := evolved[j].(criticFeedback := Some(f));
        var accepted := TotalScore(f) >= threshold;
        CritiqueErrors(evolved, critic, threshold, maxValidated, j + 1,
                       if accepted then annotated[j := q] else annotated,
                       if accepted then validated + [q] else validated);
      }
    }
  }

  /** What a successful loop from `j` returns: once `calls` entries are judged,
      the kept entries are those accepted among them and the entry list has
      exactly those annotated; the loop judged every entry unless the cap was
      reached. */
  lemma {:induction false} CritiqueMeaning(evolved: seq<EvolvedQuestion>, critic: (nat, string) -> CriticReply,
                                           threshold: int, maxValidated: int, j: nat,
                                           annotated: seq<EvolvedQuestion>, validated: seq<EvolvedQuestion>)
    requires j <= |evolved| && |annotated| == |evolved|
    requires annotated == AnnotatedUpTo(evolved, critic, threshold, j)
    requires validated == AcceptedUpTo(evolved, critic, threshold, j)
    requires ParsedUpTo(evolved, critic, j)
    ensures var r := Critique(evolved, critic, threshold, maxValidated, j, annotated, validated);
            r.Ok? ==>
              && j <= r.value.calls <= |evolved|
              && ParsedUpTo(evolved, critic, r.value.calls)
              && r.value.validated == AcceptedUpTo(evolved, critic, threshold, r.value.calls)
              && r.value.annotated == AnnotatedUpTo(evolved, critic, threshold, r.value.calls)
              && (r.value.calls < |evolved| ==> |r.value.validated| >= maxValidated)
    decreases |evolved| - j
  {
    if j < |evolved| {
      var v := Verdict(evolved, critic, j);
      if v.Ok? {
        var f := v.value;
        var q := evolved[j].(criticFeedback := Some(f));
        var accepted := TotalScore(f) >= threshold;
        assert accepted == Accepted(evolved, critic, threshold, j);
        var a' := if accepted then annotated[j := q] else annotated;
        var v' := if accepted then validated + [q] else validated;
        assert a' == AnnotatedUpTo(evolved, critic, threshold, j + 1);
        assert v' == AcceptedUpTo(evolved, critic, threshold, j + 1);
        assert ParsedUpTo(evolved, critic, j + 1);
        if |v'| < maxValidated {
          assert Critique(evolved, critic, threshold, maxValidated, j, annotated, validated)
              == Critique(evolved, critic, threshold, maxValidated, j + 1, a', v');
          CritiqueMeaning(evolved, critic, threshold, maxValidated, j + 1, a', v');
        } else {
          assert Critique(evolved, critic, threshold, maxValidated, j, annotated, validated)
              == Ok(Review(a', v', j + 1));
        }
      }
    }
  }

  /** The loop stops at the first judgement after which `maxValidated` entries
      are kept: before its last judgement the cap had never been reached. */
  lemma {:induction false} CritiqueStopsFirst(evolved: seq<EvolvedQuestion>, critic: (nat, string) -> CriticReply,
                                              threshold: int, maxValidated: int, j: nat,
                                              annotated: seq<EvolvedQuestion>, validated: seq<EvolvedQuestion>)
    requires j <= |evolved| && |annotated| == |evolved|
    requires validated == AcceptedUpTo(evolved, critic, threshold, j)
    requires BelowCapThrough(evolved, critic, threshold, maxValidated, j)
    ensures var r := Critique(evolved, critic, threshold, maxValidated, j, annotated, validated);
            r.Ok? ==> r.value.calls <= |evolved|
                      && (r.value.calls >= 1 ==> BelowCapThrough(evolved, critic, threshold, maxValidated, r.value.calls - 1))
    decreases |evolved| - j
  {
    var r := Critique(evolved, critic, threshold, maxValidated, j, annotated, validated);
    if j == |evolved| {
      assert r == Ok(Review(annotated, validated, j));
      if j >= 1 {
        assert BelowCapThrough(evolved, critic, threshold, maxValidated, j - 1);
      }
    } else {
      var v := Verdict(evolved, critic, j);
      if v.Ok? {
        var f := v.value;
        var q := evolved[j].(criticFeedback := Some(f));
        var accepted := TotalScore(f) >= threshold;
        assert accepted == Accepted(evolved, critic, threshold, j);
        var a' := if accepted then annotated[j := q] else annotated;
        var v' := if accepted then validated + [q] else validated;
        assert v' == AcceptedUpTo(evolved, critic, threshold, j + 1);
        if |v'| < maxValidated {
          assert BelowCapThrough(evolved, critic, threshold, maxValidated, j + 1);
          assert r == Critique(evolved, critic, threshold, maxValidated, j + 1, a', v');
          CritiqueStopsFirst(evolved, critic, threshold, maxValidated, j + 1, a', v');
        } else {
          assert r == Ok(Review(a', v', j + 1));
        }
      }
    }
  }


  /** At most `maxValidated` entries are kept, or one when that is below one. */
  lemma {:induction false} CritiqueCap(evolved: seq<EvolvedQuestion>, critic: (nat, string) -> CriticReply,
                                       threshold: int, maxValidated: int, j: nat,
                                       annotated: seq<EvolvedQuestion>, validated: seq<EvolvedQuestion>)
    requires j <= |evolved| && |annotated| == |evolved|
    requires |validated| < if maxValidated >= 1 then maxValidated else 1
    ensures var r := Critique(evolved, critic, threshold, maxValidated, j, annotated, validated);
            r.Ok? ==> |r.value.validated| <= if maxValidated >= 1 then maxValidated else 1
    decreases |evolved| - j
  {
    if j < |evolved| {
      var v := Verdict(evolved, critic, j);
      if v.Ok? {
        var f := v.value;
        var q := evolved[j].(criticFeedback := Some(f));
        var accepted := TotalScore(f) >= threshold;
        var v' := if accepted then validated + [q] else validated;
        if |v'| < maxValidated {
          CritiqueCap(evolved, critic, threshold, maxValidated, j + 1,
                      if accepted then annotated[j := q] else annotated, v');
        }
      }
    }
  }

  /** The whole critic loop: it fails only with the parser's error and never
      when every reply parses; a successful run judged the first `calls`
      entries, stopping early only at the first judgement that reached the cap;
      it kept exactly the accepted entries among them, annotated, in list
      order, annotated exactly those in the entry list, and kept at most
      `maxValidated` (one when that is below one). */
  lemma CriticRunMeaning(evolved: seq<EvolvedQuestion>, critic: (nat, string) -> CriticReply, threshold: int,
                         maxValidated: int)
    ensures var r := CriticRun(evolved, critic, threshold, maxValidated);
            && (r.Err? ==> r.error == OutputParserError)
            && (ParsedUpTo(evolved, critic, |evolved|) ==> r.Ok?)
            && (r.Ok? ==>
                  && r.value.calls <= |evolved|
                  && ParsedUpTo(evolved, critic, r.value.calls)
                  && r.value.validated == AcceptedUpTo(evolved, critic, threshold, r.value.calls)
                  && r.value.annotated == AnnotatedUpTo(evolved, critic, threshold, r.value.calls)
                  && (r.value.calls < |evolved| ==> |r.value.validated| >= maxValidated)
                  && (r.value.calls >= 1 ==> BelowCapThrough(evolved, critic, threshold, maxValidated, r.value.calls - 1))
                  && |r.value.validated| <= if maxValidated >= 1 then maxValidated else 1)
  {
    CritiqueErrors(evolved, critic, threshold, maxValidated, 0, evolved, []);
    CritiqueMeaning(evolved, critic, threshold, maxValidated, 0, evolved, []);
    CritiqueStopsFirst(evolved, critic, threshold, maxValidated, 0, evolved, []);
    CritiqueCap(evolved, critic, threshold, maxValidated, 0, evolved, []);
  }

  /** The critic keeps ids apart: a successful run annotates without touching
      ids, and keeps accepted entries in list order, each from its own
      position, so distinct ids stay distinct in both lists. */
  lemma CriticKeepsDistinctIds(evolved: seq<EvolvedQuestion>, critic: (nat, string) -> CriticReply, threshold: int,
                               maxValidated: int)
    requires DistinctIds(evolved)
    ensures var r := CriticRun(evolved, critic, threshold, maxValidated);
            r.Ok? ==> DistinctIds(r.value.annotated) && DistinctIds(r.value.validated)
  {
    var r := CriticRun(evolved, critic, threshold, maxValidated);
    CriticRunMeaning(evolved, critic, threshold, maxValidated);
    if r.Ok? {
      var n := r.value.calls;
      forall i | 0 <= i < |evolved|
        ensures r.value.annotated[i].id == evolved[i].id
      {
        AnnotatedUpToMeaning(evolved, critic, threshold, n, i);
      }
      AcceptedKept(evolved, critic, threshold, n);
      AcceptedInOrder(evolved, critic, threshold, n);
      var idx := AcceptedIndices(evolved, critic, threshold, n);
      assert forall k :: 0 <= k < |idx| ==> r.value.validated[k].id == evolved[idx[k]].id;
    }
  }

  /** `critic_agent`: judge the entries in order, keep the accepted ones with
      their feedback attached, stop once `maxValidated` are kept, and store the
      kept ones as `validated_questions`. The feedback is attached to the entry
      objects the state's `evolved_questions` list holds, so that list changes
      too; nothing else does. A missing `evolved_questions` stays missing. */
  method CriticAgent(state: QAState, critic: (nat, string) -> CriticReply, threshold: int, maxValidated: int)
    returns (r: Result<QAState>)
    ensures var run := CriticRun(state.EvolvedQuestions(), critic, threshold, maxValidated);
            && (r.Err? <==> run.Err?)
            && (r.Err? ==> r.error == run.error)
            && (r.Ok? ==> r.value == state.(evolvedQuestions := if state.evolvedQuestions.Some? then Some(run.value.annotated) else None,
                                            validatedQuestions := Some(run.value.validated)))
  {
    var evolved := state.EvolvedQuestions();
    ghost var run := CriticRun(evolved, critic, threshold, maxValidated);
    var annotated := evolved;
    var validated := [];
    var j := 0;
    while j < |evolved|
      invariant j <= |evolved| && |annotated| == |evolved|
      invariant Critique(evolved, critic, threshold, maxValidated, j, annotated, validated) == run
    {
      var feedback := ValidateQuestion(critic(j, evolved[j].evolvedQuestion));
      if feedback.Err? {
        return Err(feedback.error);
      }
      var f := feedback.value;
      if TotalScore(f) >= threshold {
        var q := evolved[j].(criticFeedback := Some(f));
        annotated := annotated[j := q];
        validated := validated + [q];
      }
      j := j + 1;
      if |validated| >= maxValidated {
        break;
      }
    }
    var evolvedAfter := if state.evolvedQuestions.Some? then Some(annotated) else None;
    r := Ok(state.(evolvedQuestions := evolvedAfter, validatedQuestions := Some(validated)));
  }
}
