/** The shared record threaded through the stages (the `QAState` typed dict)
    and the per-item records the stages build. */
module State {
  import opened Wrappers

  /** A critic verdict as parsed from the model's JSON reply: key to score. */
  type Feedback = map<string, int>

  /** Stands for a model or embedding-model object held in the state. Only its
      presence is observable here; what it replies is an oracle parameter of the
      stage that calls it. */
  datatype ModelRef = ModelRef(name: string)

  /** A loaded page; the stages read only its text. */
  datatype Document = Document(pageContent: string)

  /** A seed question made by `generate_initial_questions`. */
  datatype InitialQuestion = InitialQuestion(id: string, question: string, context: string)

  /** An evolved question; `criticFeedback` is attached by the critic when it accepts it. */
  datatype EvolvedQuestion = EvolvedQuestion(
    id: string,
    originalQuestionId: string,
    evolvedQuestion: string,
    evolutionType: string,
    criticFeedback: Option<Feedback>)

  /** The ids of the evolved questions are pairwise distinct. */
  predicate DistinctIds(evolved: seq<EvolvedQuestion>)
  {
    forall i, j :: 0 <= i < j < |evolved| ==> evolved[i].id != evolved[j].id
  }

  /** Retrieved passages for one evolved question. */
  datatype ContextRecord = ContextRecord(id: string, question: string, contexts: seq<string>)

  /** One generated (or fallback) answer. */
  datatype Answer = Answer(id: string, question: string, answer: string, context: string)

  /** One exported row: a left join of an evolved question with its answer and passages. */
  datatype FinalRecord = FinalRecord(
    id: string,
    evolutionType: string,
    answer: Option<string>,
    contexts: Option<seq<string>>,
    evolvedQuestion: string)

  /** The pipeline state. `None` is a missing key. `validatedQuestions` is not a
      declared key of the typed dict, but the critic writes it. */
  datatype QAState = QAState(
    pdfPath: Option<string>,
    embeddingModel: Option<ModelRef>,
    model: Option<ModelRef>,
    criticModel: Option<ModelRef>,
    documents: Option<seq<Document>>,
    documentEmbeddings: Option<seq<seq<real>>>,
    questions: Option<seq<InitialQuestion>>,
    evolvedQuestions: Option<seq<EvolvedQuestion>>,
    validatedQuestions: Option<seq<EvolvedQuestion>>,
    answers: Option<seq<Answer>>,
    contexts: Option<seq<ContextRecord>>,
    finalOutput: Option<seq<FinalRecord>>,
    maxEvolvedQuestions: Option<int>,
    maxEvolutionsPerTechnique: Option<int>)
  {
    /** `state.get("documents", [])` */
    function Documents(): seq<Document> { documents.GetOr([]) }
    /** `state.get("document_embeddings", [])` */
    function DocumentEmbeddings(): seq<seq<real>> { documentEmbeddings.GetOr([]) }
    /** `state.get("evolved_questions", [])` */
    function EvolvedQuestions(): seq<EvolvedQuestion> { evolvedQuestions.GetOr([]) }
    /** `state.get("answers", [])` */
    function Answers(): seq<Answer> { answers.GetOr([]) }
    /** `state.get("contexts", [])` */
    function Contexts(): seq<ContextRecord> { contexts.GetOr([]) }
  }

  /** The message both question stages raise on an empty corpus. */
  const NoDocumentsMessage := "No documents found in the state to generate questions from."
}
