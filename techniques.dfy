/** The registry of evolution techniques: an ordered list of (name, prompt
    template) pairs. Only the template's declared input variables matter here;
    the prompt wording and example library are not modelled. */
module Techniques {
  import opened Wrappers
  import opened Lookup

  /** A prompt template, reduced to the names of the inputs it declares. */
  datatype PromptTemplate = PromptTemplate(inputVariables: seq<string>)

  /** One registry entry. */
  datatype Technique = Technique(name: string, template: PromptTemplate)

  /** The technique as the evolution loop receives it: with its sampling weight
      attached. The loop never reads the weight. */
  datatype WeightedTechnique = WeightedTechnique(name: string, template: PromptTemplate, weight: real)

  /** The template asks for a prior question. */
  predicate DeclaresQuestion(t: PromptTemplate)
  {
    "question" in t.inputVariables
  }

  /** `create_evolution_prompt`: a template for question generation from scratch
      (`isInitial`) declares exactly context, instruction and examples; every other
      template also declares the question being evolved, first. The technique's
      name is used only for logging. */
  function CreateEvolutionPrompt(name: string, isInitial: bool): (t: PromptTemplate)
    ensures DeclaresQuestion(t) <==> !isInitial
    ensures isInitial ==> t.inputVariables == ["context", "instruction", "examples"]
    ensures !isInitial ==> t.inputVariables == ["question", "context", "instruction", "examples"]
  {
    if isInitial then PromptTemplate(["context", "instruction", "examples"])
    else PromptTemplate(["question", "context", "instruction", "examples"])
  }

  /** A registry entry whose tuple name is the name given to `create_evolution_prompt`. */
  function Entry(name: string, isInitial: bool): Technique
  {
    Technique(name, CreateEvolutionPrompt(name, isInitial))
  }

  /** The twelve techniques, in registry order. */
  const Registry: seq<Technique> := [
    Entry("simple_question", true),
    Entry("reasoning_question", false),
    Entry("multi_context_question", false),
    Entry("conversational_question", false),
    Entry("contextual_question", false),
    Entry("counterfactual_question", false),
    Entry("temporal_reasoning_question", false),
    Entry("multi_step_logical_deduction", false),
    Entry("hypothetical_scenario_generation", false),
    Entry("mathematical_quantitative_reasoning", false),
    Entry("causal_chain_expansion", false),
    Entry("analogical_reasoning", false)
  ]

  /** The registry's names, in order. */
  function Names(techniques: seq<Technique>): (r: seq<string>)
    ensures |r| == |techniques|
    ensures forall i :: 0 <= i < |r| ==> r[i] == techniques[i].name
  {
    seq(|techniques|, i requires 0 <= i < |techniques| => techniques[i].name)
  }

  /** The first registry entry whose name is `name`, if any (`next(..., None)`). */
  function FindTechnique(techniques: seq<Technique>, name: string): (r: Option<Technique>)
    ensures r.None? <==> forall i :: 0 <= i < |techniques| ==> techniques[i].name != name
    ensures r.Some? ==> r.value.name == name && r.value in techniques
    ensures forall i :: 0 <= i < |techniques| && techniques[i].name == name &&
                        (forall j :: 0 <= j < i ==> techniques[j].name != name) ==>
                          r == Some(techniques[i])
  {
    match FirstIndex(techniques, (t: Technique) => t.name == name)
    case None => None
    case Some(i) => Some(techniques[i])
  }

  /** Twelve entries, the first being the from-scratch technique. */
  lemma RegistryShape()
    ensures |Registry| == 12
    ensures Registry[0].name == "simple_question"
    ensures Registry[0].template.inputVariables == ["context", "instruction", "examples"]
  {
  }

  /** `simple_question` is the only technique whose template has no question input. */
  lemma OnlyFirstTechniqueIsInitial()
    ensures forall i :: 0 <= i < |Registry| ==> (!DeclaresQuestion(Registry[i].template) <==> i == 0)
  {
  }

  /** No two registry entries share a name. */
  lemma RegistryNamesDistinct()
    ensures forall i, j :: 0 <= i < j < |Registry| ==> Registry[i].name != Registry[j].name
  {
  }

  /** The seed-question stage finds its technique in the registry. */
  lemma RegistryHasSimpleQuestion()
    ensures FindTechnique(Registry, "simple_question") == Some(Registry[0])
  {
    assert Registry[0].name == "simple_question";
  }
}
