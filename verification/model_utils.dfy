/** The uniform response every backend produces, the cost rule, the prompt template
    and the error constructor. */
module ModelUtils {
  import opened Options
  import opened Text

  /** The supported backends. */
  datatype ModelType = OpenAI | Gemini | Llama
  {
    /** The enum member's value: the provider's model name. */
    function Value(): string
    {
      match this
      case OpenAI => "gpt-4o-mini"
      case Gemini => "gemini-2.0-flash"
      case Llama => "llama3.2-3b"
    }
  }

  /** Different backends carry different names. */
  lemma ModelNamesDistinct(a: ModelType, b: ModelType)
    requires a != b
    ensures a.Value() != b.Value()
  {
  }

  /** The standardised result of one backend call. */
  datatype ModelResponse = ModelResponse(
    text: string,
    totalTokens: int,
    cost: real,
    modelType: ModelType,
    error: Option<string>)
  {
    predicate IsError()
    {
      error.Some?
    }
  }

  /** Dollars per 1000 tokens, one entry per backend. */
  const CostsPer1K: map<ModelType, real> :=
    map[OpenAI := 0.0006, Gemini := 0.000001, Llama := 0.0004]

  /** The rate table is total over the enum, so a cost lookup never fails. */
  lemma RateTableTotal(m: ModelType)
    ensures m in CostsPer1K && CostsPer1K[m] > 0.0
  {
    match m
    case OpenAI =>
    case Gemini =>
    case Llama =>
  }

  /** `calculate_cost`: the token count in thousands times the backend's rate. */
  function CalculateCost(totalTokens: int, modelType: ModelType): (cost: real)
    ensures totalTokens == 0 ==> cost == 0.0
    ensures totalTokens >= 0 ==> cost >= 0.0
    ensures totalTokens > 0 ==> cost > 0.0
  {
    RateTableTotal(modelType);
    (totalTokens as real / 1000.0) * CostsPer1K[modelType]
  }

  /** Cost is additive in tokens: two calls cost what one call of the combined size costs. */
  lemma CostAdditive(a: int, b: int, m: ModelType)
    ensures CalculateCost(a + b, m) == CalculateCost(a, m) + CalculateCost(b, m)
  {
  }

  /** Cost scales linearly with the token count; `cost(2k) == 2 * cost(k)` is the case `k := 2`. */
  lemma {:induction false} CostLinear(k: nat, n: int, m: ModelType)
    ensures CalculateCost(k * n, m) == k as real * CalculateCost(n, m)
  {
    if k > 0 {
      CostLinear(k - 1, n, m);
      CostAdditive((k - 1) * n, n, m);
    }
  }

  /** `get_system_prompt`: one fixed instruction, whatever the backend. */
  function SystemPrompt(modelType: ModelType): (prompt: string)
    ensures prompt != []
  {
    "You are an audit expert."
  }

  lemma SystemPromptUniform(a: ModelType, b: ModelType)
    ensures SystemPrompt(a) == SystemPrompt(b)
  {
  }

  const PromptHead := "Below is an audit report:\n\n"
  const PromptMiddle := "\n\nBased on this report, answer:\n"

  /** `create_audit_prompt`: the report embedded whole, followed by the question. */
  function CreateAuditPrompt(auditMd: string, question: string): (prompt: string)
    ensures |prompt| == |PromptHead| + |auditMd| + |PromptMiddle| + |question|
    ensures prompt[..|PromptHead|] == PromptHead
    ensures prompt[|PromptHead|..|PromptHead| + |auditMd|] == auditMd
    ensures prompt[|PromptHead| + |auditMd|..|prompt| - |question|] == PromptMiddle
    ensures prompt[|prompt| - |question|..] == question
  {
    PromptHead + auditMd + PromptMiddle + question
  }

  /** Knowing the report's length, a prompt gives back the report and the question. */
  lemma PromptDeterminesArguments(a1: string, q1: string, a2: string, q2: string)
    requires |a1| == |a2|
    requires CreateAuditPrompt(a1, q1) == CreateAuditPrompt(a2, q2)
    ensures a1 == a2 && q1 == q2
  {
    var p := CreateAuditPrompt(a1, q1);
    assert a1 == p[|PromptHead|..|PromptHead| + |a1|] == a2;
  }

  /** The shape the error constructor guarantees: an error with nothing else reported. */
  predicate ErrorShaped(r: ModelResponse)
  {
    r.IsError() && r.text == [] && r.totalTokens == 0 && r.cost == 0.0
  }

  /** `handle_model_error`: the failure message is prefixed with the model name, and the
      text, token count and cost are all zero. */
  function HandleModelError(modelType: ModelType, error: string): (r: ModelResponse)
    ensures ErrorShaped(r)
    ensures r.modelType == modelType
    ensures r.error == Some(modelType.Value() + " error: " + error)
  {
    ModelResponse("", 0, 0.0, modelType, Some(modelType.Value() + " error: " + error))
  }

  /** What a provider call produced before it is put in the uniform shape. */
  datatype ProviderReply =
    | Completed(content: string, usageTokens: nat)
    | Raised(message: string)

  /** The environment variable holding each backend's credential. */
  function ApiKeyName(modelType: ModelType): string
  {
    match modelType
    case OpenAI => "OPENAI_API_KEY"
    case Gemini => "GEMINI_API_KEY"
    case Llama => "LLAMA_API_KEY"
  }

  /** What a backend adapter returns: a missing credential or a raised exception becomes
      the error shape; a completed call reports its tokens and their cost, Gemini's text
      stripped of surrounding whitespace. */
  function AdapterResponse(modelType: ModelType, hasApiKey: bool, reply: ProviderReply): (r: ModelResponse)
    ensures r.modelType == modelType
    ensures r.IsError() <==> !hasApiKey || reply.Raised?
    ensures r.IsError() ==> ErrorShaped(r)
    ensures !hasApiKey ==> r.error == Some(modelType.Value() + " error: " + (ApiKeyName(modelType) + " not found"))
    ensures !r.IsError() ==> r.totalTokens >= 0 && r.cost == CalculateCost(r.totalTokens, modelType)
    ensures hasApiKey && reply.Completed? ==>
      && r.totalTokens == reply.usageTokens
      && r.text == (if modelType == Gemini then Strip(reply.content) else reply.content)
    ensures hasApiKey && reply.Raised? ==> r.error == Some(modelType.Value() + " error: " + reply.message)
  {
    if !hasApiKey then HandleModelError(modelType, ApiKeyName(modelType) + " not found")
    else
      match reply
      case Raised(message) => HandleModelError(modelType, message)
      case Completed(content, tokens) =>
        var text := if modelType == Gemini then Strip(content) else content;
        ModelResponse(text, tokens, CalculateCost(tokens, modelType), modelType, None)
  }

  /** No adapter response costs a negative amount. */
  lemma AdapterCostNonNegative(modelType: ModelType, hasApiKey: bool, reply: ProviderReply)
    ensures AdapterResponse(modelType, hasApiKey, reply).cost >= 0.0
  {
  }

  /** The error shape does not identify errors: a Gemini reply of nothing but whitespace,
      with no usage data, is stripped to the error shape's text, tokens and cost, yet
      carries no error. */
  lemma BlankGeminiReplyIsNotAnError()
    ensures var r := AdapterResponse(Gemini, true, Completed(" ", 0));
      !r.IsError() && r.text == [] && r.totalTokens == 0 && r.cost == 0.0
  {
    var blank := " ";
    assert IsWhitespace(blank[0]);
    assert AllWhitespace(blank);
    assert Strip(blank) == [];
  }
}
