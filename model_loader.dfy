/**
 * `ModelLoader`: checks that the three API keys are set, keeps the parsed
 * configuration, and selects the embedding model and the chat model the
 * configuration names.
 */
module ModelLoading {
  import opened Wrappers
  import opened Text
  import opened Config
  import opened PortalException

  /** The process environment after `.env` has been merged in. */
  type Environment = map<string, string>

  const RequiredVars: seq<string> := ["GROQ_API_KEY", "GOOGLE_API_KEY", "HF_TOKEN"]

  /** `not os.getenv(key)`: unset, or set to the empty string. */
  predicate Unset(env: Environment, key: string) {
    key !in env || env[key] == ""
  }

  predicate IsSubsequence(a: seq<string>, b: seq<string>) {
    a == [] || (b != [] && if a[0] == b[0] then IsSubsequence(a[1..], b[1..]) else IsSubsequence(a, b[1..]))
  }

  /** The names among `names` that are unset, in the order of `names`. */
  function MissingVars(names: seq<string>, env: Environment): (r: seq<string>)
    ensures forall k :: k in r <==> k in names && Unset(env, k)
    ensures IsSubsequence(r, names)
  {
    if names == [] then []
    else
      var rest := MissingVars(names[1..], env);
      if Unset(env, names[0]) then [names[0]] + rest else rest
  }

  /** `repr` of a list of strings that hold no quote or backslash. */
  function ListRepr(items: seq<string>): (r: string)
    ensures StartsWith(r, "[") && EndsWith(r, "]")
  {
    var r := "[" + Join(", ", Quoted(items)) + "]";
    assert r[..1] == "[";
    r
  }

  /** Each item in single quotes, as `repr` writes a plain string. */
  function Quoted(items: seq<string>): (r: seq<string>)
    ensures |r| == |items| && forall i | 0 <= i < |items| :: r[i] == "'" + items[i] + "'"
  {
    seq(|items|, i requires 0 <= i < |items| => "'" + items[i] + "'")
  }

  /** The list `repr` names every item, in quotes; an empty list prints as `[]`. */
  lemma ListReprNames(items: seq<string>)
    ensures items == [] ==> ListRepr(items) == "[]"
    ensures forall i | 0 <= i < |items| :: Contains(ListRepr(items), "'" + items[i] + "'")
  {
    var joined, r := Join(", ", Quoted(items)), ListRepr(items);
    forall i | 0 <= i < |items|
      ensures Contains(r, "'" + items[i] + "'")
    {
      var q := "'" + items[i] + "'";
      var p := JoinHasPart(", ", Quoted(items), i);
      assert r[p + 1..p + 1 + |q|] == joined[p..p + |q|];
      assert OccursAt(r, q, p + 1);
    }
  }

  function MissingVarsMessage(missing: seq<string>): string
  {
    "Missing required environment variables: " + ListRepr(missing)
  }

  /** The embedding model the configuration names (a HuggingFace sentence model). */
  datatype EmbeddingModel = HuggingFaceEmbeddings(modelName: Value)

  /** The chat clients `load_llm` can build. */
  datatype ChatClient =
    | ChatGroq(model: Value, apiKey: string, temperature: Value)
    | ChatGoogle(model: Value, googleApiKey: string, temperature: Value, maxOutputTokens: Value)

  const DefaultProviderKey := "groq"
  const DefaultTemperature := Int(0)
  const DefaultMaxOutputTokens := Int(2048)

  /** `os.getenv("LLM_PROVIDER", "groq")`: the default only when the variable is absent. */
  function ProviderKey(env: Environment): (r: string)
    ensures "LLM_PROVIDER" !in env ==> r == DefaultProviderKey
    ensures "LLM_PROVIDER" in env ==> r == env["LLM_PROVIDER"]
  {
    if "LLM_PROVIDER" in env then env["LLM_PROVIDER"] else DefaultProviderKey
  }

  /** `key in container` on a parsed value; None where Python raises TypeError. */
  function Membership(container: Value, key: string): (r: Option<bool>)
    ensures container.Mapping? ==> r == Some(key in container.entries)
    ensures r.None? <==> !(container.Mapping? || container.Str? || container.List?)
  {
    match container
    case Mapping(entries) => Some(key in entries)
    case Str(s) => Some(Contains(s, key))
    case List(items) => Some(Str(key) in items)
    case _ => None
  }

  class ModelLoader {
    const config: map<string, Value>
    /** The validated keys: each required variable with its (non-empty) value. */
    const apiKeys: map<string, string>

    ghost predicate Valid() {
      forall k | k in RequiredVars :: k in apiKeys && apiKeys[k] != ""
    }

    constructor (config: map<string, Value>, apiKeys: map<string, string>)
      requires forall k | k in RequiredVars :: k in apiKeys && apiKeys[k] != ""
      ensures Valid() && this.config == config && this.apiKeys == apiKeys
    {
      this.config := config;
      this.apiKeys := apiKeys;
    }

    /**
     * `ModelLoader()`: validates the environment, then keeps the configuration,
     * which must be a mapping (its keys are logged).
     */
    static method Create(env: Environment, config: Value) returns (r: Result<ModelLoader, Failure>)
      ensures var missing := MissingVars(RequiredVars, env);
              && (r.Ok? <==> missing == [] && config.Mapping?)
              && (missing != [] ==>
                    r == Err(Raised("Failed to initialize ModelLoader", Chained(Raised(MissingVarsMessage(missing), NoCause)))))
              && (missing == [] && !config.Mapping? ==>
                    r == Err(Raised("Failed to initialize ModelLoader", NotAMapping)))
      ensures r.Ok? ==> fresh(r.value) && r.value.Valid() && config.Mapping? && r.value.config == config.entries
                        && r.value.apiKeys == map k | k in RequiredVars :: env[k]
    {
      var missing := MissingVars(RequiredVars, env);
      if missing != [] {
        return Err(Raised("Failed to initialize ModelLoader", Chained(Raised(MissingVarsMessage(missing), NoCause))));
      }
      if !config.Mapping? {
        return Err(Raised("Failed to initialize ModelLoader", NotAMapping));
      }
      var keys := map k | k in RequiredVars :: env[k];
      var loader := new ModelLoader(config.entries, keys);
      return Ok(loader);
    }

    /** `config["embedding_model"]["model_name"]`, when both lookups succeed. */
    function LoadEmbeddings(): (r: Result<EmbeddingModel, Failure>)
      ensures r.Ok? <==> "embedding_model" in config && Lookup(config["embedding_model"], "model_name").Some?
      ensures r.Ok? ==> r.value.modelName == config["embedding_model"].entries["model_name"]
      ensures r.Err? ==> r.error.message == "Failed to load embedding model" && r.error.cause.LookupFailed?
    {
      if "embedding_model" !in config then
        Err(Raised("Failed to load embedding model", LookupFailed("embedding_model")))
      else
        match Lookup(config["embedding_model"], "model_name")
        case None => Err(Raised("Failed to load embedding model", LookupFailed("model_name")))
        case Some(name) => Ok(HuggingFaceEmbeddings(name))
    }

    /** `load_llm()`: builds the client of the provider the selected block names. */
    function LoadLlm(env: Environment): (r: Result<ChatClient, Failure>)
      requires Valid()
      ensures r.Err? ==> r.error.message == "Failed to load LLM"
      ensures var built := SelectedClient(config, env, apiKeys["GROQ_API_KEY"], apiKeys["GOOGLE_API_KEY"]);
              && (r.Ok? <==> built.Ok?)
              && (r.Ok? ==> r.value == built.value)
              && (r.Err? ==> r.error.cause == built.error)
    {
      match ProviderBlock(config, ProviderKey(env))
      case Err(why) => Err(Raised("Failed to load LLM", why))
      case Ok(block) =>
        match ProviderClient(block, apiKeys["GROQ_API_KEY"], apiKeys["GOOGLE_API_KEY"])
        case Ok(client) => Ok(client)
        case Err(why) => Err(Raised("Failed to load LLM", why))
    }
  }

  /** The client of the provider block `LLM_PROVIDER` selects, or why there is none. */
  function SelectedClient(config: map<string, Value>, env: Environment, groqKey: string, googleKey: string)
    : Result<ChatClient, Reason>
  {
    var block := ProviderBlock(config, ProviderKey(env));
    if block.Ok? then ProviderClient(block.value, groqKey, googleKey) else Err(block.error)
  }

  /**
   * `config["llm"][key]` after the `key in llm_block` check: found only when
   * the `llm` entry is a mapping holding a mapping under `key`.
   */
  function ProviderBlock(config: map<string, Value>, key: string): (r: Result<map<string, Value>, Reason>)
    ensures r.Ok? <==> "llm" in config && config["llm"].Mapping? && key in config["llm"].entries
                       && config["llm"].entries[key].Mapping?
    ensures r.Ok? ==> r.value == config["llm"].entries[key].entries
    ensures "llm" !in config ==> r == Err(LookupFailed("llm"))
    ensures "llm" in config && config["llm"].Mapping? && key !in config["llm"].entries ==> r == Err(ProviderNotFound(key))
    ensures "llm" in config && Membership(config["llm"], key).None? ==> r == Err(NotAContainer)
  {
    if "llm" !in config then Err(LookupFailed("llm"))
    else
      var block := config["llm"];
      match Membership(block, key)
      case None => Err(NotAContainer)
      case Some(false) => Err(ProviderNotFound(key))
      case Some(true) =>
        if !block.Mapping? then Err(LookupFailed(key))
        else if !block.entries[key].Mapping? then Err(LookupFailed("provider"))
        else Ok(block.entries[key].entries)
  }

  /**
   * The client a provider block describes: its `provider` names Groq or Google,
   * `model_name` is required, and `temperature` (and, for Google,
   * `max_output_tokens`) fall back to their defaults.
   */
  function ProviderClient(cfg: map<string, Value>, groqKey: string, googleKey: string): (r: Result<ChatClient, Reason>)
    ensures r.Ok? <==> "provider" in cfg && "model_name" in cfg && cfg["provider"] in {Str("groq"), Str("google")}
    ensures r.Ok? ==>
              && r.value.model == cfg["model_name"]
              && r.value.temperature == (if "temperature" in cfg then cfg["temperature"] else DefaultTemperature)
              && (r.value.ChatGroq? <==> cfg["provider"] == Str("groq"))
              && (r.value.ChatGroq? ==> r.value.apiKey == groqKey)
              && (r.value.ChatGoogle? ==>
                    r.value.googleApiKey == googleKey
                    && r.value.maxOutputTokens
                       == (if "max_output_tokens" in cfg then cfg["max_output_tokens"] else DefaultMaxOutputTokens))
    ensures "provider" !in cfg ==> r == Err(LookupFailed("provider"))
    ensures "provider" in cfg && "model_name" !in cfg ==> r == Err(LookupFailed("model_name"))
    ensures r.Err? && r.error.UnsupportedProvider? ==>
              "provider" in cfg && r.error.provider == cfg["provider"] && cfg["provider"] !in {Str("groq"), Str("google")}
  {
    if "provider" !in cfg then Err(LookupFailed("provider"))
    else if "model_name" !in cfg then Err(LookupFailed("model_name"))
    else
      var provider, model := cfg["provider"], cfg["model_name"];
      var temperature := if "temperature" in cfg then cfg["temperature"] else DefaultTemperature;
      if provider == Str("groq") then
        Ok(ChatGroq(model, groqKey, temperature))
      else if provider == Str("google") then
        var maxTokens := if "max_output_tokens" in cfg then cfg["max_output_tokens"] else DefaultMaxOutputTokens;
        Ok(ChatGoogle(model, googleKey, temperature, maxTokens))
      else Err(UnsupportedProvider(provider))
  }

  /** With every key set, validation passes; each unset key is reported. */
  lemma MissingVarsExactly(env: Environment)
    ensures MissingVars(RequiredVars, env) == [] <==> forall k | k in RequiredVars :: !Unset(env, k)
    ensures !Unset(env, "GROQ_API_KEY") && Unset(env, "GOOGLE_API_KEY") && Unset(env, "HF_TOKEN") ==>
              MissingVars(RequiredVars, env) == ["GOOGLE_API_KEY", "HF_TOKEN"]
  {
    var r := MissingVars(RequiredVars, env);
    if r != [] {
      assert r[0] in r;
    }
    assert RequiredVars[1..] == ["GOOGLE_API_KEY", "HF_TOKEN"];
    assert RequiredVars[1..][1..] == ["HF_TOKEN"];
    assert RequiredVars[1..][1..][1..] == [];
    if !Unset(env, "GROQ_API_KEY") && Unset(env, "GOOGLE_API_KEY") && Unset(env, "HF_TOKEN") {
      assert MissingVars(["HF_TOKEN"], env) == ["HF_TOKEN"];
      assert MissingVars(["GOOGLE_API_KEY", "HF_TOKEN"], env) == ["GOOGLE_API_KEY", "HF_TOKEN"];
    }
  }
}
