/** The six fixed personas and the direct chat endpoint. The language-model
    service is an oracle `llm` from request to reply; whether a client was
    configured (an API key was present at start-up) is the flag
    `clientConfigured`. */
module Groq {
  import opened Results
  import opened Http

  datatype Persona = Persona(model: string, name: string, description: string)

  /** The persona table, in declaration order (a Python dict keeps insertion order). */
  const GroqModels: seq<(string, Persona)> := [
    ("1", Persona("meta-llama/llama-4-maverick-17b-128e-instruct",
                  "Orchestrator (Chief of Staff)",
                  "Tổng hợp 5 góc nhìn, nhận diện mâu thuẫn, 'reframe' quyết định")),
    ("2", Persona("moonshotai/kimi-k2-instruct",
                  "Market Compass",
                  "Phân tích tín hiệu thị trường, xu hướng, cạnh tranh")),
    ("3", Persona("openai/gpt-oss-20b",
                  "Financial Guardian",
                  "Mô phỏng dòng tiền, stress-test tài chính, logic & tính toán")),
    ("4", Persona("meta-llama/llama-4-scout-17b-16e-instruct",
                  "Strategy Analyst",
                  "Framework logic, blind spot, testing assumption")),
    ("5", Persona("llama-3.3-70b-versatile",
                  "People Advisor",
                  "Tâm lý tổ chức, phản ứng con người, tone phù hợp")),
    ("6", Persona("llama-3.1-8b-instant",
                  "Action Architect",
                  "Thực thi, timeline, resource, risk realism"))
  ]

  /** The persona ids, "1" to "6". */
  const PersonaIds: seq<string> := ["1", "2", "3", "4", "5", "6"]

  /** Output-token limit of a direct chat request. */
  const ChatMaxTokens: nat := 2048

  /** One request to the language-model service: model, the single user message, output limit. */
  datatype LlmRequest = LlmRequest(model: string, prompt: string, maxTokens: nat)

  /** What the call to the service yields: the completion text, or an exception's message. */
  datatype LlmReply = Completion(text: string) | Raised(message: string)

  datatype ChatRequest = ChatRequest(modelId: string, message: string)

  datatype ChatResponse = ChatResponse(modelId: string, modelName: string, response: string)

  /** One element of the `get_models` listing. */
  datatype ModelEntry = ModelEntry(id: string, name: string, model: string, description: string)

  /** The persona stored under `key`: the first table entry with that key. */
  function Lookup(key: string): (r: Option<Persona>)
    ensures r.Some? <==> key in PersonaIds
    ensures r.Some? ==> exists i :: 0 <= i < |GroqModels| && GroqModels[i] == (key, r.value)
  {
    LookupIn(GroqModels, key)
  }

  function LookupIn(table: seq<(string, Persona)>, key: string): (r: Option<Persona>)
    ensures r.Some? <==> exists i :: 0 <= i < |table| && table[i].0 == key
    ensures r.Some? ==> exists i :: 0 <= i < |table| && table[i] == (key, r.value)
  {
    if table == [] then None
    else if table[0].0 == key then Some(table[0].1)
    else
      var r := LookupIn(table[1..], key);
      assert forall i :: 0 < i < |table| ==> table[i] == table[1..][i - 1];
      r
  }

  /** The table has exactly the keys "1" to "6", in that order, each once. */
  lemma TableKeys()
    ensures |GroqModels| == |PersonaIds| == 6
    ensures forall i :: 0 <= i < |GroqModels| ==> GroqModels[i].0 == PersonaIds[i]
    ensures forall i, j :: 0 <= i < j < |PersonaIds| ==> PersonaIds[i] != PersonaIds[j]
  {
  }

  /** Looking up the i-th key yields the i-th persona. */
  lemma LookupAt(i: nat)
    requires i < |GroqModels|
    ensures Lookup(GroqModels[i].0) == Some(GroqModels[i].1)
  {
    var key := GroqModels[i].0;
    var p := Lookup(key);
    var j :| 0 <= j < |GroqModels| && GroqModels[j] == (key, p.value);
    assert j == i;
  }

  function EntryOf(key: string, p: Persona): ModelEntry {
    ModelEntry(key, p.name, p.model, p.description)
  }

  /** `get_models`: one entry per persona, in table order, copying the table's fields. */
  method GetModels() returns (models: seq<ModelEntry>)
    ensures |models| == |PersonaIds|
    ensures forall i :: 0 <= i < |models| ==>
      models[i].id == PersonaIds[i] && Lookup(models[i].id) == Some(Persona(models[i].model, models[i].name, models[i].description))
  {
    models := [];
    var i := 0;
    while i < |GroqModels|
      invariant 0 <= i <= |GroqModels|
      invariant |models| == i
      invariant forall k :: 0 <= k < i ==> models[k] == EntryOf(GroqModels[k].0, GroqModels[k].1)
    {
      models := models + [EntryOf(GroqModels[i].0, GroqModels[i].1)];
      i := i + 1;
    }
    forall k | 0 <= k < |models|
      ensures models[k].id == PersonaIds[k]
      ensures Lookup(models[k].id) == Some(Persona(models[k].model, models[k].name, models[k].description))
    {
      LookupAt(k);
    }
  }

  /** The request `chat_with_groq` sends for a known persona. */
  function ChatLlmRequest(p: Persona, request: ChatRequest): LlmRequest {
    LlmRequest(p.model, request.message, ChatMaxTokens)
  }

  /** `chat_with_groq`: a missing client is reported before an unknown model id;
      a known persona sends the user's message to that persona's model and
      echoes the requested id with the persona's display name; any exception
      from the call becomes a 500. */
  function ChatWithGroq(clientConfigured: bool, request: ChatRequest, llm: LlmRequest -> LlmReply)
    : (r: Result<ChatResponse, HttpError>)
    ensures !clientConfigured ==> r == Err(ServerError(ClientNotConfigured))
    ensures clientConfigured && request.modelId !in PersonaIds ==> r == Err(BadRequest(InvalidModelId))
    ensures r.Ok? <==>
      clientConfigured && request.modelId in PersonaIds &&
      llm(ChatLlmRequest(Lookup(request.modelId).value, request)).Completion?
    ensures r.Ok? ==>
      var p := Lookup(request.modelId).value;
      r.value == ChatResponse(request.modelId, p.name, llm(ChatLlmRequest(p, request)).text)
    ensures r.Err? && r.error.status != 500 ==> r.error == BadRequest(InvalidModelId)
    ensures clientConfigured && request.modelId in PersonaIds ==>
      var reply := llm(ChatLlmRequest(Lookup(request.modelId).value, request));
      reply.Raised? ==> r == Err(ServerError(UpstreamFailure(reply.message)))
  {
    if !clientConfigured then Err(ServerError(ClientNotConfigured))
    else match Lookup(request.modelId)
      case None => Err(BadRequest(InvalidModelId))
      case Some(p) =>
        match llm(ChatLlmRequest(p, request))
        case Completion(text) => Ok(ChatResponse(request.modelId, p.name, text))
        case Raised(message) => Err(ServerError(UpstreamFailure(message)))
  }

  /** Both failures checked before the call are independent of the service:
      on those paths the service is never asked. */
  lemma ChatChecksPrecedeCall(clientConfigured: bool, request: ChatRequest,
                              llm1: LlmRequest -> LlmReply, llm2: LlmRequest -> LlmReply)
    requires !clientConfigured || request.modelId !in PersonaIds
    ensures ChatWithGroq(clientConfigured, request, llm1) == ChatWithGroq(clientConfigured, request, llm2)
    ensures ChatWithGroq(clientConfigured, request, llm1).Err?
  {
  }
}
