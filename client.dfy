/** The client wrapper's `call_llm`: send the same chat-completion request
    `num_calls` times and collect the stripped replies in call order. The
    hosted model is an oracle: the endpoint object answers its `k`-th request
    `req` with `reply(k, req)` and keeps a log of what it was sent. */
module Client {
  import opened Text

  datatype Message = Message(role: string, content: string)

  /** The parameters of one `chat.completions.create` call. */
  datatype ChatRequest = ChatRequest(
    model: string,
    messages: seq<Message>,
    temperature: real,
    maxTokens: int,
    topP: real,
    frequencyPenalty: real)

  const DefaultSystemPrompt: string := "You are a helpful assistant."
  const DefaultMaxTokens: int := 150
  const DefaultTopP: real := 1.0
  const DefaultFrequencyPenalty: real := 0.0

  /** The request `call_llm` sends: a system message and then a user message. */
  function BuildRequest(
    prompt: string, temperature: real, deploymentName: string,
    systemPrompt: string := DefaultSystemPrompt,
    maxTokens: int := DefaultMaxTokens,
    topP: real := DefaultTopP,
    frequencyPenalty: real := DefaultFrequencyPenalty): (req: ChatRequest)
    ensures req.model == deploymentName
    ensures req.messages == [Message("system", systemPrompt), Message("user", prompt)]
    ensures req.temperature == temperature && req.maxTokens == maxTokens
    ensures req.topP == topP && req.frequencyPenalty == frequencyPenalty
  {
    ChatRequest(deploymentName,
      [Message("system", systemPrompt), Message("user", prompt)],
      temperature, maxTokens, topP, frequencyPenalty)
  }

  /** Parameters left out take the documented defaults. */
  lemma BuildRequestDefaults(prompt: string, temperature: real, deploymentName: string)
    ensures var req := BuildRequest(prompt, temperature, deploymentName);
      && req.messages[0].content == "You are a helpful assistant."
      && req.maxTokens == 150
      && req.topP == 1.0
      && req.frequencyPenalty == 0.0
  {
  }

  /** How many times `range(num_calls)` runs. */
  function Calls(numCalls: int): (n: nat)
    ensures numCalls >= 0 ==> n == numCalls
    ensures numCalls < 0 ==> n == 0
  {
    if numCalls < 0 then 0 else numCalls
  }

  /** `n` copies of `req`. */
  function Repeat(req: ChatRequest, n: nat): (r: seq<ChatRequest>)
    ensures |r| == n
    ensures forall i :: 0 <= i < n ==> r[i] == req
  {
    if n == 0 then [] else Repeat(req, n - 1) + [req]
  }

  /** What `call_llm` returns for `n` calls of `req` when the endpoint has
      already answered `start` requests. */
  function Collected(reply: (nat, ChatRequest) -> string, start: nat, req: ChatRequest, n: nat): (r: seq<string>)
    ensures |r| == n
    ensures forall i :: 0 <= i < n ==> r[i] == Strip(reply(start + i, req))
    ensures forall i :: 0 <= i < n ==> Trimmed(r[i])
  {
    seq(n, i requires 0 <= i < n => Strip(reply(start + i, req)))
  }

  /** Re-stripping a collected reply leaves it as it is. */
  lemma CollectedStripped(reply: (nat, ChatRequest) -> string, start: nat, req: ChatRequest, n: nat, i: nat)
    requires i < n
    ensures Strip(Collected(reply, start, req, n)[i]) == Collected(reply, start, req, n)[i]
  {
    StripIdempotent(reply(start + i, req));
  }

  /** `client.chat.completions`, the remote endpoint. */
  class ChatCompletions {
    /** The hosted model's answer to the `k`-th request. */
    const reply: (nat, ChatRequest) -> string
    /** Every request sent so far, in order. */
    var requests: seq<ChatRequest>

    constructor (reply: (nat, ChatRequest) -> string)
      ensures this.reply == reply && requests == []
    {
      this.reply := reply;
      requests := [];
    }

    /** `create(...)` followed by `.choices[0].message.content`. */
    method Create(req: ChatRequest) returns (content: string)
      modifies this
      ensures requests == old(requests) + [req]
      ensures content == reply(|old(requests)|, req)
    {
      content := reply(|requests|, req);
      requests := requests + [req];
    }
  }

  class ClientWrapper {
    const client: ChatCompletions

    /** The endpoint, credentials and API version read from the environment
        are not modelled; the wrapper is handed a ready endpoint. */
    constructor (client: ChatCompletions)
      ensures this.client == client
    {
      this.client := client;
    }

    /** `call_llm`: for `_ in range(num_calls)`, send the same request and
        append the stripped reply. A negative count, like `range`, sends
        nothing. */
    method CallLlm(
      prompt: string, temperature: real, numCalls: int, deploymentName: string,
      systemPrompt: string := DefaultSystemPrompt,
      maxTokens: int := DefaultMaxTokens,
      topP: real := DefaultTopP,
      frequencyPenalty: real := DefaultFrequencyPenalty)
      returns (responses: seq<string>)
      modifies client
      ensures client.requests == old(client.requests)
        + Repeat(BuildRequest(prompt, temperature, deploymentName,
                              systemPrompt, maxTokens, topP, frequencyPenalty), Calls(numCalls))
      ensures responses == Collected(client.reply, |old(client.requests)|,
        BuildRequest(prompt, temperature, deploymentName,
                     systemPrompt, maxTokens, topP, frequencyPenalty), Calls(numCalls))
    {
      var req := BuildRequest(prompt, temperature, deploymentName,
                              systemPrompt, maxTokens, topP, frequencyPenalty);
      var n := Calls(numCalls);
      ghost var before := client.requests;
      ghost var start := |before|;
      responses := [];
      for i := 0 to n
        invariant |responses| == i
        invariant client.requests == before + Repeat(req, i)
        invariant responses == Collected(client.reply, start, req, i)
      {
        var content := client.Create(req);
        responses := responses + [Strip(content)];
        assert responses == Collected(client.reply, start, req, i + 1);
      }
    }
  }

  /** A client's view of `call_llm`: exactly `num_calls` replies, each the
      stripped answer to the call in its position, none with surrounding
      whitespace, and every request sent identical. */
  method CallLlmUsage(reply: (nat, ChatRequest) -> string, numCalls: nat)
  {
    var endpoint := new ChatCompletions(reply);
    var wrapper := new ClientWrapper(endpoint);
    var responses := wrapper.CallLlm("Name a dog", 0.7, numCalls, "gpt-4o");
    var req := BuildRequest("Name a dog", 0.7, "gpt-4o");
    assert |responses| == numCalls;
    assert forall i :: 0 <= i < numCalls ==> responses[i] == Strip(reply(i, req));
    assert forall i :: 0 <= i < numCalls ==> Trimmed(responses[i]);
    assert forall i, j :: 0 <= i < j < numCalls ==> endpoint.requests[i] == endpoint.requests[j];
    assert req.messages[0].content == "You are a helpful assistant." && req.maxTokens == 150;
    var none := wrapper.CallLlm("Name a dog", 0.7, 0, "gpt-4o");
    assert none == [] && |endpoint.requests| == numCalls;
  }
}
