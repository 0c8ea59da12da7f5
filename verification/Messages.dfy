/** The agent's message history and the id and kind predicates of
    allama/agent/context.py.

    A request carries system prompts, user prompts, retry prompts and tool returns;
    a response carries text and tool calls. */
module Messages {

  /** The content of a tool return. `Structured` stands for any value that is neither
      a string nor null, represented by its JSON serialisation. */
  datatype Content = Absent | Text(text: string) | Structured(json: string)

  datatype RequestPart =
    | SystemPrompt(prompt: string)
    | UserPrompt(prompt: string)
    | RetryPrompt(prompt: string)
    | ToolReturn(toolName: string, returnId: string, content: Content)

  datatype ResponsePart =
    | ResponseText(text: string)
    | ToolCall(toolName: string, callId: string, args: string)

  datatype Message =
    | Request(requestParts: seq<RequestPart>)
    | Response(responseParts: seq<ResponsePart>)

  predicate HasToolCall(msg: Message) {
    msg.Response? && exists p :: p in msg.responseParts && p.ToolCall?
  }

  predicate HasToolReturn(msg: Message) {
    msg.Request? && exists p :: p in msg.requestParts && p.ToolReturn?
  }

  predicate HasSystemPrompt(msg: Message) {
    msg.Request? && exists p :: p in msg.requestParts && p.SystemPrompt?
  }

  function CallIds(msg: Message): set<string> {
    if msg.Request? then {}
    else set p | p in msg.responseParts && p.ToolCall? :: p.callId
  }

  function ReturnIds(msg: Message): set<string> {
    if msg.Response? then {}
    else set p | p in msg.requestParts && p.ToolReturn? :: p.returnId
  }

  /** Some call of `a` is answered by some return of `b`. */
  predicate Answers(a: Message, b: Message) {
    CallIds(a) * ReturnIds(b) != {}
  }

  /** Answering is about the ids of the single parts. */
  lemma AnswersInParts(a: Message, b: Message)
    ensures Answers(a, b) <==>
              && a.Response? && b.Request?
              && exists p, q :: p in a.responseParts && q in b.requestParts && p.ToolCall? && q.ToolReturn?
                                && p.callId == q.returnId
  {
    if Answers(a, b) {
      var id :| id in CallIds(a) * ReturnIds(b);
      assert id in CallIds(a) && id in ReturnIds(b);
    }
    if a.Response? && b.Request? {
      forall p, q | p in a.responseParts && q in b.requestParts && p.ToolCall? && q.ToolReturn?
                    && p.callId == q.returnId
        ensures Answers(a, b)
      {
        assert p.callId in CallIds(a) * ReturnIds(b);
      }
    }
  }

  /** Calls live in responses and returns in requests, so an answered message makes
      calls only and its answer holds returns only. */
  lemma AnswersSeparates(a: Message, b: Message)
    requires Answers(a, b)
    ensures HasToolCall(a) && !HasToolReturn(a)
    ensures HasToolReturn(b) && !HasToolCall(b)
  {
    var id :| id in CallIds(a) * ReturnIds(b);
    assert id in CallIds(a) && id in ReturnIds(b);
  }
}
