/**
 * The message formatting of `answer_with_context`: each retrieved chunk
 * becomes a labelled block, the blocks are joined by a visible separator,
 * and the chat request carries a fixed system instruction and a user
 * message made of the question and that context.
 */
module AnswerComposer {
  import opened PyText
  import opened Retriever

  const ChatModel: string := "llama3"
  const Separator: string := "\n\n---\n\n"
  const Temperature: real := 0.2
  const MaxTokens: int := 400

  const SystemPrompt: string :=
    "You are a document-grounded assistant.\n"
    + "Answer using ONLY the provided context.\n"
    + "If the answer is not in the context, say: 'I don't have enough information in the documents to answer that.'\n"
    + "Cite sources by doc_id and chunk_id when you make a claim.\n"

  datatype ChatMessage = ChatMessage(role: string, content: string)

  /** The arguments of the chat-completion call. */
  datatype ChatRequest = ChatRequest(model: string, messages: seq<ChatMessage>, temperature: real, maxTokens: int)

  /** The label line of a block: `[Source: <doc_id> | chunk <chunk_id>]` and a newline. */
  function SourceHeader(docId: string, chunkId: int): string {
    "[Source: " + docId + " | chunk " + IntToString(chunkId) + "]\n"
  }

  /** The block for one retrieved entry: its label line, then its text. */
  function SourceBlock(r: RetrievalResult): string {
    SourceHeader(r.docId, r.chunkId) + r.text
  }

  /** `"\n\n---\n\n".join(blocks)`. */
  function Context(blocks: seq<string>): string {
    Join(Separator, blocks)
  }

  /** The user message: the question under `QUESTION:`, the context under `CONTEXT:`. */
  function UserMessage(question: string, context: string): string {
    "QUESTION:\n" + question + "\n\nCONTEXT:\n" + context
  }

  /** One block per retrieved entry, in retrieval order. */
  function Blocks(retrieved: seq<RetrievalResult>): (blocks: seq<string>)
    ensures |blocks| == |retrieved|
    ensures forall i :: 0 <= i < |retrieved| ==> blocks[i] == SourceBlock(retrieved[i])
  {
    seq(|retrieved|, i requires 0 <= i < |retrieved| => SourceBlock(retrieved[i]))
  }

  /** The loop of `answer_with_context` that renders one block per retrieved entry. */
  method ContextBlocks(retrieved: seq<RetrievalResult>) returns (blocks: seq<string>)
    ensures |blocks| == |retrieved|
    ensures forall i :: 0 <= i < |retrieved| ==> blocks[i] == SourceBlock(retrieved[i])
  {
    blocks := [];
    for i := 0 to |retrieved|
      invariant |blocks| == i
      invariant forall m :: 0 <= m < i ==> blocks[m] == SourceBlock(retrieved[m])
    {
      var r := retrieved[i];
      blocks := blocks + ["[Source: " + r.docId + " | chunk " + IntToString(r.chunkId) + "]\n" + r.text];
    }
  }

  /** The chat request for a question and its retrieved entries: the fixed model and settings, the system instruction, then the user message. */
  function Request(question: string, retrieved: seq<RetrievalResult>): (request: ChatRequest)
    ensures request.model == ChatModel && request.temperature == Temperature && request.maxTokens == MaxTokens
    ensures |request.messages| == 2
    ensures request.messages[0] == ChatMessage("system", SystemPrompt)
    ensures request.messages[1] == ChatMessage("user", UserMessage(question, Context(Blocks(retrieved))))
  {
    ChatRequest(ChatModel, [ChatMessage("system", SystemPrompt), ChatMessage("user", UserMessage(question, Context(Blocks(retrieved))))], Temperature, MaxTokens)
  }

  /** The chat request `answer_with_context` sends: the system instruction, then the user message. */
  method ComposeRequest(question: string, retrieved: seq<RetrievalResult>) returns (request: ChatRequest)
    ensures request.model == ChatModel && request.temperature == Temperature && request.maxTokens == MaxTokens
    ensures |request.messages| == 2
    ensures request.messages[0] == ChatMessage("system", SystemPrompt)
    ensures request.messages[1].role == "user"
    ensures request.messages[1].content == UserMessage(question, Context(Blocks(retrieved)))
    ensures request == Request(question, retrieved)
  {
    var blocks := ContextBlocks(retrieved);
    assert blocks == Blocks(retrieved);
    var context := Join(Separator, blocks);
    var user := "QUESTION:\n" + question + "\n\nCONTEXT:\n" + context;
    request := ChatRequest(ChatModel, [ChatMessage("system", SystemPrompt), ChatMessage("user", user)], Temperature, MaxTokens);
  }

  /** `answer_with_context`: the chat provider's reply to the composed request, stripped of surrounding whitespace. */
  method AnswerWithContext(complete: ChatRequest -> string, question: string, retrieved: seq<RetrievalResult>)
    returns (answer: string, request: ChatRequest)
    ensures request == Request(question, retrieved)
    ensures request.model == ChatModel && request.temperature == Temperature && request.maxTokens == MaxTokens
    ensures request.messages == [ChatMessage("system", SystemPrompt), ChatMessage("user", UserMessage(question, Context(Blocks(retrieved))))]
    ensures answer == Strip(complete(request))
  {
    request := ComposeRequest(question, retrieved);
    var reply := complete(request);
    answer := Strip(reply);
  }

  /** Block `i` stands at its offset, separated from the next by the separator, and the last block ends the context. */
  lemma ContextLayout(retrieved: seq<RetrievalResult>, i: nat)
    requires i < |retrieved|
    ensures PlacedAt(Context(Blocks(retrieved)), SourceBlock(retrieved[i]),
      JoinOffset(Separator, Blocks(retrieved), i), Separator, i == |retrieved| - 1)
  {
    JoinAt(Separator, Blocks(retrieved), i);
  }

  /** The context is empty exactly when nothing was retrieved: every block carries its label line. */
  lemma ContextEmptyIff(retrieved: seq<RetrievalResult>)
    ensures Context(Blocks(retrieved)) == "" <==> retrieved == []
  {
    var blocks := Blocks(retrieved);
    forall k | 0 <= k < |blocks| ensures blocks[k] != [] {
      assert blocks[k][0] == '[';
    }
    JoinEmptyIff(Separator, blocks);
  }

  /** A block is its label line followed by the chunk text, and the chunk id written in the label reads back as the chunk id. */
  lemma SourceBlockParts(r: RetrievalResult)
    ensures var id := IntToString(r.chunkId);
      && SourceBlock(r) == "[Source: " + r.docId + " | chunk " + id + "]\n" + r.text
      && SourceBlock(r)[|SourceBlock(r)| - |r.text|..] == r.text
      && id != [] && ParseInt(id) == r.chunkId
  {
    IntToStringRoundTrip(r.chunkId);
  }

  /** The user message holds the question after `QUESTION:` and the context at its end after `CONTEXT:`. */
  lemma UserMessageParts(question: string, context: string)
    ensures var u := UserMessage(question, context);
      && u[..10 + |question|] == "QUESTION:\n" + question
      && u[10 + |question|..|u| - |context|] == "\n\nCONTEXT:\n"
      && u[|u| - |context|..] == context
  {
    var u := UserMessage(question, context);
    assert u == ("QUESTION:\n" + question) + "\n\nCONTEXT:\n" + context;
  }
}
