/** The retrieval-augmented answer flow (eduweave/rag.py): rendering search
    hits as a context block, building the chat messages, the readiness
    guard and the choice between retrieval and the raw-corpus baseline. The
    two HTTP services `_chat_completion` calls are parameters. */
module Rag {
  import opened Common
  import opened VectorStore

  /** SYSTEM_PROMPT (lines 23-25), three lines. */
  const SystemPrompt: string := SystemLine1 + "\n" + SystemLine2 + "\n" + SystemLine3
  const SystemLine1: string := "You are EduWeave, an academic AI assistant."
  const SystemLine2: string := "Answer questions strictly with the provided context. Avoid speculation."
  const SystemLine3: string := "If the answer is missing, say you cannot find it in the supplied notes."

  /** What replaces an empty context (lines 91-92). */
  const EmptyContext: string := "Context is empty."

  /** One chat message: a role and its content. */
  datatype Message = Message(role: string, content: string)

  /** AnswerResponse (lines 16-20). `mode` is "rag" or "baseline". */
  datatype AnswerResponse = AnswerResponse(answer: string, sources: seq<Hit>, mode: string)

  /** The retrieval settings (eduweave/config.py); answer_question reads
      top_k. */
  datatype RetrievalConfig = RetrievalConfig(topK: int, maxK: int)

  const DefaultRetrievalConfig: RetrievalConfig := RetrievalConfig(5, 8)

  datatype AnswerError =
    | NotReady                  // RuntimeError: no store, or not built
    | SearchFailed(e: StoreError)

  // ---------------------------------------------------------------------
  // The text-generation fallback prompt of _chat_completion
  // ---------------------------------------------------------------------

  /** One turn of the prompt: `<|role|>`, the stripped content, each on its
      own line. */
  function Turn(m: Message): string {
    TagOpen + m.role + TagClose + Strip(m.content) + "\n"
  }

  /** A turn opens with the tag around the message's role and ends its
      line. */
  lemma {:induction false} TurnShape(m: Message)
    ensures var t := Turn(m);
      && |t| >= |TagOpen| + |m.role| + |TagClose| + 1
      && t[..|TagOpen|] == TagOpen && t[|t| - 1] == '\n'
      && t[|TagOpen|..|TagOpen| + |m.role|] == m.role
  {
    var t := Turn(m);
    assert t == TagOpen + (m.role + (TagClose + Strip(m.content) + "\n"));
  }

  const TagOpen: string := "<|"
  const TagClose: string := "|>\n"
  /** The open assistant turn that ends every prompt. */
  const AssistantTag: string := "<|assistant|>\n"

  /** Strings placed end to end, in order. */
  function Concat(parts: seq<string>): string {
    if parts == [] then [] else Concat(parts[..|parts| - 1]) + parts[|parts| - 1]
  }

  lemma {:induction false} ConcatSnoc(parts: seq<string>, k: nat)
    requires k < |parts|
    ensures Concat(parts[..k + 1]) == Concat(parts[..k]) + parts[k]
  {
    var p := parts[..k + 1];
    assert p[..|p| - 1] == parts[..k];
  }

  lemma {:induction false} ConcatAppend(a: seq<string>, b: seq<string>)
    ensures Concat(a + b) == Concat(a) + Concat(b)
    decreases |b|
  {
    if b == [] {
      assert a + b == a;
      assert Concat(a) + [] == Concat(a);
    } else {
      var c := a + b;
      var front := b[..|b| - 1];
      assert c[..|c| - 1] == a + front;
      assert c[|c| - 1] == b[|b| - 1];
      ConcatAppend(a, front);
      assert Concat(b) == Concat(front) + b[|b| - 1];
    }
  }

  lemma {:induction false} ConcatTwo(x: string, y: string)
    ensures Concat([x, y]) == x + y
  {
    var p := [x, y];
    assert p[..1] == [x] && [x][..0] == [];
    assert Concat([x]) == Concat([]) + x;
    assert [] + x == x;
  }

  /** The rendered turn of each message, in order. */
  function TurnTexts(messages: seq<Message>): (ts: seq<string>)
    ensures |ts| == |messages|
    ensures forall i :: 0 <= i < |messages| ==> ts[i] == Turn(messages[i])
  {
    seq(|messages|, i requires 0 <= i < |messages| => Turn(messages[i]))
  }

  /** The turns of all messages, in order. */
  function Turns(messages: seq<Message>): string {
    Concat(TurnTexts(messages))
  }

  /** The prompt lines 45-49 build: every turn, then the open assistant
      turn. */
  function PromptFor(messages: seq<Message>): string {
    Turns(messages) + AssistantTag
  }

  lemma {:induction false} TurnsAppend(a: seq<Message>, b: seq<Message>)
    ensures Turns(a + b) == Turns(a) + Turns(b)
  {
    var ta, tb := TurnTexts(a), TurnTexts(b);
    assert TurnTexts(a + b) == ta + tb by {
      forall i | 0 <= i < |a| + |b| ensures TurnTexts(a + b)[i] == (ta + tb)[i] {
        if i < |a| { assert (a + b)[i] == a[i]; } else { assert (a + b)[i] == b[i - |a|]; }
      }
    }
    ConcatAppend(ta, tb);
  }

  lemma {:induction false} TurnsOfTwo(m1: Message, m2: Message)
    ensures Turns([m1, m2]) == Turn(m1) + Turn(m2)
  {
    assert TurnTexts([m1, m2]) == [Turn(m1), Turn(m2)];
    ConcatTwo(Turn(m1), Turn(m2));
  }

  /** Lines 45-49: `prompt += f"<|{role}|>\n{content.strip()}\n"` for each
      message, then the assistant tag. */
  method RenderPrompt(messages: seq<Message>) returns (prompt: string)
    ensures prompt == PromptFor(messages)
  {
    ghost var ts := TurnTexts(messages);
    prompt := "";
    var k := 0;
    while k < |messages|
      invariant 0 <= k <= |messages|
      invariant prompt == Concat(ts[..k])
    {
      ConcatSnoc(ts, k);
      prompt := prompt + Turn(messages[k]);
      k := k + 1;
    }
    assert ts[..k] == ts;
    prompt := prompt + AssistantTag;
  }

  /** The prompt has one turn per message, in order: it is the turns of
      any split of the messages placed end to end, and it always ends with
      the open assistant turn. */
  lemma {:induction false} PromptShape(a: seq<Message>, b: seq<Message>)
    ensures PromptFor(a + b) == Turns(a) + Turns(b) + AssistantTag
    ensures var p := PromptFor(a + b); |p| >= |AssistantTag| && p[|p| - |AssistantTag|..] == AssistantTag
  {
    TurnsAppend(a, b);
  }

  /** `_chat_completion` (lines 28-58) over an abstract service: the chat
      reply, stripped, when the chat call gives non-empty text; otherwise the
      text-generation reply to the fallback prompt, stripped. `chat` returns
      None where the call raises. */
  function ChatCompletion(messages: seq<Message>, chat: seq<Message> -> Option<string>,
                          generate: string -> string): (answer: string)
    ensures answer == [] || (!IsSpace(answer[0]) && !IsSpace(answer[|answer| - 1]))
    ensures chat(messages).Some? && chat(messages).value != [] ==> answer == Strip(chat(messages).value)
    ensures chat(messages).None? || chat(messages).value == [] ==> answer == Strip(generate(PromptFor(messages)))
  {
    match chat(messages)
    case Some(text) => if text != [] then Strip(text) else Strip(generate(PromptFor(messages)))
    case None => Strip(generate(PromptFor(messages)))
  }

  // ---------------------------------------------------------------------
  // _format_context
  // ---------------------------------------------------------------------

  /** An f-string rendering of a metadata value. */
  function Render(v: Value): string {
    match v
    case Text(s) => s
    case Number(n) => IntToString(n)
  }

  /** `metadata.get("source", f"chunk-{idx}")`. */
  function Label(idx: nat, metadata: Metadata): (name: string)
    ensures "source" in metadata ==> name == Render(metadata["source"])
    ensures "source" !in metadata ==> name == "chunk-" + NatToString(idx)
  {
    if "source" in metadata then Render(metadata["source"]) else "chunk-" + NatToString(idx)
  }

  /** `f"[{source}] {chunk['text']}"` for the hit numbered `idx` (from 1). */
  function Block(idx: nat, hit: Hit): (b: string)
    ensures var l := Label(idx, hit.metadata);
      && |b| == |l| + 3 + |hit.text| && b[0] == '['
      && b[1..|l| + 1] == l && b[|l| + 1..|l| + 3] == "] " && b[|l| + 3..] == hit.text
  {
    var l := Label(idx, hit.metadata);
    var b := "[" + l + "] " + hit.text;
    assert b[1..|l| + 1] == l;
    assert b[|l| + 1..|l| + 3] == "] ";
    assert b[|l| + 3..] == hit.text;
    b
  }

  /** One block per hit, numbered from 1, in hit order. */
  function Blocks(hits: seq<Hit>): (bs: seq<string>)
    ensures |bs| == |hits|
    ensures forall i :: 0 <= i < |hits| ==> bs[i] == Block(i + 1, hits[i])
  {
    seq(|hits|, i requires 0 <= i < |hits| => Block(i + 1, hits[i]))
  }

  /** `_format_context` (lines 61-67). */
  method FormatContext(hits: seq<Hit>) returns (context: string)
    ensures context == Join("\n\n", Blocks(hits))
  {
    ghost var blocks := Blocks(hits);
    var formatted: seq<string> := [];
    var idx := 0;
    while idx < |hits|
      invariant 0 <= idx <= |hits|
      invariant formatted == blocks[..idx]
    {
      var hit := hits[idx];
      assert blocks[..idx + 1] == blocks[..idx] + [blocks[idx]];
      formatted := formatted + [Block(idx + 1, hit)];
      idx := idx + 1;
    }
    assert formatted == blocks;
    context := Join("\n\n", formatted);
  }

  /** The rendered context is empty exactly when there are no hits. */
  lemma {:induction false} FormatContextEmptyIff(hits: seq<Hit>)
    ensures Join("\n\n", Blocks(hits)) == [] <==> hits == []
  {
    JoinEmptyIff("\n\n", Blocks(hits));
    if hits != [] {
      assert Blocks(hits)[0] != [];
    }
  }

  // ---------------------------------------------------------------------
  // answer_question
  // ---------------------------------------------------------------------

  /** Lines 91-92: an empty context is replaced by a fixed sentence. */
  function ContextOrEmpty(context: string): (c: string)
    ensures context == [] ==> c == EmptyContext
    ensures c != []
    ensures context != [] ==> c == context
  {
    if context == [] then EmptyContext else context
  }

  /** The user prompt of lines 94-98. */
  function UserPrompt(context: string, question: string): (p: string)
    ensures |p| >= |ContextLead| + |context| + |QuestionLead| + |question|
    ensures p[..|ContextLead|] == ContextLead
    ensures p[|ContextLead|..|ContextLead| + |context|] == context
    ensures var k := |ContextLead| + |context| + |QuestionLead|;
      p[k..k + |question|] == question
  {
    PartsOfFive(ContextLead, context, QuestionLead, question, AnswerCue);
    ContextLead + context + QuestionLead + question + AnswerCue
  }

  const ContextLead: string := "Context:\n"
  const QuestionLead: string := "\n\nQuestion: "
  const AnswerCue: string := "\nHelpful answer:"

  /** Lines 100-103: the system prompt, then the user prompt. */
  function MessagesFor(context: string, question: string): (ms: seq<Message>)
    ensures |ms| == 2
    ensures ms[0] == Message("system", SystemPrompt)
    ensures ms[1] == Message("user", UserPrompt(ContextOrEmpty(context), question))
  {
    [Message("system", SystemPrompt), Message("user", UserPrompt(ContextOrEmpty(context), question))]
  }

  /** The fallback prompt of an answer: the system turn, the user turn with
      the context, then the open assistant turn. */
  lemma {:induction false} AnswerPrompt(context: string, question: string)
    ensures PromptFor(MessagesFor(context, question))
         == Turn(Message("system", SystemPrompt))
          + Turn(Message("user", UserPrompt(ContextOrEmpty(context), question)))
          + AssistantTag
  {
    var ms := MessagesFor(context, question);
    assert ms == [ms[0], ms[1]];
    TurnsOfTwo(ms[0], ms[1]);
  }

  /** The system turn carries the system prompt unchanged. */
  lemma {:induction false} SystemTurn()
    ensures Turn(Message("system", SystemPrompt)) == "<|system|>\n" + SystemPrompt + "\n"
  {
    SystemPromptStripped();
    SystemTag();
  }

  lemma {:induction false} SystemTag()
    ensures TagOpen + "system" + TagClose == "<|system|>\n"
  {
  }

  lemma {:induction false} SystemPromptStripped()
    ensures Strip(SystemPrompt) == SystemPrompt
  {
    assert SystemLine1[0] == 'Y';
    assert SystemLine3[|SystemLine3| - 1] == '.';
    assert SystemPrompt[|SystemPrompt| - 1] == SystemLine3[|SystemLine3| - 1];
    StripUnchanged(SystemPrompt);
  }

  /** With no hits, the model is told the context is empty. */
  lemma {:induction false} NoHitsMeansEmptyContext(question: string)
    ensures MessagesFor(Join("\n\n", Blocks([])), question)[1].content
         == UserPrompt(EmptyContext, question)
  {
    assert Blocks([]) == [];
  }

  /** `answer_question` (lines 70-112). The readiness guard comes first; in
      retrieval mode the hits of a top_k search are both the context and the
      sources; in baseline mode the shortened full text is the context and
      there are no sources. The answer is `_chat_completion` of the two
      messages, so it never has whitespace at either end. */
  method AnswerQuestion(question: string, store: VectorStoreManager?,
                        retrieval: RetrievalConfig, generation: GenerationConfig, useRag: bool,
                        embed: string -> Vector, knn: (FlatIndex, Vector, int) -> seq<Neighbor>,
                        shorten: (string, int) -> string,
                        chat: seq<Message> -> Option<string>, generate: string -> string)
    returns (r: Result<AnswerResponse, AnswerError>)
    ensures store == null || !store.IsReady() ==> r == Err(NotReady)
    ensures store != null && store.IsReady() && useRag ==>
      var found := MapHits(knn(store.index.value, embed(question), retrieval.topK), store.textChunks, store.metadatas);
      && (found.Err? ==> r == Err(SearchFailed(found.error)))
      && (found.Ok? ==> r == Ok(AnswerResponse(
            ChatCompletion(MessagesFor(Join("\n\n", Blocks(found.value)), question), chat, generate),
            found.value, "rag")))
    ensures store != null && store.IsReady() && !useRag ==>
      r == Ok(AnswerResponse(
        ChatCompletion(MessagesFor(shorten(store.fullText, generation.maxContextChars), question), chat, generate),
        [], "baseline"))
    ensures r.Ok? ==> var a := r.value.answer;
      a == [] || (!IsSpace(a[0]) && !IsSpace(a[|a| - 1]))
  {
    if store == null || !store.IsReady() {
      return Err(NotReady);
    }
    var hits: seq<Hit>;
    var context: string;
    var mode: string;
    if useRag {
      var found := store.Search(embed, knn, question, retrieval.topK);
      if found.Err? {
        return Err(SearchFailed(found.error));
      }
      hits := found.value;
      context := FormatContext(hits);
      mode := "rag";
    } else {
      hits := [];
      context := shorten(store.fullText, generation.maxContextChars);
      mode := "baseline";
    }
    if context == [] {
      context := EmptyContext;
    }
    var prompt := UserPrompt(context, question);
    var messages := [Message("system", SystemPrompt), Message("user", prompt)];
    var answer := ChatCompletion(messages, chat, generate);
    r := Ok(AnswerResponse(answer, hits, mode));
  }
}
