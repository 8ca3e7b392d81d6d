/**
 * The prompt-side logic of the Claude client (core/claude_client.py): which
 * chat messages make up the conversation context, the system prompt built
 * around a question, the credential check, the client's readiness, and the
 * conversion of a chat message dictionary into a `Message`.
 */
module ClaudeClient {
  import opened Wrappers
  import opened Text

  /** A chat message; the sender is the sender dictionary, with string values. */
  datatype Message = Message(
    id: string,
    content: string,
    sender: map<string, string>,
    timestamp: string,
    isCurrentUser: bool)

  /** The sender id of the assistant's own messages. */
  const AssistantId: string := "susten-ai"

  predicate FromAssistant(m: Message) {
    "id" in m.sender && m.sender["id"] == AssistantId
  }

  // ---------------------------------------------------------------------------
  // Conversation context

  /** The messages not sent by the assistant, in order. */
  function UserMessages(history: seq<Message>): seq<Message>
  {
    if history == [] then []
    else if FromAssistant(history[0]) then UserMessages(history[1..])
    else [history[0]] + UserMessages(history[1..])
  }

  /** Only user messages remain, and every user message remains. */
  lemma {:induction false} UserMessagesSpec(history: seq<Message>)
    ensures |UserMessages(history)| <= |history|
    ensures forall i :: 0 <= i < |UserMessages(history)| ==> !FromAssistant(UserMessages(history)[i])
    ensures forall i :: 0 <= i < |history| && !FromAssistant(history[i]) ==> history[i] in UserMessages(history)
  {
    if history != [] {
      UserMessagesSpec(history[1..]);
      assert forall i :: 1 <= i < |history| ==> history[i] == history[1..][i - 1];
    }
  }

  /** Filtering distributes over concatenation, so the original order is kept. */
  lemma {:induction false} UserMessagesAppend(a: seq<Message>, b: seq<Message>)
    ensures UserMessages(a + b) == UserMessages(a) + UserMessages(b)
  {
    if a == [] {
      assert a + b == b;
    } else {
      assert (a + b)[1..] == a[1..] + b;
      UserMessagesAppend(a[1..], b);
    }
  }

  /** Python's `s[start:]` for any integer `start`. */
  function PyDrop<T>(s: seq<T>, start: int): (r: seq<T>)
    ensures 0 <= start <= |s| ==> r == s[start..]
    ensures start > |s| ==> r == []
    ensures -|s| <= start < 0 ==> r == s[|s| + start..]
    ensures start < -|s| ==> r == s
  {
    if start >= 0 then (if start <= |s| then s[start..] else [])
    else if -start <= |s| then s[|s| + start..] else s
  }

  /** `user_messages[-max_messages:] if len(user_messages) > max_messages else user_messages`. */
  function Recent(users: seq<Message>, maxMessages: int): seq<Message>
  {
    if |users| > maxMessages then PyDrop(users, -maxMessages) else users
  }

  /** A positive bound keeps exactly the last `maxMessages` messages, or all when there are fewer. */
  lemma RecentKeepsLast(users: seq<Message>, maxMessages: int)
    requires maxMessages > 0
    ensures var n := if |users| < maxMessages then |users| else maxMessages;
            Recent(users, maxMessages) == users[|users| - n..]
  {
  }

  /** A bound of zero keeps every message: `[-0:]` is the whole list. */
  lemma RecentZeroKeepsAll(users: seq<Message>)
    ensures Recent(users, 0) == users
  {
  }

  /** A negative bound drops that many messages from the front. */
  lemma RecentNegativeDropsFirst(users: seq<Message>, maxMessages: int)
    requires maxMessages < 0
    ensures -maxMessages <= |users| ==> Recent(users, maxMessages) == users[-maxMessages..]
    ensures -maxMessages > |users| ==> Recent(users, maxMessages) == []
  {
  }

  function Line(m: Message): string {
    "User: " + m.content
  }

  function Lines(ms: seq<Message>): (r: seq<string>)
    ensures |r| == |ms|
    ensures forall i :: 0 <= i < |ms| ==> r[i] == Line(ms[i])
  {
    seq(|ms|, i requires 0 <= i < |ms| => Line(ms[i]))
  }

  /** `build_conversation_context`. */
  function BuildConversationContext(history: seq<Message>, maxMessages: int): string
  {
    Join(Lines(Recent(UserMessages(history), maxMessages)), "\n")
  }

  /** Every recent user message appears in the context as a `User:` line. */
  lemma ContextHoldsRecent(history: seq<Message>, maxMessages: int, m: Message)
    requires m in Recent(UserMessages(history), maxMessages)
    ensures IsInfix(Line(m), BuildConversationContext(history, maxMessages))
  {
    var recent := Recent(UserMessages(history), maxMessages);
    var i :| 0 <= i < |recent| && recent[i] == m;
    JoinHolds(Lines(recent), "\n", i);
  }

  /** Nothing from the assistant reaches the context, and no user message means an empty context. */
  lemma ContextOnlyUsers(history: seq<Message>, maxMessages: int)
    ensures forall m :: m in Recent(UserMessages(history), maxMessages) ==> !FromAssistant(m)
    ensures UserMessages(history) == [] ==> BuildConversationContext(history, maxMessages) == ""
  {
    UserMessagesSpec(history);
    var users := UserMessages(history);
    forall m | m in Recent(users, maxMessages)
      ensures !FromAssistant(m)
    {
      var i :| 0 <= i < |Recent(users, maxMessages)| && Recent(users, maxMessages)[i] == m;
      assert m in users;
    }
  }

  /** The assistant's reply between two user messages is dropped. */
  lemma ContextExample(m1: Message, m2: Message, m3: Message)
    requires !FromAssistant(m1) && FromAssistant(m2) && !FromAssistant(m3)
    ensures BuildConversationContext([m1, m2, m3], 5) == Line(m1) + "\n" + Line(m3)
  {
    var h := [m1, m2, m3];
    var none: seq<Message> := [];
    assert h[1..] == [m2, m3] && h[1..][1..] == [m3] && h[1..][1..][1..] == none;
    assert UserMessages(h[1..][1..]) == [m3] + none == [m3];
    assert UserMessages(h) == [m1] + [m3] == [m1, m3];
    var lines := Lines([m1, m3]);
    assert lines == [Line(m1), Line(m3)];
    assert lines[1..] == [Line(m3)];
    assert Recent([m1, m3], 5) == [m1, m3];
    assert Join(lines[1..], "\n") == Line(m3);
    assert Join(lines, "\n") == Line(m1) + "\n" + Line(m3);
  }

  // ---------------------------------------------------------------------------
  // System prompt

  const AssistantName: string := "SUSTEN AI"
  const PromptHead: string := "あなたは" + AssistantName + "アシスタントです。\n        会話履歴：\n        "
  const PromptFaqs: string :=
    "\n        以下は過去のFAQです。これを参考に、ユーザーの質問に答えてください。\n        わからない場合はわからないと言ってください。親しみやすく、わかりやすい日本語で回答してください。\n        "
  const PromptQuestion: string := "\n        ユーザーの質問: "
  const PromptAnswer: string := "\n        答え:"

  /** `create_system_prompt`: the conversation, then the retrieved FAQs, then the question. */
  function CreateSystemPrompt(message: string, conversationContext: string, retrievedContext: string): string
  {
    PromptHead + conversationContext + PromptFaqs + retrievedContext + PromptQuestion + message + PromptAnswer
  }

  lemma HoldsThree(a: string, x: string, b: string, y: string, c: string, z: string, d: string)
    ensures IsInfix(x, a + x + b + y + c + z + d)
    ensures IsInfix(y, a + x + b + y + c + z + d)
    ensures IsInfix(z, a + x + b + y + c + z + d)
  {
    var s := a + x + b + y + c + z + d;
    assert s[|a|..][..|x|] == x;
    assert s[|a + x + b|..][..|y|] == y;
    assert s[|a + x + b + y + c|..][..|z|] == z;
  }

  /** The prompt names the assistant and holds the question and both contexts. */
  lemma SystemPromptHolds(message: string, conversationContext: string, retrievedContext: string)
    ensures var p := CreateSystemPrompt(message, conversationContext, retrievedContext);
      IsInfix(message, p) && IsInfix(conversationContext, p) && IsInfix(retrievedContext, p)
    ensures IsInfix(AssistantName, CreateSystemPrompt(message, conversationContext, retrievedContext))
  {
    HoldsThree(PromptHead, conversationContext, PromptFaqs, retrievedContext, PromptQuestion, message, PromptAnswer);
    var p := CreateSystemPrompt(message, conversationContext, retrievedContext);
    assert p[|"あなたは"|..][..|AssistantName|] == AssistantName;
  }

  // ---------------------------------------------------------------------------
  // Message dictionaries

  /** A chat message as a JSON object: each key may be absent. */
  datatype MessageDict = MessageDict(
    id: Option<string>,
    content: Option<string>,
    sender: Option<map<string, string>>,
    timestamp: Option<string>,
    isCurrentUser: Option<bool>)

  const InvalidIsoFormat: string := "Invalid isoformat string"

  /**
   * `dict_to_message`: absent keys take their defaults and an absent timestamp
   * is the current time; `datetime.fromisoformat` is the predicate `isIso`.
   */
  function DictToMessage(d: MessageDict, now: string, isIso: string -> bool): Result<Message>
  {
    var ts := d.timestamp.GetOr(now);
    if !isIso(ts) then Err(ValueError(InvalidIsoFormat))
    else Ok(Message(d.id.GetOr(""), d.content.GetOr(""), d.sender.GetOr(map[]), ts, d.isCurrentUser.GetOr(false)))
  }

  /** A message written out with every key. */
  function DictOf(m: Message): MessageDict {
    MessageDict(Some(m.id), Some(m.content), Some(m.sender), Some(m.timestamp), Some(m.isCurrentUser))
  }

  /** A full dictionary reads back as the message it came from. */
  lemma DictToMessageRoundTrip(m: Message, now: string, isIso: string -> bool)
    requires isIso(m.timestamp)
    ensures DictToMessage(DictOf(m), now, isIso) == Ok(m)
  {
  }

  /** An empty dictionary is an empty message from nobody, stamped now. */
  lemma DictToMessageDefaults(now: string, isIso: string -> bool)
    requires isIso(now)
    ensures DictToMessage(MessageDict(None, None, None, None, None), now, isIso) == Ok(Message("", "", map[], now, false))
  {
  }

  /** Conversion fails exactly when the timestamp does not parse. */
  lemma DictToMessageFails(d: MessageDict, now: string, isIso: string -> bool)
    ensures DictToMessage(d, now, isIso).Err? <==> !isIso(d.timestamp.GetOr(now))
    ensures DictToMessage(d, now, isIso).Err? ==> DictToMessage(d, now, isIso).error.ValueError?
  {
  }

  // ---------------------------------------------------------------------------
  // The client

  const CredentialsMissing: string :=
    "AWS credentials not configured. Please set AWS_ACCESS_KEY_ID and AWS_SECRET_ACCESS_KEY environment variables."
  const ClientMissing: string := "Failed to initialize AWS Bedrock client."

  /** Python truthiness of an optional string. */
  predicate Truthy(s: Option<string>) {
    s.Some? && s.value != []
  }

  class Client {
    const region: string
    const modelId: string
    /** The configured AWS keys. */
    const accessKeyId: Option<string>
    const secretAccessKey: Option<string>
    /** Whether creating the Bedrock client succeeded. */
    const hasBedrockClient: bool
    var initialized: bool

    /** `__init__`: not initialized; a failure to create the Bedrock client leaves none. */
    constructor (region: string, modelId: string, accessKeyId: Option<string>, secretAccessKey: Option<string>,
                 hasBedrockClient: bool)
      ensures !initialized && !IsReady()
      ensures this.region == region && this.modelId == modelId
      ensures this.accessKeyId == accessKeyId && this.secretAccessKey == secretAccessKey
      ensures this.hasBedrockClient == hasBedrockClient
    {
      this.region := region;
      this.modelId := modelId;
      this.accessKeyId := accessKeyId;
      this.secretAccessKey := secretAccessKey;
      this.hasBedrockClient := hasBedrockClient;
      initialized := false;
    }

    /** `validate_credentials`: both keys first, then the client. */
    function ValidateCredentials(): (r: (bool, string))
      ensures r.0 <==> Truthy(accessKeyId) && Truthy(secretAccessKey) && hasBedrockClient
      ensures r.0 ==> r.1 == ""
      ensures !(Truthy(accessKeyId) && Truthy(secretAccessKey)) ==> r == (false, CredentialsMissing)
      ensures Truthy(accessKeyId) && Truthy(secretAccessKey) && !hasBedrockClient ==> r == (false, ClientMissing)
    {
      if !Truthy(accessKeyId) || !Truthy(secretAccessKey) then (false, CredentialsMissing)
      else if !hasBedrockClient then (false, ClientMissing)
      else (true, "")
    }

    /** `is_ready`. */
    predicate IsReady()
      reads this
    {
      initialized && hasBedrockClient
    }

    /** `initialize`: ready exactly when the credentials check passes. */
    method Initialize() returns (ok: bool)
      modifies this
      ensures ok == ValidateCredentials().0
      ensures initialized == ok
      ensures ok <==> IsReady()
    {
      var check := ValidateCredentials();
      initialized := check.0;
      ok := check.0;
    }
  }
}
