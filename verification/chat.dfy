/** The chat templates of the built-in tokenizers (cascade_utils.py): a
    conversation is rendered from its first system, user and assistant
    messages in the vicuna or the alpaca layout. */
module Chat {
  import opened Base

  /** A chat message is a dict; the template reads its "role" and
      "content" keys. */
  type ChatMessage = map<string, string>

  const DefaultSystem: string := "You are a helpful assistant."

  /** `[x['content'] for x in messages if x['role'] == role]`: the lookup
      of "role" on a message without one, or of "content" on a message of
      that role without one, raises `KeyError`. */
  function Contents(messages: seq<ChatMessage>, role: string): (r: Result<seq<string>>)
    ensures r.Err? ==> r.error == KeyError
    ensures r.Ok? ==> |r.value| <= |messages|
  {
    if messages == [] then Ok([])
    else
      var m := messages[0];
      if "role" !in m then Err(KeyError)
      else if m["role"] != role then Contents(messages[1..], role)
      else if "content" !in m then Err(KeyError)
      else
        match Contents(messages[1..], role)
        case Err(e) => Err(e)
        case Ok(rest) => Ok([m["content"]] + rest)
  }

  /** Every message has a role, and every message of `role` has content. */
  predicate Readable(messages: seq<ChatMessage>, role: string) {
    forall k :: 0 <= k < |messages| ==>
      "role" in messages[k] && (messages[k]["role"] == role ==> "content" in messages[k])
  }

  /** The index of the first message of `role`. */
  function FirstWith(messages: seq<ChatMessage>, role: string): (r: Option<nat>)
    ensures r.Some? ==> r.value < |messages| && "role" in messages[r.value] && messages[r.value]["role"] == role
    ensures r.Some? ==> forall k :: 0 <= k < r.value ==> !("role" in messages[k] && messages[k]["role"] == role)
    ensures r.None? ==> forall k :: 0 <= k < |messages| ==> !("role" in messages[k] && messages[k]["role"] == role)
  {
    if messages == [] then None
    else if "role" in messages[0] && messages[0]["role"] == role then Some(0)
    else
      match FirstWith(messages[1..], role)
      case None =>
        assert forall k :: 1 <= k < |messages| ==> messages[k] == messages[1..][k - 1];
        None
      case Some(k) =>
        assert forall j :: 1 <= j < |messages| ==> messages[j] == messages[1..][j - 1];
        Some(k + 1)
  }

  /** The comprehension fails exactly on an unreadable conversation; when
      it succeeds its first element is the content of the first message
      of that role, and it is empty exactly when there is none. */
  lemma {:induction false} ContentsSpec(messages: seq<ChatMessage>, role: string)
    ensures Contents(messages, role).Ok? <==> Readable(messages, role)
    ensures Contents(messages, role).Ok? ==>
      match FirstWith(messages, role)
      case None => Contents(messages, role).value == []
      case Some(k) => Contents(messages, role).value != [] && Contents(messages, role).value[0] == messages[k]["content"]
  {
    if messages != [] {
      ContentsSpec(messages[1..], role);
      assert forall k :: 1 <= k < |messages| ==> messages[k] == messages[1..][k - 1];
      if !Readable(messages[1..], role) {
        var k :| 0 <= k < |messages[1..]| && !("role" in messages[1..][k] && (messages[1..][k]["role"] == role ==> "content" in messages[1..][k]));
        assert messages[k + 1] == messages[1..][k];
      }
    }
  }

  /** The two layouts of the built-in tokenizers. */
  datatype Format = Vicuna | Alpaca

  /** The text of a conversation in a layout. */
  function Render(format: Format, system: string, user: string, assistant: string): (r: string)
    ensures |r| >= |system| + |user| + |assistant|
    ensures r[|r| - |assistant|..] == assistant
  {
    match format
    case Vicuna => "SYSTEM: " + system + "\n\nUSER: " + user + "\n\nA:" + assistant
    case Alpaca => "### Instruction:\n" + system + "\n\n### Input:\n" + user + "\n\n### Response:" + assistant
  }

  /** The assistant message follows the prompt verbatim, so a completion
      of the prompt with no assistant message continues the same text. */
  lemma RenderExtendsPrompt(format: Format, system: string, user: string, assistant: string)
    ensures Render(format, system, user, assistant) == Render(format, system, user, "") + assistant
  {
  }

  /** Each layout opens with its fixed header, and the assistant text
      lengthens the rendering by exactly its own length. */
  lemma RenderHeader(format: Format, system: string, user: string, assistant: string)
    ensures format == Vicuna ==> Render(format, system, user, assistant)[..8] == "SYSTEM: "
    ensures format == Alpaca ==> Render(format, system, user, assistant)[..17] == "### Instruction:\n"
    ensures |Render(format, system, user, assistant)| == |Render(format, system, user, "")| + |assistant|
  {
  }

  /** `InternalTokenizer(name, fn)`: a name and the layout its `fn` renders. */
  datatype Tokenizer = InternalTokenizer(name: string, format: Format)

  /** `tokenizer_internal`. */
  const TokenizerInternal: map<string, Tokenizer> :=
    map["internal:vicuna" := InternalTokenizer("vicuna", Vicuna),
        "internal:alpaca" := InternalTokenizer("alpaca", Alpaca)]

  /** `apply_chat_template`: the first system message or the default, the
      first user message (`user[0]` raises `IndexError` when there is
      none) and the first assistant message or "". */
  function ApplyChatTemplate(t: Tokenizer, messages: seq<ChatMessage>): (r: Result<string>)
    ensures r.Err? ==> r.error == KeyError || r.error == IndexError
    ensures messages == [] ==> r == Err(IndexError)
  {
    match Contents(messages, "system")
    case Err(e) => Err(e)
    case Ok(system) =>
      match Contents(messages, "user")
      case Err(e) => Err(e)
      case Ok(user) =>
        match Contents(messages, "assistant")
        case Err(e) => Err(e)
        case Ok(assistant) =>
          if user == [] then Err(IndexError)
          else
            Ok(Render(t.format,
                      if |system| == 0 then DefaultSystem else system[0],
                      user[0],
                      if |assistant| == 0 then "" else assistant[0]))
  }

  /** The content of the first message of `role`, or `default`. */
  function FirstContent(messages: seq<ChatMessage>, role: string, default: string): string
    requires Readable(messages, role)
  {
    match FirstWith(messages, role)
    case None => default
    case Some(k) => messages[k]["content"]
  }

  /** On a readable conversation with a user message, the template renders
      the first system message (or the default), the first user message
      and the first assistant message (or ""); without a user message it
      raises `IndexError`; an unreadable conversation raises `KeyError`. */
  lemma ApplyChatTemplateSpec(t: Tokenizer, messages: seq<ChatMessage>)
    ensures var readable := Readable(messages, "system") && Readable(messages, "user") && Readable(messages, "assistant");
      && (!readable ==> ApplyChatTemplate(t, messages) == Err(KeyError))
      && (readable && FirstWith(messages, "user").None? ==> ApplyChatTemplate(t, messages) == Err(IndexError))
      && (readable && FirstWith(messages, "user").Some? ==>
            ApplyChatTemplate(t, messages) == Ok(Render(t.format,
              FirstContent(messages, "system", DefaultSystem),
              FirstContent(messages, "user", ""),
              FirstContent(messages, "assistant", ""))))
  {
    ContentsSpec(messages, "system");
    ContentsSpec(messages, "user");
    ContentsSpec(messages, "assistant");
  }

  /** What `build_tokenizer` returns: nothing, a built-in tokenizer, or a
      pretrained one loaded by name. */
  datatype Built = NoTokenizer | Internal(tokenizer: Tokenizer) | Pretrained(name: string)

  /** `build_tokenizer(tokenizer_name)`. */
  function BuildTokenizer(name: Option<string>): (r: Built)
    ensures name.None? <==> r == NoTokenizer
    ensures name.Some? && name.value in TokenizerInternal ==> r == Internal(TokenizerInternal[name.value])
    ensures name.Some? && name.value !in TokenizerInternal ==> r == Pretrained(name.value)
  {
    match name
    case None => NoTokenizer
    case Some(n) => if n in TokenizerInternal then Internal(TokenizerInternal[n]) else Pretrained(n)
  }

  /** The two built-in names give the vicuna and alpaca layouts. */
  lemma BuiltInFormats()
    ensures BuildTokenizer(Some("internal:vicuna")) == Internal(InternalTokenizer("vicuna", Vicuna))
    ensures BuildTokenizer(Some("internal:alpaca")) == Internal(InternalTokenizer("alpaca", Alpaca))
    ensures BuildTokenizer(Some("vicuna")) == Pretrained("vicuna")
  {
  }
}
