/** `ask_gemini_agent` (app.py:114-151) and the module-level key it checks
    (app.py:15-19). The generative-model service is a parameter: a function
    from the sanitized log to its reply or the exception it raised; the
    prompt template wrapped around the log belongs to the service here. */
module Agent {

  /** The name of the secret that holds the key. */
  const SecretName := "GOOGLE_API_KEY"

  /** The key used when no secret is configured. */
  const FallbackKey := "YOUR_LOCAL_KEY_OR_EMPTY"

  /** The placeholder the guard compares the key with. */
  const PlaceholderKey := "YOUR_GEMINI_API_KEY_HERE"

  /** What the function returns instead of asking when the guard fires. */
  const KeyWarning := "⚠️ エラー: " + "ソースコード内の `GOOGLE_API_KEY` に正しいAPIキーを設定してください。"

  /** The start of the text returned when the service raises. */
  const AgentErrorPrefix := "🤖 AI Agent Error: "

  /** The service's answer text, or the exception's message. */
  datatype ServiceReply = Answer(text: string) | ServiceFailure(message: string)

  /** The key read at start-up: the configured secret, or the fallback.
      Only a configured secret equal to the placeholder yields the key the
      guard of `AskAgent` looks for. */
  function ConfiguredKey(secrets: map<string, string>): (key: string)
    ensures SecretName in secrets ==> key == secrets[SecretName]
    ensures key == PlaceholderKey <==> SecretName in secrets && secrets[SecretName] == PlaceholderKey
  {
    assert FallbackKey[5] != PlaceholderKey[5];
    if SecretName in secrets then secrets[SecretName] else FallbackKey
  }

  /** The error text cannot be mistaken for the key warning. */
  lemma ErrorIsNotWarning(message: string)
    ensures AgentErrorPrefix + message != KeyWarning
  {
    assert (AgentErrorPrefix + message)[0] == AgentErrorPrefix[0] == '\U{1F916}';
    assert KeyWarning[0] == '\U{26A0}';
  }

  /** The `try` block: the service's answer text, or the error text carrying
      the exception's message; a failure is never passed on as a raise, and
      its text is never the key warning. */
  function Consult(log: string, service: string -> ServiceReply): (reply: string)
    ensures service(log).Answer? ==> reply == service(log).text
    ensures service(log).ServiceFailure? ==>
      && AgentErrorPrefix <= reply
      && reply[|AgentErrorPrefix|..] == service(log).message
      && reply != KeyWarning
  {
    match service(log)
    case Answer(text) => text
    case ServiceFailure(message) =>
      ErrorIsNotWarning(message);
      AgentErrorPrefix + message
  }

  /** `ask_gemini_agent`: the key warning when the key is the placeholder,
      otherwise whatever the service gives back, with an exception turned
      into the error text. The caller sees the key warning exactly when the
      guard fired or the service itself answered with that text. */
  function AskAgent(key: string, log: string, service: string -> ServiceReply): (reply: string)
    ensures key != PlaceholderKey ==> reply == Consult(log, service)
    ensures reply == KeyWarning <==> key == PlaceholderKey || service(log) == Answer(KeyWarning)
  {
    if key == PlaceholderKey then KeyWarning else Consult(log, service)
  }

  /** A deployment without the secret passes the guard: the fallback key is
      not the placeholder the guard looks for, so the service is consulted
      with it, and the key warning comes back only if the service itself
      answers with that text (a rejected key comes back as an agent error). */
  lemma GuardMissesFallback(secrets: map<string, string>, log: string, service: string -> ServiceReply)
    requires SecretName !in secrets
    ensures AskAgent(ConfiguredKey(secrets), log, service) == Consult(log, service)
    ensures AskAgent(ConfiguredKey(secrets), log, service) == KeyWarning ==> service(log) == Answer(KeyWarning)
  {
  }
}
