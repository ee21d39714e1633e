/**
 * The relay's side of the line protocol (app/src/ChatServer.java): how the
 * handshake loop and the message loop take an input line apart, and the
 * exact text of every line the relay writes.
 */
module Protocol {
  import opened Wrappers
  import opened JavaString

  /** What one line means to the handshake loop, which splits it with split(" "). */
  datatype HandshakeRequest =
    | Register(username: string, password: string)
    | Login(username: string, password: string)
    | UnknownKeyword                 // silently skipped
    | HandshakeCrash                 // a missing field: the handler thread dies

  /** What one line means to the message loop, which splits it with split(" ", 3). */
  datatype ChatRequest =
    | Public(text: string)           // the text after "PUBLIC "
    | Private(recipient: string, body: string)
    | OtherLine                      // silently skipped
    | ChatCrash                      // a missing field: the handler thread dies

  /**
   * The handshake loop's reading of a line: credentials are the second and
   * third pieces of split(" "), so neither holds a space.
   */
  function DecodeHandshake(line: string): (r: HandshakeRequest)
    ensures r.Register? ==> FirstWord(line) == "REGISTER" && SpaceFree(r.username) && SpaceFree(r.password)
    ensures r.Login? ==> FirstWord(line) == "LOGIN" && SpaceFree(r.username) && SpaceFree(r.password)
    ensures r == UnknownKeyword ==> FirstWord(line) != "REGISTER" && FirstWord(line) != "LOGIN"
  {
    var parts := Split(line);
    if |parts| == 0 then HandshakeCrash
    else if parts[0] == "REGISTER" then
      if |parts| < 3 then HandshakeCrash else Register(parts[1], parts[2])
    else if parts[0] == "LOGIN" then
      if |parts| < 3 then HandshakeCrash else Login(parts[1], parts[2])
    else UnknownKeyword
  }

  /**
   * The message loop's reading of a line: the keyword is the first word, and
   * a recipient is the second piece of split(" ", 3), so it holds no space.
   */
  function DecodeChat(line: string): (r: ChatRequest)
    ensures r.Public? ==> FirstWord(line) == "PUBLIC"
    ensures r.Private? ==> FirstWord(line) == "PRIVATE" && SpaceFree(r.recipient)
    ensures r == OtherLine ==> FirstWord(line) != "PUBLIC" && FirstWord(line) != "PRIVATE"
  {
    var parts := Split3(line);
    if parts[0] == "PUBLIC" then
      if |parts| < 3 then ChatCrash else Public(parts[1] + " " + parts[2])
    else if parts[0] == "PRIVATE" then
      if |parts| < 3 then ChatCrash else Private(parts[1], parts[2])
    else OtherLine
  }

  // Lines the relay writes.

  const RegistrationSuccess := "REGISTRATION SUCCESS"
  const RegistrationFailed := "REGISTRATION FAILED: Username already taken"
  const LoginSuccess := "SUCCESS"
  const LoginFailed := "FAILED: Invalid username or password"

  function RegisterReply(ok: bool): string
  {
    if ok then RegistrationSuccess else RegistrationFailed
  }

  function LoginReply(ok: bool): string
  {
    if ok then LoginSuccess else LoginFailed
  }

  /** How Java's string concatenation renders a possibly-null username. */
  function NameText(name: Option<string>): string
  {
    match name
    case Some(n) => n
    case None => "null"
  }

  function JoinedLine(username: string): string
  {
    "SERVER: " + username + " has joined the chat!"
  }

  function LeftLine(username: Option<string>): string
  {
    "SERVER: " + NameText(username) + " has left the chat!"
  }

  function PublicRelay(sender: string, text: string): string
  {
    sender + ": " + text
  }

  function PrivateRelay(sender: string, body: string): string
  {
    "PRIVATE " + sender + ": " + body
  }

  function NotFoundLine(recipient: string): string
  {
    "SERVER: User " + recipient + " not found."
  }

  /** A stored private message as deliverStoredMessages hands it on. */
  function StoredText(sender: string, body: string): string
  {
    sender + ": " + body
  }

  /** sendMessageToClientWithColor: the message in green, ANSI colour codes around it. */
  function PreviousLine(message: string): string
  {
    "PREVIOUS MESSAGE: " + "\U{1B}[32m" + message + "\U{1B}[0m"
  }

  // What the decoders accept.

  /**
   * A handshake line made of spaces only leaves split(" ") nothing to index:
   * the handler crashes; the empty line is merely skipped.
   */
  lemma {:induction false} HandshakeCrashes(line: string)
    ensures DecodeHandshake(line) == HandshakeCrash <==>
              ((line != "" && AllSpaces(line))
               || (FirstWord(line) in {"REGISTER", "LOGIN"} && |Split(line)| < 3))
  {
    SplitEmpty(line);
  }

  /** A handshake line whose first word is neither keyword gets no reply. */
  lemma {:induction false} HandshakeSkipsOtherKeywords(line: string)
    requires FirstWord(line) != "REGISTER" && FirstWord(line) != "LOGIN"
    requires line == "" || !AllSpaces(line)
    ensures DecodeHandshake(line) == UnknownKeyword
  {
    SplitEmpty(line);
  }

  /** A bare keyword has no fields: the handler crashes. */
  lemma {:induction false} BareKeywordCrashes()
    ensures DecodeChat("PUBLIC") == ChatCrash
    ensures DecodeChat("PRIVATE") == ChatCrash
  {
    assert ' ' !in "PUBLIC";
    assert ' ' !in "PRIVATE";
  }

  /** PRIVATE with a recipient and no body crashes the handler. */
  lemma {:induction false} PrivateWithoutBodyCrashes(recipient: string)
    requires SpaceFree(recipient)
    ensures DecodeChat("PRIVATE " + recipient) == ChatCrash
  {
    assert "PRIVATE " + recipient == "PRIVATE" + " " + recipient;
    Split3OfTwo("PRIVATE", recipient);
  }

  /** Decoding is exact: a decoded PUBLIC request determines its line. */
  lemma {:induction false} PublicDecodedExactly(line: string)
    requires DecodeChat(line).Public?
    ensures ' ' in DecodeChat(line).text && line == "PUBLIC " + DecodeChat(line).text
  {
    var p := Split3(line);
    JoinOfThree(p);
    assert "PUBLIC" + " " == "PUBLIC ";
    assert (p[1] + " " + p[2])[|p[1]|] == ' ';
  }

  /** Decoding is exact: a decoded PRIVATE request determines its line. */
  lemma {:induction false} PrivateDecodedExactly(line: string)
    requires DecodeChat(line).Private?
    ensures SpaceFree(DecodeChat(line).recipient)
    ensures line == "PRIVATE " + DecodeChat(line).recipient + " " + DecodeChat(line).body
  {
    var p := Split3(line);
    JoinOfThree(p);
    assert "PRIVATE" + " " == "PRIVATE ";
    ConcatAssoc("PRIVATE ", p[1] + " ", p[2]);
    ConcatAssoc("PRIVATE ", p[1], " ");
  }

  /** A line whose first word is neither PUBLIC nor PRIVATE changes nothing. */
  lemma ChatSkipsOtherKeywords(line: string)
    requires FirstWord(line) != "PUBLIC" && FirstWord(line) != "PRIVATE"
    ensures DecodeChat(line) == OtherLine
  {
  }
}
