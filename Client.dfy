/**
 * The request lines the console client writes (app/src/ChatClient.java) and
 * the checks it makes on the relay's replies, tied to the relay's decoders.
 */
module Client {
  import opened JavaString
  import opened Protocol

  function LoginLine(username: string, password: string): string
  {
    "LOGIN " + username + " " + password
  }

  function RegisterLine(username: string, password: string): string
  {
    "REGISTER " + username + " " + password
  }

  function PublicLine(text: string): string
  {
    "PUBLIC " + text
  }

  function PrivateLine(recipient: string, text: string): string
  {
    "PRIVATE " + recipient + " " + text
  }

  /** `"SUCCESS".equals(response)` */
  predicate LoginSucceeded(response: string)
  {
    response == "SUCCESS"
  }

  /** `"REGISTRATION SUCCESS".equals(response)` */
  predicate RegistrationSucceeded(response: string)
  {
    response == "REGISTRATION SUCCESS"
  }

  /**
   * The request lines startClient sends before the message loop: choice 1
   * logs in; choice 2 registers and, unless the reply reports a failure
   * (the client then exits), logs in; any other choice sends nothing.
   */
  function StartupRequests(choice: int, newUsername: string, newPassword: string,
                           registerResponse: string, username: string, password: string): seq<string>
  {
    if choice == 1 then [LoginLine(username, password)]
    else if choice == 2 then
      [RegisterLine(newUsername, newPassword)]
      + (if RegistrationSucceeded(registerResponse) then [LoginLine(username, password)] else [])
    else []
  }

  /** The relay decodes a login line into the same credentials when neither holds a space. */
  lemma {:induction false} LoginRoundTrip(username: string, password: string)
    requires SpaceFree(username) && SpaceFree(password) && password != ""
    ensures DecodeHandshake(LoginLine(username, password)) == Login(username, password)
  {
    assert SpaceFree("LOGIN");
    assert LoginLine(username, password) == "LOGIN" + " " + username + " " + password;
    SplitOfThree("LOGIN", username, password);
  }

  /** An empty password leaves split(" ") two fields: the relay's handler crashes. */
  lemma {:induction false} EmptyPasswordLoginCrashes(username: string)
    requires SpaceFree(username)
    ensures DecodeHandshake(LoginLine(username, "")) == HandshakeCrash
  {
    var line := LoginLine(username, "");
    var ws := ["LOGIN", username, ""];
    assert SpaceFree("LOGIN");
    assert line == "LOGIN" + " " + username + " " + "";
    JoinThree("LOGIN", username, "");
    assert forall k :: 0 <= k < |ws| ==> SpaceFree(ws[k]);
    FieldsOfJoin(ws);
    assert line[5] == ' ';
    var p := DropTrailingEmpty(ws);
    assert p == Split(line);
    assert ws[2] == "";
    assert |p| < 3;
    assert ws[0] != "";
    assert p != [];
  }

  /** The relay decodes a register line into the same credentials when neither holds a space. */
  lemma {:induction false} RegisterRoundTrip(username: string, password: string)
    requires SpaceFree(username) && SpaceFree(password) && password != ""
    ensures DecodeHandshake(RegisterLine(username, password)) == Register(username, password)
  {
    assert SpaceFree("REGISTER");
    assert RegisterLine(username, password) == "REGISTER" + " " + username + " " + password;
    SplitOfThree("REGISTER", username, password);
  }

  /**
   * A public line is broadcast with everything after "PUBLIC " as its text,
   * provided that text holds a space; otherwise the relay's handler crashes.
   */
  lemma {:induction false} PublicRoundTrip(text: string)
    ensures DecodeChat(PublicLine(text)) == if ' ' in text then Public(text) else ChatCrash
  {
    var line := PublicLine(text);
    assert line == "PUBLIC" + " " + text;
    FirstSpaceAfterWord("PUBLIC", text);
    if ' ' in text {
      var j := FirstSpace(text);
      assert text == text[..j] + " " + text[j + 1..];
    }
  }

  /** A private line to a recipient without spaces comes back as that recipient and the verbatim text. */
  lemma {:induction false} PrivateRoundTrip(recipient: string, text: string)
    requires SpaceFree(recipient)
    ensures DecodeChat(PrivateLine(recipient, text)) == Private(recipient, text)
  {
    assert PrivateLine(recipient, text) == "PRIVATE" + " " + recipient + " " + text;
    Split3OfWords("PRIVATE", recipient, text);
  }

  /** The client's success checks accept the relay's success replies and nothing else it sends. */
  lemma ReplyChecksAgree(ok: bool)
    ensures LoginSucceeded(LoginReply(ok)) <==> ok
    ensures RegistrationSucceeded(RegisterReply(ok)) <==> ok
  {
  }

  /**
   * The menu's shape for any input: one line for choice 1, one or two for
   * choice 2 (a second, the login, only after a success reply), none otherwise.
   */
  lemma StartupShape(choice: int, newUsername: string, newPassword: string,
                     registerResponse: string, username: string, password: string)
    ensures var r := StartupRequests(choice, newUsername, newPassword, registerResponse, username, password);
            && (choice == 1 ==> |r| == 1)
            && (choice == 2 ==> |r| == if RegistrationSucceeded(registerResponse) then 2 else 1)
            && (choice != 1 && choice != 2 ==> r == [])
            && (|r| == 2 ==> choice == 2 && RegistrationSucceeded(registerResponse))
  {
  }

  /** What the relay's handshake decoder makes of the start-up requests. */
  lemma {:induction false} StartupDecoded(choice: int, newUsername: string, newPassword: string,
                       registerResponse: string, username: string, password: string)
    requires SpaceFree(newUsername) && SpaceFree(newPassword) && newPassword != ""
    requires SpaceFree(username) && SpaceFree(password) && password != ""
    ensures var r := StartupRequests(choice, newUsername, newPassword, registerResponse, username, password);
            && (choice == 1 ==> |r| == 1 && DecodeHandshake(r[0]) == Login(username, password))
            && (choice == 2 ==>
                  && |r| == (if RegistrationSucceeded(registerResponse) then 2 else 1)
                  && DecodeHandshake(r[0]) == Register(newUsername, newPassword)
                  && (|r| == 2 ==> DecodeHandshake(r[1]) == Login(username, password)))
            && (choice != 1 && choice != 2 ==> r == [])
  {
    LoginRoundTrip(username, password);
    RegisterRoundTrip(newUsername, newPassword);
  }
}
