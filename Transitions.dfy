/**
 * Each controller of the script as a function from the state before the
 * event to the state after it, given how its request(s) ended. A request
 * that the local checks prevent is never consulted. The `App` class runs
 * the same steps in place; the lemmas here state what the controllers
 * promise.
 */
module Transitions {
  import opened Wrappers
  import opened Text
  import opened Validation
  import opened State

  const InvalidEmailMessage := "Please enter a valid organization email"
  const CodeSentMessage := "Verification code sent to your email"
  const SendCodeFailedMessage := "Failed to send verification code. Please try again."
  const InvalidCodeMessage := "Please enter a valid 6-digit code"
  const AuthSuccessMessage := "Authentication successful!"
  const VerifyFailedMessage := "Verification failed. Please try again."
  const ChatErrorMessage := "Sorry, I encountered an error. Please try again."

  // ---------------------------------------------------------------------
  // Small steps shared by the controllers
  // ---------------------------------------------------------------------

  function ShowAuthStatus(s: AppState, message: string, kind: StatusKind): AppState {
    s.(authStatus := Some(AuthStatus(message, kind)))
  }

  function ShowAuthModal(s: AppState): AppState {
    s.(view := AuthView)
  }

  function ShowMainApp(s: AppState): AppState {
    s.(view := MainView)
  }

  function ClearChat(s: AppState): AppState {
    s.(chat := [Greeting], messageCount := 0, totalResponseTime := 0)
  }

  function ResetAuthForm(s: AppState): AppState {
    s.(emailInput := "", codeInput := "", loginActive := true, verifyActive := false, authStatus := None)
  }

  /** `addMessageToChat`: appends the message; only a user message is counted. */
  function AddMessageToChat(s: AppState, text: string, sender: Sender, meta: Option<Meta>): AppState {
    s.(chat := s.chat + [ChatMessage(text, sender, meta)],
       messageCount := if sender == User then s.messageCount + 1 else s.messageCount)
  }

  /** `updateStatistics`, accumulation part. */
  function UpdateStatistics(s: AppState, responseTime: nat): AppState {
    s.(totalResponseTime := s.totalResponseTime + responseTime)
  }

  // ---------------------------------------------------------------------
  // Controllers
  // ---------------------------------------------------------------------

  /** The `/user-info` reply signs the user in: ok and status `success`. */
  predicate UserInfoAccepted(reply: Outcome<UserInfoBody>) {
    reply.Reply? && reply.ok && reply.data.status == "success"
  }

  /** `checkExistingAuth`. */
  function CheckExistingAuth(s: AppState, reply: Outcome<UserInfoBody>): AppState {
    if UserInfoAccepted(reply) then ShowMainApp(s.(authenticated := true, user := reply.data.user))
    else ShowAuthModal(s)
  }

  /** `initiate2FA`; `reply` is the `/initiate-auth` outcome, consulted only
      when the e-mail passes the local check. */
  function Initiate2FA(s: AppState, reply: Outcome<StatusBody>): AppState {
    if !EmailAccepted(s.emailInput) then ShowAuthStatus(s, InvalidEmailMessage, Error)
    else
      match reply
      case Thrown => ShowAuthStatus(s, SendCodeFailedMessage, Error)
      case Reply(_, data) =>
        if data.status == "success" then
          ShowAuthStatus(s.(sentTo := Trim(s.emailInput), loginActive := false, verifyActive := true),
                         CodeSentMessage, Success)
        else ShowAuthStatus(s, data.message, Error)
  }

  /** `verify2FACode`, with its one-second timer taken as immediate;
      `followUp` is the outcome of the `checkExistingAuth` the timer runs. */
  function Verify2FACode(s: AppState, reply: Outcome<StatusBody>, followUp: Outcome<UserInfoBody>): AppState {
    if !CodeAccepted(s.codeInput) then ShowAuthStatus(s, InvalidCodeMessage, Error)
    else
      match reply
      case Thrown => ShowAuthStatus(s, VerifyFailedMessage, Error)
      case Reply(_, data) =>
        if data.status == "success" then
          var signedIn := ShowMainApp(ShowAuthStatus(s, AuthSuccessMessage, Success).(authenticated := true));
          CheckExistingAuth(signedIn, followUp)
        else ShowAuthStatus(s, data.message, Error)
  }

  /** `backToEmail`. */
  function BackToEmail(s: AppState): AppState {
    s.(verifyActive := false, loginActive := true, authStatus := None)
  }

  /** `logout`: the request's outcome is never inspected, so it is no
      parameter here; the `finally` block always runs. */
  function Logout(s: AppState): AppState {
    ResetAuthForm(ClearChat(ShowAuthModal(s.(authenticated := false, user := None))))
  }

  /** The `/chat` reply counts as an answer when its status is `success`
      (`response.ok` is not consulted). */
  predicate ChatSucceeded(reply: Outcome<ChatBody>) {
    reply.Reply? && reply.data.status == "success"
  }

  /** The bot message `sendMessage` appends for an outcome: the answer with
      its metadata, the error the server reported, or the apology shown
      when the request threw. */
  function BotReply(reply: Outcome<ChatBody>): (m: ChatMessage)
    ensures m.sender == Bot
    ensures m.meta.Some? <==> ChatSucceeded(reply)
    ensures reply.Thrown? ==> m.text == ChatErrorMessage
    ensures reply.Reply? && !ChatSucceeded(reply) ==> m.text == "Error: " + reply.data.message
    ensures ChatSucceeded(reply) ==>
              m.text == reply.data.response
              && m.meta == Some(Meta(reply.data.confidence, reply.data.category, reply.data.processingTime))
  {
    match reply
    case Thrown => ChatMessage(ChatErrorMessage, Bot, None)
    case Reply(_, data) =>
      if data.status == "success" then
        ChatMessage(data.response, Bot, Some(Meta(data.confidence, data.category, data.processingTime)))
      else ChatMessage("Error: " + data.message, Bot, None)
  }

  /** `sendMessage`; `responseTime` is the measured `Date.now()` difference. */
  function SendMessage(s: AppState, reply: Outcome<ChatBody>, responseTime: nat): AppState {
    var message := Trim(s.chatInput);
    if message == [] then s
    else
      var sent := AddMessageToChat(s, message, User, None).(chatInput := "");
      var bot := BotReply(reply);
      var answered := AddMessageToChat(sent, bot.text, Bot, bot.meta);
      if ChatSucceeded(reply) then UpdateStatistics(answered, responseTime) else answered
  }

  // ---------------------------------------------------------------------
  // The invariant
  // ---------------------------------------------------------------------

  lemma CheckExistingAuthKeepsInv(s: AppState, reply: Outcome<UserInfoBody>)
    requires Inv(s)
    ensures Inv(CheckExistingAuth(s, reply))
  {
  }

  lemma Initiate2FAKeepsInv(s: AppState, reply: Outcome<StatusBody>)
    requires Inv(s)
    ensures Inv(Initiate2FA(s, reply))
  {
  }

  lemma Verify2FACodeKeepsInv(s: AppState, reply: Outcome<StatusBody>, followUp: Outcome<UserInfoBody>)
    requires Inv(s)
    ensures Inv(Verify2FACode(s, reply, followUp))
  {
  }

  lemma BackToEmailKeepsInv(s: AppState)
    requires Inv(s)
    ensures Inv(BackToEmail(s))
  {
  }

  lemma LogoutKeepsInv(s: AppState)
    ensures Inv(Logout(s))
  {
  }

  lemma {:induction false} SendMessageKeepsInv(s: AppState, reply: Outcome<ChatBody>, responseTime: nat)
    requires Inv(s)
    ensures Inv(SendMessage(s, reply, responseTime))
  {
  }

  // ---------------------------------------------------------------------
  // checkExistingAuth
  // ---------------------------------------------------------------------

  /** Only an ok reply with status `success` signs the user in and takes
      `data.user`; every other outcome only shows the auth modal. */
  lemma CheckExistingAuthOnlyOnSuccess(s: AppState, reply: Outcome<UserInfoBody>)
    ensures UserInfoAccepted(reply) ==>
      var r := CheckExistingAuth(s, reply);
      r.authenticated && r.user == reply.data.user && r.view == MainView
      && r.(authenticated := s.authenticated, user := s.user, view := s.view) == s
    ensures !UserInfoAccepted(reply) ==> CheckExistingAuth(s, reply) == s.(view := AuthView)
  {
  }

  /** Page load runs the check twice (`initializeApp` and the
      `DOMContentLoaded` handler), as two independent requests; applied in
      the order they complete, the later one decides the view, while a
      sign-in by either one persists. A success followed by a failure thus
      leaves a signed-in user behind the auth modal. */
  lemma PageLoadChecks(r1: Outcome<UserInfoBody>, r2: Outcome<UserInfoBody>)
    ensures
      var r := CheckExistingAuth(CheckExistingAuth(Initial, r1), r2);
      r.authenticated == (UserInfoAccepted(r1) || UserInfoAccepted(r2))
      && r.user == (if UserInfoAccepted(r2) then r2.data.user
                    else if UserInfoAccepted(r1) then r1.data.user else None)
      && r.view == (if UserInfoAccepted(r2) then MainView else AuthView)
      && r.(authenticated := false, user := None, view := AuthView) == Initial
  {
  }

  /** Repeating the check with the same outcome changes nothing more. */
  lemma CheckExistingAuthIdempotent(s: AppState, reply: Outcome<UserInfoBody>)
    ensures CheckExistingAuth(CheckExistingAuth(s, reply), reply) == CheckExistingAuth(s, reply)
  {
  }

  // ---------------------------------------------------------------------
  // initiate2FA
  // ---------------------------------------------------------------------

  /** A trimmed e-mail that is empty or fails the pattern issues no request
      (the outcome is irrelevant) and only shows the error status. */
  lemma Initiate2FARefusesLocally(s: AppState, r1: Outcome<StatusBody>, r2: Outcome<StatusBody>)
    requires !IsValidEmail(Trim(s.emailInput))
    ensures Initiate2FA(s, r1) == Initiate2FA(s, r2)
    ensures Initiate2FA(s, r1) == s.(authStatus := Some(AuthStatus(InvalidEmailMessage, Error)))
  {
  }

  /** The form moves from the login step to the verify step only on a
      `success` reply to a request that was made, and then shows the
      trimmed address; the session and the chat are never touched. */
  lemma Initiate2FAAdvancesOnlyOnSuccess(s: AppState, reply: Outcome<StatusBody>)
    ensures
      var r := Initiate2FA(s, reply);
      var advanced := EmailAccepted(s.emailInput) && reply.Reply? && reply.data.status == "success";
      (advanced ==> r.verifyActive && !r.loginActive && r.sentTo == Trim(s.emailInput)
                    && r.authStatus == Some(AuthStatus(CodeSentMessage, Success))
                    && r.(sentTo := s.sentTo, loginActive := s.loginActive, verifyActive := s.verifyActive,
                          authStatus := s.authStatus) == s)
      && (!advanced ==> r.authStatus.Some? && r.authStatus.value.kind == Error
                        && r.(authStatus := s.authStatus) == s)
  {
  }

  /** Unlike `checkExistingAuth`, `initiate2FA` reads only the body:
      `response.ok` makes no difference. */
  lemma Initiate2FAIgnoresHttpStatus(s: AppState, data: StatusBody)
    ensures Initiate2FA(s, Reply(true, data)) == Initiate2FA(s, Reply(false, data))
  {
  }

  // ---------------------------------------------------------------------
  // verify2FACode
  // ---------------------------------------------------------------------

  /** A trimmed code whose length is not 6 issues no request and changes
      nothing but the status line. */
  lemma Verify2FARefusesLocally(s: AppState, r1: Outcome<StatusBody>, f1: Outcome<UserInfoBody>,
                                r2: Outcome<StatusBody>, f2: Outcome<UserInfoBody>)
    requires |Trim(s.codeInput)| != 6
    ensures Verify2FACode(s, r1, f1) == Verify2FACode(s, r2, f2)
    ensures Verify2FACode(s, r1, f1) == s.(authStatus := Some(AuthStatus(InvalidCodeMessage, Error)))
  {
  }

  /** A thrown request or a reply other than `success` leaves everything
      but the status line as it was. */
  lemma Verify2FAFailureChangesOnlyStatus(s: AppState, reply: Outcome<StatusBody>, followUp: Outcome<UserInfoBody>)
    requires !(reply.Reply? && reply.data.status == "success")
    ensures
      var r := Verify2FACode(s, reply, followUp);
      r.authStatus.Some? && r.authStatus.value.kind == Error && r.(authStatus := s.authStatus) == s
  {
  }

  /** A `success` reply to an accepted code signs the user in for good; the
      user and the view then come from the follow-up check, so a failed
      follow-up leaves the user signed in with the auth modal shown. */
  lemma Verify2FASuccessSignsIn(s: AppState, ok: bool, data: StatusBody, followUp: Outcome<UserInfoBody>)
    requires CodeAccepted(s.codeInput) && data.status == "success"
    ensures
      var r := Verify2FACode(s, Reply(ok, data), followUp);
      r.authenticated
      && r.user == (if UserInfoAccepted(followUp) then followUp.data.user else s.user)
      && r.view == (if UserInfoAccepted(followUp) then MainView else AuthView)
      && r.authStatus == Some(AuthStatus(AuthSuccessMessage, Success))
      && r.(authenticated := s.authenticated, user := s.user, view := s.view, authStatus := s.authStatus) == s
  {
  }

  // ---------------------------------------------------------------------
  // backToEmail and logout
  // ---------------------------------------------------------------------

  /** `backToEmail` always shows the login step and hides the status; the
      fields keep what was typed. */
  lemma BackToEmailReturnsToLogin(s: AppState)
    ensures
      var r := BackToEmail(s);
      r.loginActive && !r.verifyActive && r.authStatus.None?
      && r.(loginActive := s.loginActive, verifyActive := s.verifyActive, authStatus := s.authStatus) == s
  {
  }

  /** After `logout` the session, the statistics, the chat and the auth form
      are reset, whatever the state was; only the chat input and the address
      shown on the verify step are kept. */
  lemma LogoutResets(s: AppState)
    ensures
      var r := Logout(s);
      !r.authenticated && r.user.None? && r.messageCount == 0 && r.totalResponseTime == 0
      && r.loginActive && !r.verifyActive && r.authStatus.None? && r.view == AuthView
      && r.emailInput == "" && r.codeInput == "" && r.chat == [Greeting]
    ensures Logout(s) == Initial.(chatInput := s.chatInput, sentTo := s.sentTo)
  {
  }

  /** Two states that differ in anything but the chat input and the address
      shown on the verify step, which `logout` leaves alone, log out to the
      same state. */
  lemma LogoutForgetsEverything(s: AppState, t: AppState)
    requires s.chatInput == t.chatInput && s.sentTo == t.sentTo
    ensures Logout(s) == Logout(t)
  {
  }

  lemma LogoutIdempotent(s: AppState)
    ensures Logout(Logout(s)) == Logout(s)
  {
  }

  // ---------------------------------------------------------------------
  // sendMessage
  // ---------------------------------------------------------------------

  /** An empty or white-space-only input changes nothing, the input field
      included. */
  lemma BlankSendChangesNothing(s: AppState, reply: Outcome<ChatBody>, responseTime: nat)
    requires AllWhitespace(s.chatInput)
    ensures SendMessage(s, reply, responseTime) == s
  {
  }

  /** Otherwise the trimmed text is appended as one user message, counted
      once, then exactly one bot message follows; only a `success` reply
      adds the measured time, and the input is cleared. */
  lemma SendAppendsOneExchange(s: AppState, reply: Outcome<ChatBody>, responseTime: nat)
    requires !AllWhitespace(s.chatInput)
    ensures
      var r := SendMessage(s, reply, responseTime);
      |r.chat| == |s.chat| + 2 && r.chat[..|s.chat|] == s.chat
      && r.chat[|s.chat|] == ChatMessage(Trim(s.chatInput), User, None)
      && r.chat[|s.chat| + 1] == BotReply(reply)
      && r.messageCount == s.messageCount + 1
      && r.totalResponseTime == s.totalResponseTime + (if ChatSucceeded(reply) then responseTime else 0)
      && r.chatInput == ""
      && r.(chat := s.chat, messageCount := s.messageCount, totalResponseTime := s.totalResponseTime,
            chatInput := s.chatInput) == s
  {
  }

  /** A bot message never changes the message count. */
  lemma BotMessagesAreNotCounted(s: AppState, text: string, meta: Option<Meta>)
    ensures AddMessageToChat(s, text, Bot, meta).messageCount == s.messageCount
  {
  }

  // ---------------------------------------------------------------------
  // Runs of sends
  // ---------------------------------------------------------------------

  /** One send: what was typed, how the request ended, the time it took. */
  datatype Send = Send(input: string, reply: Outcome<ChatBody>, responseTime: nat)

  /** The user types each input in turn and sends it; each reply arrives
      before the next send. */
  function RunSends(s: AppState, sends: seq<Send>): AppState
    decreases |sends|
  {
    if sends == [] then s
    else RunSends(SendMessage(s.(chatInput := sends[0].input), sends[0].reply, sends[0].responseTime), sends[1..])
  }

  /** Sum of the measured times of the answered sends. */
  function AnsweredTime(sends: seq<Send>): nat {
    if sends == [] then 0
    else (if ChatSucceeded(sends[0].reply) then sends[0].responseTime else 0) + AnsweredTime(sends[1..])
  }

  /** After N non-blank sends the count has grown by N, the chat by 2N
      messages, and the total time by the sum of the answered sends' times
      (failed and thrown requests add nothing). */
  lemma {:induction false} RunAccounting(s: AppState, sends: seq<Send>)
    requires forall k :: 0 <= k < |sends| ==> !AllWhitespace(sends[k].input)
    ensures RunSends(s, sends).messageCount == s.messageCount + |sends|
    ensures RunSends(s, sends).totalResponseTime == s.totalResponseTime + AnsweredTime(sends)
    ensures |RunSends(s, sends).chat| == |s.chat| + 2 * |sends|
    decreases |sends|
  {
    if sends != [] {
      var t := s.(chatInput := sends[0].input);
      SendAppendsOneExchange(t, sends[0].reply, sends[0].responseTime);
      RunAccounting(SendMessage(t, sends[0].reply, sends[0].responseTime), sends[1..]);
    }
  }

  /** Right after a logout, N non-blank sends leave `messageCount == N` and
      `totalResponseTime` equal to the sum of the answered sends' times. */
  lemma {:induction false} FreshSessionAccounting(s: AppState, sends: seq<Send>)
    requires forall k :: 0 <= k < |sends| ==> !AllWhitespace(sends[k].input)
    ensures RunSends(Logout(s), sends).messageCount == |sends|
    ensures RunSends(Logout(s), sends).totalResponseTime == AnsweredTime(sends)
  {
    RunAccounting(Logout(s), sends);
  }

  lemma {:induction false} RunKeepsInv(s: AppState, sends: seq<Send>)
    requires Inv(s)
    ensures Inv(RunSends(s, sends))
    decreases |sends|
  {
    if sends != [] {
      var t := s.(chatInput := sends[0].input);
      SendMessageKeepsInv(t, sends[0].reply, sends[0].responseTime);
      RunKeepsInv(SendMessage(t, sends[0].reply, sends[0].responseTime), sends[1..]);
    }
  }

  // ---------------------------------------------------------------------
  // The two-step login
  // ---------------------------------------------------------------------

  /** From page load, `a@corp.com` is accepted and a `success` reply moves
      the form to the verify step, which shows that address. */
  lemma {:induction false} LoginScenarioSendsCode(ok: bool, msg: string)
    ensures
      var r := Initiate2FA(Initial.(emailInput := "a@corp.com"), Reply(ok, StatusBody("success", msg)));
      r.verifyActive && !r.loginActive && r.sentTo == "a@corp.com"
  {
    var e := "a@corp.com";
    TrimOfTrimmed(e);
    CorporateAddressAccepted();
    assert EmailAccepted(e);
  }

  /** The code `123456` of the same scenario passes the local check, so a
      `success` reply to it signs the user in (`Verify2FASuccessSignsIn`). */
  lemma {:induction false} LoginScenarioCodeAccepted()
    ensures CodeAccepted("123456")
  {
  }
}
