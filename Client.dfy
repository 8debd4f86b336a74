/**
 * The page's controllers as they run: one object holding `appState` and
 * the page state they touch, updated field by field in the order the
 * script does it. Each controller is proved to end in the state its
 * transition function describes and to keep the invariant.
 */
module Client {
  import opened Wrappers
  import opened Text
  import opened Validation
  import opened State
  import T = Transitions

  class App {
    // `appState`
    var authenticated: bool
    var user: Option<UserInfo>
    var messageCount: nat
    var totalResponseTime: nat
    // the two-step auth form
    var loginActive: bool
    var verifyActive: bool
    var authStatus: Option<AuthStatus>
    var view: View
    // input fields (typing into one is assigning it) and the verify step's address
    var emailInput: string
    var codeInput: string
    var chatInput: string
    var sentTo: string
    // the chat list
    var chat: seq<ChatMessage>

    /** The current state as a value. */
    function Snapshot(): AppState
      reads this
    {
      AppState(authenticated, user, messageCount, totalResponseTime,
               loginActive, verifyActive, authStatus, view,
               emailInput, codeInput, chatInput, sentTo, chat)
    }

    ghost predicate Valid()
      reads this
    {
      Inv(Snapshot())
    }

    /** Page load. */
    constructor ()
      ensures Valid() && Snapshot() == Initial
    {
      authenticated, user, messageCount, totalResponseTime := false, None, 0, 0;
      loginActive, verifyActive, authStatus, view := true, false, None, AuthView;
      emailInput, codeInput, chatInput, sentTo := "", "", "", "";
      chat := [Greeting];
      InitialInv();
    }

    // -------------------------------------------------------------------
    // Small steps
    // -------------------------------------------------------------------

    method ShowAuthStatus(message: string, kind: StatusKind)
      modifies this
      ensures Snapshot() == T.ShowAuthStatus(old(Snapshot()), message, kind)
    {
      authStatus := Some(AuthStatus(message, kind));
    }

    method ShowAuthModal()
      modifies this
      ensures Snapshot() == T.ShowAuthModal(old(Snapshot()))
    {
      view := AuthView;
    }

    method ShowMainApp()
      modifies this
      ensures Snapshot() == T.ShowMainApp(old(Snapshot()))
    {
      view := MainView;
    }

    method ClearChat()
      modifies this
      ensures Snapshot() == T.ClearChat(old(Snapshot()))
    {
      chat := [Greeting];
      messageCount := 0;
      totalResponseTime := 0;
    }

    method ResetAuthForm()
      modifies this
      ensures Snapshot() == T.ResetAuthForm(old(Snapshot()))
    {
      emailInput := "";
      codeInput := "";
      loginActive := true;
      verifyActive := false;
      authStatus := None;
    }

    method AddMessageToChat(text: string, sender: Sender, meta: Option<Meta>)
      modifies this
      ensures Snapshot() == T.AddMessageToChat(old(Snapshot()), text, sender, meta)
    {
      chat := chat + [ChatMessage(text, sender, meta)];
      if sender == User {
        messageCount := messageCount + 1;
      }
    }

    method UpdateStatistics(responseTime: nat)
      modifies this
      ensures Snapshot() == T.UpdateStatistics(old(Snapshot()), responseTime)
    {
      totalResponseTime := totalResponseTime + responseTime;
    }

    // -------------------------------------------------------------------
    // Controllers
    // -------------------------------------------------------------------

    method CheckExistingAuth(reply: Outcome<UserInfoBody>)
      requires Valid()
      modifies this
      ensures Valid() && Snapshot() == T.CheckExistingAuth(old(Snapshot()), reply)
    {
      match reply {
        case Thrown =>
          ShowAuthModal();
        case Reply(ok, data) =>
          if ok {
            if data.status == "success" {
              authenticated := true;
              user := data.user;
              ShowMainApp();
            } else {
              ShowAuthModal();
            }
          } else {
            ShowAuthModal();
          }
      }
    }

    /** Returns whether the `/initiate-auth` request is made. */
    method Initiate2FA(reply: Outcome<StatusBody>) returns (requested: bool)
      requires Valid()
      modifies this
      ensures requested == EmailAccepted(old(emailInput))
      ensures Valid() && Snapshot() == T.Initiate2FA(old(Snapshot()), reply)
    {
      var email := Trim(emailInput);
      if email == [] || !IsValidEmail(email) {
        ShowAuthStatus(T.InvalidEmailMessage, Error);
        return false;
      }
      requested := true;
      ShowAuthStatus("Sending verification code...", Info);
      match reply {
        case Thrown =>
          ShowAuthStatus(T.SendCodeFailedMessage, Error);
        case Reply(_, data) =>
          if data.status == "success" {
            sentTo := email;
            loginActive := false;
            verifyActive := true;
            ShowAuthStatus(T.CodeSentMessage, Success);
          } else {
            ShowAuthStatus(data.message, Error);
          }
      }
    }

    /** Returns whether the `/verify-code` request is made. */
    method Verify2FACode(reply: Outcome<StatusBody>, followUp: Outcome<UserInfoBody>) returns (requested: bool)
      requires Valid()
      modifies this
      ensures requested == CodeAccepted(old(codeInput))
      ensures Valid() && Snapshot() == T.Verify2FACode(old(Snapshot()), reply, followUp)
    {
      var code := Trim(codeInput);
      if code == [] || |code| != 6 {
        ShowAuthStatus(T.InvalidCodeMessage, Error);
        return false;
      }
      requested := true;
      ShowAuthStatus("Verifying code...", Info);
      match reply {
        case Thrown =>
          ShowAuthStatus(T.VerifyFailedMessage, Error);
        case Reply(_, data) =>
          if data.status == "success" {
            ShowAuthStatus(T.AuthSuccessMessage, Success);
            authenticated := true;
            ShowMainApp();
            CheckExistingAuth(followUp);
          } else {
            ShowAuthStatus(data.message, Error);
          }
      }
    }

    method BackToEmail()
      requires Valid()
      modifies this
      ensures Valid() && Snapshot() == T.BackToEmail(old(Snapshot()))
    {
      verifyActive := false;
      loginActive := true;
      authStatus := None;
    }

    /** `logout`: the request's outcome is accepted and ignored. */
    method Logout(reply: Outcome<StatusBody>)
      requires Valid()
      modifies this
      ensures Valid() && Snapshot() == T.Logout(old(Snapshot()))
    {
      ghost var s0 := Snapshot();
      authenticated := false;
      user := None;
      ShowAuthModal();
      ClearChat();
      ResetAuthForm();
      T.LogoutKeepsInv(s0);
    }

    /** Returns whether the `/chat` request is made. */
    method SendMessage(reply: Outcome<ChatBody>, responseTime: nat) returns (requested: bool)
      requires Valid()
      modifies this
      ensures requested == !AllWhitespace(old(chatInput))
      ensures Valid() && Snapshot() == T.SendMessage(old(Snapshot()), reply, responseTime)
    {
      ghost var s0 := Snapshot();
      var message := Trim(chatInput);
      if message == [] {
        return false;
      }
      requested := true;
      AddMessageToChat(message, User, None);
      chatInput := "";
      match reply {
        case Thrown =>
          AddMessageToChat(T.ChatErrorMessage, Bot, None);
        case Reply(_, data) =>
          if data.status == "success" {
            AddMessageToChat(data.response, Bot, Some(Meta(data.confidence, data.category, data.processingTime)));
            UpdateStatistics(responseTime);
          } else {
            AddMessageToChat("Error: " + data.message, Bot, None);
          }
      }
      T.SendMessageKeepsInv(s0, reply, responseTime);
    }
  }
}
