/**
 * What the script keeps between events: the `appState` object
 * (`authenticated`, `user`, `messageCount`, `totalResponseTime`) together
 * with the parts of the page its controllers read and write as state: the
 * `active` class of the login and verify steps, the auth status line,
 * which of the auth modal and the main view is shown, the three input
 * fields, the address shown on the verify step, and the list of chat
 * messages.
 */
module State {
  import opened Wrappers

  /** `data.user` of the `/user-info` reply. */
  datatype UserInfo = UserInfo(name: string, department: string)

  datatype Sender = User | Bot

  /** The metadata a successful chat reply carries. */
  datatype Meta = Meta(confidence: real, category: string, processingTime: real)

  datatype ChatMessage = ChatMessage(text: string, sender: Sender, meta: Option<Meta>)

  datatype StatusKind = Info | Success | Error

  /** The auth status line while it is displayed. */
  datatype AuthStatus = AuthStatus(message: string, kind: StatusKind)

  /** `showAuthModal` versus `showMainApp`. */
  datatype View = AuthView | MainView

  /** How a request ended, as the controller sees it: the `fetch` or the
      JSON decoding threw, or a decoded body arrived with `response.ok`. */
  datatype Outcome<D> = Thrown | Reply(ok: bool, data: D)

  /** Body of `/user-info`. */
  datatype UserInfoBody = UserInfoBody(status: string, user: Option<UserInfo>)

  /** Body of `/initiate-auth` and `/verify-code`. */
  datatype StatusBody = StatusBody(status: string, message: string)

  /** Body of `/chat`. */
  datatype ChatBody = ChatBody(status: string, response: string, confidence: real,
                               category: string, processingTime: real, message: string)

  datatype AppState = AppState(
    // the `appState` object
    authenticated: bool,
    user: Option<UserInfo>,
    messageCount: nat,
    totalResponseTime: nat,
    // the two-step auth form
    loginActive: bool,
    verifyActive: bool,
    authStatus: Option<AuthStatus>,
    view: View,
    // input fields and the address shown on the verify step
    emailInput: string,
    codeInput: string,
    chatInput: string,
    sentTo: string,
    // the chat list
    chat: seq<ChatMessage>)

  const Greeting := ChatMessage("Hello! I'm your secure Intelligent Enterprise Assistant. I can help with HR policies, IT support, document processing, and organizational information.", Bot, None)

  /** The state at page load: signed out, the login step active, an empty
      form and the greeting alone in the chat. */
  const Initial := AppState(false, None, 0, 0, true, false, None, AuthView, "", "", "", "", [Greeting])

  /** Number of messages the user sent that are in the chat list. */
  function UserCount(chat: seq<ChatMessage>): nat {
    if chat == [] then 0
    else UserCount(chat[..|chat| - 1]) + (if chat[|chat| - 1].sender == User then 1 else 0)
  }

  /** What every controller keeps true: exactly one auth step is active, a
      user is only known while authenticated, `messageCount` is the number
      of user messages in the chat, and no response time is accumulated
      while no message has been sent. */
  predicate Inv(s: AppState) {
    s.loginActive != s.verifyActive
    && (s.user.Some? ==> s.authenticated)
    && s.messageCount == UserCount(s.chat)
    && (s.messageCount == 0 ==> s.totalResponseTime == 0)
  }

  lemma InitialInv()
    ensures Inv(Initial)
  {
  }
}
