# Enterprise assistant client: input checks and session state

A Dafny model of the browser client `script.js`: the checks it makes on user
input before issuing any request, and the state its controllers keep in the
global `appState` object (`authenticated`, `user`, `messageCount`,
`totalResponseTime`) together with the page state they drive: the
`active` class of the login and verify steps, the auth status line, the
auth modal versus the main view, the e-mail, code and chat input fields, the
address shown on the verify step, and the chat message list.

- `Text.dfy`: the JavaScript string built-ins the script uses: white space as
  `\s` and `trim` see it, `trim`, `split('.')` with `pop()`, and `toLowerCase`.
- `Validation.dfy`: `isValidEmail` as the literal meaning of the pattern
  `^[^\s@]+@[^\s@]+\.[^\s@]+$`, proved equal to a plain description of the
  addresses it accepts; the trimmed-code length check; the file type and size
  checks of `handleFileSelect`.
- `State.dfy`: the state as a value and the invariant every controller keeps.
- `Transitions.dfy`: each controller as a function of the prior state and of
  how its request(s) ended (`Thrown`, or `Reply(ok, body)`), with the lemmas
  about them.
- `Client.dfy`: the class `App` whose methods update the fields in place in the
  script's own order, each proved to end in the state its transition function
  gives and to keep the invariant. A method that may issue a request returns
  whether it did.

Four behaviours of the code are modelled as written:
- `initiate2FA`, `verify2FACode` and `sendMessage` look only at the body's
  `status`, never at `response.ok`.
- A failed `checkExistingAuth` leaves `appState` as it was; it does not empty it.
- The e-mail test needs a dot that is neither the first nor the last
  character of the part after the `@`.
- Neither `initiate2FA` nor `verify2FACode` checks which auth step is showing.

## Model

| member | source | states |
|---|---|---|
| `Text.Trim` | script.js:273-274 | the result is the input with the white space at both ends cut off: a contiguous middle part, everything before and after it white space, itself starting and ending with non-white space; empty exactly when the input is all white space |
| `Text.TrimIdempotent` | script.js:161 | trimming an already trimmed value changes nothing |
| `Text.JoinSplit` | script.js:427 | joining the pieces of `split('.')` with `.` gives back the file name |
| `Text.SplitJoin` | script.js:427 | splitting a `.`-join of dot-free pieces gives back those pieces |
| `Text.LastPieceIsTail` | script.js:427 | `split('.').pop()` is the text after the last dot, and the whole name when there is no dot |
| `Text.LastPieceAfter` | script.js:427 | when the dot at a position is the last one, the popped piece is everything after it |
| `Text.ToLowerCase` | script.js:427 | lower-casing keeps the length and maps each character on its own |
| `Validation.IsValidEmailIffShape` | script.js:509-512 | the pattern accepts an address iff it has exactly one `@`, no white space, a non-empty part before the `@`, and a dot after it that is neither the first nor the last character of that part |
| `Validation.MatchHasShape` | script.js:509-512 | every match of the pattern has that shape |
| `Validation.ShapeMatches` | script.js:509-512 | every address of that shape is matched |
| `Validation.CorporateAddressAccepted` | script.js:509-512 | `a@corp.com` passes |
| `Validation.DotRightAfterAtRefused` | script.js:509-512 | `a@.b` fails: the dot right after the `@` does not count |
| `Validation.DoubleDotAccepted` | script.js:509-512 | `a@b..c` passes |
| `Validation.EmailAccepted` | script.js:161-166 | the local check passes iff the trimmed field matches the pattern; the emptiness test adds nothing |
| `Validation.CodeAccepted` | script.js:194-199 | the local check passes iff the trimmed code has exactly 6 characters |
| `Validation.LettersPassCodeCheck` | script.js:196-197 | ` abcdef ` passes: the characters are not required to be digits |
| `Validation.ExtensionAllowedIff` | script.js:426-429 | `'.' + piece` is in the allow-list iff the lower-cased last piece is `pdf`, `docx` or `txt` |
| `Validation.CheckFileSpec` | script.js:426-438 | a file is accepted iff its type is allowed and its size is at most 10485760; a bad type is reported whatever the size; a size error only for allowed types |
| `Validation.DotlessNameIsItsOwnExtension` | script.js:427 | with no dot the extension is `.` plus the whole lower-cased name, so a file named `pdf` passes |
| `Validation.ExtensionAfterLastDot` | script.js:427 | for a name `stem.piece` with a dot-free `piece`, the extension is `.` plus the lower-cased `piece`, whatever dots `stem` holds |
| `Validation.ExtensionExamples` | script.js:427-429 | any name ending in `.PDF` (such as `report.PDF`) has extension `.pdf`; one ending in `.exe` has `.exe` |
| `Validation.SizeBoundary` | script.js:435-438 | for an allowed type, 10485760 bytes pass and 10485761 bytes are too large |
| `Validation.ReportExamples` | script.js:426-438 | a `.PDF` file of 10485760 bytes passes and of 10485761 bytes is too large; a `.exe` file is a type error at any size |
| `Validation.HandleFileSelect` | script.js:422-441 | no file, and only no file, does nothing; the upload starts iff the file passes both checks, with that same file; otherwise the type error message, or the size error message for an allowed type |
| `State.InitialInv` | script.js:5-10 | the page-load state satisfies the invariant |
| `Transitions.BotReply` | script.js:299-315 | the appended message is always a bot message. A thrown request gives the fixed apology. A non-`success` reply gives `Error: ` followed by its `message`. A `success` reply gives its `response`, and exactly that case carries metadata: confidence, category and processing time |
| `Transitions.CheckExistingAuthKeepsInv` | script.js:125-147 | `checkExistingAuth` keeps the invariant |
| `Transitions.CheckExistingAuthOnlyOnSuccess` | script.js:125-147 | only an ok reply with status `success` sets `authenticated` and takes `data.user`, showing the main view; any other outcome only shows the auth modal |
| `Transitions.CheckExistingAuthIdempotent` | script.js:32-41 | running the check twice with the same outcome ends where running it once does |
| `Transitions.PageLoadChecks` | script.js:32-41 | after the two checks made at page load, the session is authenticated iff either succeeded; the main app shows iff the later check succeeded; the user is the later success's, else the earlier success's, so a success then a failure leaves a signed-in user behind the auth modal; nothing else leaves the initial state |
| `Transitions.Initiate2FAKeepsInv` | script.js:160-190 | `initiate2FA` keeps the invariant |
| `Transitions.Initiate2FARefusesLocally` | script.js:160-166 | an empty or malformed e-mail makes no request (the outcome is irrelevant) and only shows the error status |
| `Transitions.Initiate2FAAdvancesOnlyOnSuccess` | script.js:168-189 | the form moves from login to verify, showing the trimmed address, only on a `success` reply; otherwise only the status line changes, to an error. On success nothing but the step, the shown address and the status changes |
| `Transitions.Initiate2FAIgnoresHttpStatus` | script.js:170-179 | `response.ok` makes no difference to `initiate2FA` |
| `Transitions.Verify2FACodeKeepsInv` | script.js:192-226 | `verify2FACode` keeps the invariant |
| `Transitions.Verify2FARefusesLocally` | script.js:192-199 | a trimmed code whose length is not 6 makes no request and changes nothing but the status line |
| `Transitions.Verify2FAFailureChangesOnlyStatus` | script.js:220-225 | a thrown request or a non-`success` reply changes nothing but the status line, which shows an error |
| `Transitions.Verify2FASuccessSignsIn` | script.js:213-219 | a `success` reply sets `authenticated`; user and view then come from the follow-up check, so a failed follow-up leaves the user authenticated behind the auth modal; nothing but `authenticated`, user, view and status changes |
| `Transitions.BackToEmailKeepsInv` | script.js:228-232 | `backToEmail` keeps the invariant |
| `Transitions.BackToEmailReturnsToLogin` | script.js:228-232 | `backToEmail` always shows the login step and hides the status, changing nothing else |
| `Transitions.LogoutKeepsInv` | script.js:240-255 | `logout` ends in a state satisfying the invariant, whatever the state before |
| `Transitions.LogoutResets` | script.js:248-263 | after logout: not authenticated, no user, both counters 0, login step, auth modal, empty e-mail and code fields, the greeting alone in the chat; the chat input and the shown address are kept, so the result is the page-load state with just those two fields carried over |
| `Transitions.LogoutForgetsEverything` | script.js:240-255 | any two states that agree on the chat input and the shown address log out to the same state |
| `Transitions.LogoutIdempotent` | script.js:240-263 | logging out twice is logging out once |
| `Transitions.SendMessageKeepsInv` | script.js:272-316 | `sendMessage` keeps the invariant, in particular `messageCount` equals the number of user messages |
| `Transitions.BlankSendChangesNothing` | script.js:273-274 | empty or white-space-only input changes nothing at all |
| `Transitions.SendAppendsOneExchange` | script.js:272-316 | otherwise exactly one user message (the trimmed text) and the bot message `BotReply` makes for the outcome are appended, `messageCount` grows by 1, the time is added only for a `success` reply, the input is cleared, nothing else changes |
| `Transitions.BotMessagesAreNotCounted` | script.js:350-353 | a bot message leaves `messageCount` unchanged |
| `Transitions.RunAccounting` | script.js:383-384 | after N non-blank sends `messageCount` grew by N, the chat by 2N, and `totalResponseTime` by the sum of the answered sends' times |
| `Transitions.FreshSessionAccounting` | script.js:404-405 | right after logout, N non-blank sends give `messageCount == N` and `totalResponseTime` equal to the answered sends' times |
| `Transitions.RunKeepsInv` | script.js:350-353 | any run of sends keeps the invariant |
| `Transitions.LoginScenarioSendsCode` | script.js:160-183 | from page load, `a@corp.com` with a `success` reply reaches the verify step showing that address |
| `Transitions.LoginScenarioCodeAccepted` | script.js:196 | the code `123456` passes the local check |
| `Client.App.constructor` | script.js:5-10 | page load: the initial state, which satisfies the invariant |
| `Client.App.ShowAuthStatus` | script.js:234-238 | the status line shows the message with its kind; nothing else changes |
| `Client.App.ShowAuthModal` | script.js:149-152 | only the view changes, to the auth modal |
| `Client.App.ShowMainApp` | script.js:154-158 | only the view changes, to the main view |
| `Client.App.ClearChat` | script.js:393-408 | the chat is the greeting alone and both counters are 0; nothing else changes |
| `Client.App.ResetAuthForm` | script.js:257-263 | the e-mail and code fields are empty, the login step active, the status hidden |
| `Client.App.AddMessageToChat` | script.js:350-353 | appends the message and counts it only when the sender is the user |
| `Client.App.UpdateStatistics` | script.js:383-384 | adds the response time to `totalResponseTime` |
| `Client.App.CheckExistingAuth` | script.js:125-147 | ends in the state `Transitions.CheckExistingAuth` gives and keeps the invariant |
| `Client.App.Initiate2FA` | script.js:160-190 | requests iff the trimmed e-mail passes; ends in the state `Transitions.Initiate2FA` gives; keeps the invariant |
| `Client.App.Verify2FACode` | script.js:192-226 | requests iff the trimmed code has 6 characters; ends in the state `Transitions.Verify2FACode` gives; keeps the invariant |
| `Client.App.BackToEmail` | script.js:228-232 | ends in the state `Transitions.BackToEmail` gives and keeps the invariant |
| `Client.App.Logout` | script.js:240-255 | ends in `Transitions.Logout` of the prior state whatever the request's outcome, and keeps the invariant |
| `Client.App.SendMessage` | script.js:272-316 | requests iff the input is not all white space; ends in the state `Transitions.SendMessage` gives; keeps the invariant |

## Left out

- Rendering: message markup and metadata line, the typing indicator, document results, upload status colours, drag-and-drop highlighting, the user name and statistics labels. The typing indicator is shown and removed within one send, so it leaves no state.
- `fetch`, `FormData` and JSON decoding: each request's end is an `Outcome` parameter; a body that fails to decode counts as `Thrown`. The bodies sent (e-mail, code, message, file) are not modelled.
- `uploadDocument`, `displayDocumentResults`, `showUploadResult`, `showUploadModal`, `hideUploadModal`: they only change what the upload panel shows; the model stops at the decision `HandleFileSelect` makes.
- `checkConnection` and its 30-second `setInterval`: a status label with no effect on the session.
- `updateStatistics` average and `toFixed`: floating-point display only; the invariant does show `totalResponseTime` is 0 whenever `messageCount` is.
- The one-second `setTimeout` in `verify2FACode` is taken as immediate: events arriving during that second are not modelled.
- The two page-load `checkExistingAuth` requests run concurrently; the model applies their outcomes in the order they complete (`PageLoadChecks`).
- Overlapping sends, overlapping uploads and a logout racing a pending chat reply: each controller runs to completion before the next event.
- The intermediate status lines "Sending verification code..." and "Verifying code..." are written by the methods and then overwritten; the transition functions show only the final line.
- The quick-action and card buttons set the chat input and call `sendMessage`; in the model that is assigning `chatInput` and calling `SendMessage`.
- The initial page (which step is active, the greeting, the first view) comes from markup that is not part of this model: the login step active, the greeting alone and the auth modal are assumed.
- `run.py` starts a server thread and opens a browser; it is not part of this model.
- Text.ToLowerCase: maps only `A`-`Z`. No other character lower-cases to text containing only the letters of `pdf`, `docx` or `txt` (U+0130 gives `i` plus a combining dot, U+212A gives `k`), so the type verdict is the same.
- Validation.CodeAccepted: strings are sequences of Unicode scalar values, while JavaScript's `length` counts UTF-16 code units, so a code with characters outside the Basic Multilingual Plane has a different length in the script; the same holds for `[^\s@]` in `IsValidEmail`.
- Client.App.SendMessage: the response time is a `nat`; a `Date.now()` difference that is negative because the clock stepped back is not modelled.
