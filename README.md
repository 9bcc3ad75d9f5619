# IntelliQuiz backend: conversation inbox and account rules, in Dafny

This project models two controllers of the IntelliQuiz quiz-platform backend.

**Inbox** (`inbox.dfy`) covers `getAllMessages`, the direct-messaging handler that builds a user's inbox. The store returns every message the user sent or received, newest first. The handler folds them into a JavaScript `Map` keyed by chat partner. Each entry holds the partner, a latest message and an unread counter. The inbox is the map's values in first-insertion order.
- The fold is a function, `Aggregate`. It applies one `Step` per message.
- The handler's loop is a method, `GetAllMessages`. It updates a `map` and a key-order sequence, and it is proved to return `ChatList(me, messages)`, the values of the fold in key order.
- The behaviour is then stated against reference definitions that look only at the input:
  - the set of partners (`Partners`);
  - the first occurrence of a partner (`FirstOccurrence`);
  - the first position of a partner's latest message (`LatestIndex`, characterised by `IsFirstLatest`);
  - the number of unread messages (`UnreadCount`).

**Email format** (`email.dfy`) covers the check `/^\S+@\S+\.\S+$/` used by register, login and forgot. It is a string predicate (`MatchesEmailPattern`) plus an executable test (`IsValidEmail`) proved equivalent to it.

**Accounts** (`accounts.dfy`) covers the user collection as a class, `UserStore`, holding a sequence of user records.
- `FindOne` is Mongoose's `findOne`: the first record that matches a filter.
- Six handlers update records in place: register, verifyEmail, forgot, NewPassword, quizResult and updateProfile. They are methods of the class.
- Two handlers only read the collection: login and verifyForgot. They are functions that read the class.
- Two collaborators become parameters:
  - the code that `generateCode` returns becomes a `code` argument;
  - `comparePassword` becomes a function argument.
- The object invariant `Valid()` says that record identifiers are distinct and below the next identifier, and that no two records share an e-mail address. Every handler preserves it.

Two behaviours of the handler shape the inbox:
- The handler does not sort the inbox after the loop. The order is the map's insertion order, which is the order in which partners first occur in the input. The inbox is newest first because the store query returns the messages newest first.
- A strictly newer message replaces the whole entry, and this resets the unread counter. In general the counter counts the unread messages from the shown message onward (`InboxLatest`). It equals the conversation's total whenever the partner's first message is also its first latest one (`InboxCountIsTotal`). Input sorted newest first always meets that condition (`InboxOnSortedInput`), but other inputs can meet it too. `UnsortedInputUndercounts` is an input where the counter falls short of the total.

## Model

| member | source | states |
|---|---|---|
| Inbox.Partner | controllers/messageController.js:48-52 | for a message involving `me`, `me` and the partner are exactly its two parties; a message to oneself has partner `me` |
| Inbox.Aggregate | controllers/messageController.js:44-69 | the fold leaves a map whose keys are exactly the partners occurring in the input; the key order lists each key once, and each entry names its own key |
| Inbox.GetAllMessages | controllers/messageController.js:44-72 | the loop over the messages, with its map and key order, returns exactly the inbox of the fold |
| Inbox.FirstOccurrence | controllers/messageController.js:55-57 | the position of a partner's first message: it has that partner, and no earlier message has it |
| Inbox.LatestIndex | controllers/messageController.js:55-56 | the position of a partner's first latest message: earlier messages of that partner are strictly older, later ones are not newer |
| Inbox.AggregateEntry | controllers/messageController.js:55-68 | each entry's last message is the partner's first latest message; its counter is the number of unread messages to `me` from that message onward |
| Inbox.AggregateOrder | controllers/messageController.js:55-61 | keys are ordered by the first occurrence of their partner in the input |
| Inbox.InboxOnePerPartner | controllers/messageController.js:44-72 | the inbox has one entry per distinct partner in the input and no other; no partner appears twice, and its length is the number of partners |
| Inbox.InboxLatest | controllers/messageController.js:55-68 | every entry shows a message of its own conversation that no message of the conversation outdates (the first such on ties); its counter counts only unread messages addressed to `me` from that message onward |
| Inbox.InboxUnreadBound | controllers/messageController.js:57-67 | a counter never exceeds the conversation's unread messages addressed to `me` |
| Inbox.InboxOrder | controllers/messageController.js:57-72 | entries are in the order in which their partners first occur in the input |
| Inbox.EntryCountIsTotal | controllers/messageController.js:57-67 | when a partner's first message is its first latest one, its entry's counter is the conversation's total of unread messages addressed to `me` |
| Inbox.InboxCountIsTotal | controllers/messageController.js:57-72 | every inbox entry whose partner's first message is its first latest one counts all of that conversation's unread messages addressed to `me` |
| Inbox.InboxOnSortedInput | controllers/messageController.js:37-72 | on input sorted newest first: each entry shows its partner's first message, counts all of that conversation's unread messages addressed to `me`, and the inbox is sorted newest first |
| Inbox.NewerMessageResets | controllers/messageController.js:55-61 | a strictly newer message replaces the entry, restarts the counter at its own 0 or 1, and keeps the key's position |
| Inbox.OlderOrTiedMessageKeeps | controllers/messageController.js:56-67 | a message that is not strictly newer, a tie included, keeps the shown message and only adds its own 0 or 1 to the counter |
| Inbox.UnsortedInputUndercounts | controllers/messageController.js:57-66 | an unread message followed by a newer unread one from the same partner gives a counter of 1 where two messages are unread |
| EmailFormat.IsValidEmail | controllers/userController.js:21-24 | accepts exactly the strings with no white space, an `@` after at least one character, then a `.` after at least one more, then at least one character |
| EmailFormat.EmailPatternExamples | controllers/userController.js:21 | concrete strings the format accepts (more than one `@` or `.`) and rejects (an empty part, a space) |
| Accounts.FindOne | controllers/userController.js:27 | the first record matching the filter, or none exactly when no record matches |
| Accounts.FindQuiz | controllers/userController.js:377 | finds an earlier attempt with the same name, code, class and subject, or none exactly when there is none |
| Accounts.UserStore.Register | controllers/userController.js:12-62 | a missing field, a bad format or an address held by a verified record is rejected and nothing changes; an unverified record is overwritten in place with the new code; otherwise exactly one unverified record is appended; e-mail addresses stay unique |
| Accounts.UserStore.VerifyEmail | controllers/userController.js:127-147 | the first record holding the code becomes verified and loses the code; without a holder the call fails and nothing changes |
| Accounts.UserStore.Login | controllers/userController.js:150-181 | with both fields present and a valid address, it succeeds with the first verified record holding the address exactly when `comparePassword` accepts the password, and otherwise gives the password error; with no verified record holding the address it gives the credentials error; it changes nothing |
| Accounts.UserStore.Forgot | controllers/userController.js:211-247 | only a verified record with the address gets the new code; any error leaves the store unchanged |
| Accounts.UserStore.VerifyForgot | controllers/userController.js:313-328 | succeeds exactly when some record holds the code, and changes nothing |
| Accounts.UserStore.NewPassword | controllers/userController.js:331-346 | the record holding the code gets the new password and loses the code; when no other record held it, the code cannot succeed again |
| Accounts.UserStore.QuizResult | controllers/userController.js:357-409 | zero obtained marks pass and zero total marks do not; a repeated key is rejected and nothing changes; otherwise exactly one entry is appended at the end, so the key stays unique |
| Accounts.UserStore.UpdateProfile | controllers/userController.js:412-433 | an empty or missing name or roll number keeps the stored value, otherwise it replaces it; no other field changes |
| Accounts.SignUpThenLogIn | controllers/userController.js:12-181 | on a fresh collection, a registered account cannot log in before verification, and registering it again only resends a code; after verification it logs in when the password is accepted, its address is refused for registration, and one record exists |
| Accounts.ResetCodeIsSingleUse | controllers/userController.js:211-346 | on a verified account, forgot, verifyForgot and NewPassword succeed with the reset code and store the new password; the same code then fails |

## Left out

- A message whose sender or receiver account was deleted is not modelled. `.populate` then yields `null`, reading its `_id` throws, and the whole inbox request fails. `UserId` always names a user.
- The store queries (`Message.find`, `.populate`, `.sort`) are left out. The newest-first order they produce is the hypothesis of `InboxOnSortedInput`, not something the model computes. The populated partner is modelled by its identifier.
- `sendMessages` is left out: it is a single insert. `getMessages` is left out: it is a filtered, ascending query with no logic of its own.
- The `if (!messages)` and `if (!message)` checks in the message controller are left out, because `find` always returns an array.
- E-mail delivery, the HTML templates and the current year are left out. Sending is assumed to succeed. If it failed, register would answer with an error after it had already saved the record, because it saves before sending. Forgot would answer with an error and store no code, because it sends before saving. Accounts.UserStore.Register: its promise that an error leaves the collection unchanged holds only under this assumption.
- Session tokens, cookies, `sendToken`, `logout`, `getUser` and `getAllUsers` are left out: they issue or project data and hold no rule.
- Password hashing is left out. The stored password is the one given, and `comparePassword` is an argument of `Login`.
- `generateCode` is an argument, `code`. The model assumes that `generateCode` stores the code it returns as the record's verification token. The code that defines it, `models/userModel.js`, is not part of this model. `forgot` assigns the token explicitly as well.
- The defaults of a new record (unverified, no quizzes) come from the same unseen model file and are assumed.
- A new record's identifier comes from a counter (`nextId`), not from MongoDB's generated identifiers.
- The verification code is always a string. A request without a code is not modelled. Neither is how Mongoose treats an `undefined` filter value.
- The second identity check of verifyEmail and verifyForgot (`user.verificationToken !== code`) always passes after a match on the token, so it is not modelled.
- Accounts.UserStore.NewPassword: the new password is a string. An absent password and the schema validation it would trip are not modelled.
- Accounts.UserStore.QuizResult: the `!userId` guard is not modelled, because the authenticated user's identifier is always present. `attemptedAt` (the clock) and the internal-error branch of the `try`/`catch` (store failures) are not modelled either.
- Accounts.UserStore.QuizResult: obtained and total marks are integers. In the request they are JSON numbers and may be fractional.
- Request values are strings or numbers or absent (`Option`). JavaScript truthiness is "present and non-empty" for strings and "present and non-zero" for numbers. Other JSON value types are not modelled.
- Logging, the `catchAsyncError` wrapper, `NewPassword` answering twice, and the HTTP status codes of the errors are left out.
- The database save (`save`) is atomic replacement of the record in the sequence. Concurrent requests are not modelled.
