# MannieTech AI chat: session store and account registry

This project models two parts of the MannieTech AI web client in Dafny and proves properties about them.

The first part is the chat page's session store in `mannieTechAI-chat.js`: the `chatHistory` list of sessions with the `currentChatId` variable. Its operations are:

- `createNewChat`;
- `saveMessageToChat`, with its title rule and its move-to-front;
- `saveChatHistory`, which sorts the list by last activity and keeps 20 sessions;
- `deleteChat`, `clearAllChats`, `loadChat` and its projection to lines, and the guard of `showClearAllModal`;
- the part of `streamAIResponseWithClearTyping` that decides the stored assistant text, with its character-by-character typing loop.

The second part is the account registry of `AuthManager` in `auth.js`: the `users` list with `currentUser`. It covers:

- the sign-up validation chain and the duplicate check that guards the append;
- the login lookup;
- `isValidEmail`, `userExists`, `authenticateUser` and `createUser`.

Modules:

- `Optional` holds `Option` and `Result`.
- `Text` holds the ECMAScript white-space set, `trim`, and the decimal rendering of a number.
- `ChatHistory` holds the session list as values: the title rule, the stable sort and the cap, move-to-front, filtering and rendering. The properties of these are proved as lemmas here.
- `ChatStore` holds the class `Store`. Its fields `history` and `currentChatId` are updated in place by methods whose contracts state the new state through the `ChatHistory` functions.
- `ChatReply` holds the reply decision and the typing loop.
- `Auth` holds the registry functions, the email pattern, and the class `AuthManager` with `HandleSignup` and `HandleLogin`.

Time is a `nat` clock of milliseconds. Each operation takes one reading `now`. A session id is `"chat_"` followed by the decimal digits of `now`, and a user id is `"user_"` followed by the same digits. What is written to local storage is modelled as the list value itself.

Where the prose description of the application and the code differ, the model follows the code:

- A current id that no session carries makes `saveMessageToChat` a silent no-op, not an error.
- The title ellipsis is three ASCII dots.
- A first user message whose text is exactly "New Chat" leaves the placeholder title in place, so a later user message can still set the title (`PlaceholderMessageDoesNotSettleTitle`).
- Only the latest user message is sent upstream, after the fixed system instruction. No earlier message of the session is sent.
- After the current session is deleted, the new current session is the first one remaining in the list. Because the list is kept sorted, that is also the most recent one (`DeleteNeedsNoResort`).
- Session ids are not assumed unique. Lookups take the first session with the id, as `findIndex` and `find` do, and deletion removes every session with it, as `filter` does.

## Model

| member | source | states |
|---|---|---|
| Text.TrimIsSlice | auth.js:96-98 | `trim` removes a white-space prefix and a white-space suffix and nothing else. The result is a slice of the input whose first and last characters are not white space. |
| Text.BlankIffAllWhitespace | auth.js:102 | A field is blank after trimming exactly when it consists only of white space. |
| Text.Decimal | mannieTechAI-chat.js:273 | The rendering of a number used in ids is non-empty and made of decimal digits only. |
| Text.DecimalValue | mannieTechAI-chat.js:273 | The digits denote the number itself, and a positive number has no leading zero. |
| Text.DecimalInjective | mannieTechAI-chat.js:273 | Different numbers have different renderings. |
| ChatHistory.ChatIdInjective | mannieTechAI-chat.js:273 | Sessions created at different clock readings get different ids. |
| ChatHistory.Headline | mannieTechAI-chat.js:315 | Content of at most 30 characters is the title unchanged. Longer content gives its first 30 characters followed by `...`, 33 characters in all. |
| ChatHistory.HeadlineIsPlaceholderOnlyForPlaceholder | mannieTechAI-chat.js:314-315 | A derived title equals "New Chat" exactly when the message itself was "New Chat". |
| ChatHistory.Retitled | mannieTechAI-chat.js:313-316 | The title changes only for a user message on a session titled "New Chat", and then becomes the headline of that message. Assistant messages never change it. |
| ChatHistory.TitleIsSettled | mannieTechAI-chat.js:313-316 | Once the title differs from "New Chat", no sequence of later messages changes it. |
| ChatHistory.TitleFromFirstUserMessage | mannieTechAI-chat.js:313-316 | A session that starts as "New Chat" ends with the headline of its first user message whose content is not "New Chat", whatever messages come after it. Assistant messages before it, and user messages reading "New Chat", leave the placeholder. |
| ChatHistory.PlaceholderMessageDoesNotSettleTitle | mannieTechAI-chat.js:313-316 | A concrete session whose first user message reads "New Chat": the title is then taken from the second user message. |
| ChatHistory.FindIndex | mannieTechAI-chat.js:304 | Returns the first position holding the id, or none when no session has it. |
| ChatHistory.Insert | mannieTechAI-chat.js:399-400 | One insertion step of the sort: the result is the list plus the new session as a multiset, and it starts with the new session or with the old head. |
| ChatHistory.InsertKeepsDescending | mannieTechAI-chat.js:399-400 | Inserting into a list in descending order of last activity keeps it in that order. |
| ChatHistory.SortByActivity | mannieTechAI-chat.js:399-400 | The sort gives a permutation of the list, in descending order of last activity. |
| ChatHistory.InsertKeepsRuns | mannieTechAI-chat.js:399-400 | One insertion step does not reorder sessions that share a last activity. |
| ChatHistory.SortIsStable | mannieTechAI-chat.js:399-400 | For every last-activity value, the sessions with that value keep their relative order. JavaScript's sort is stable. |
| ChatHistory.SortKeepsSortedList | mannieTechAI-chat.js:399-400 | Sorting a list that is already in descending order returns it unchanged. |
| ChatHistory.NewestStaysFirst | mannieTechAI-chat.js:399-400 | A session at the front that is at least as recent as all the others is still first after the sort. |
| ChatHistory.SortAndCap | mannieTechAI-chat.js:397-401 | The saved list has at most 20 entries (`min(n, 20)`) and is in descending order of last activity. |
| ChatHistory.Dropped | mannieTechAI-chat.js:399-401 | The sorted list is exactly the saved list followed by the dropped sessions. |
| ChatHistory.CapKeepsMostRecent | mannieTechAI-chat.js:397-401 | The kept and dropped sessions together are the input as a multiset. Every kept session is at least as recent as every dropped one. |
| ChatHistory.CapKeepsEarliestOfTies | mannieTechAI-chat.js:399-401 | Among sessions tied on last activity, the ones the save keeps are a prefix of those ties in input order. |
| ChatHistory.NewSessionIsFirstAfterSave | mannieTechAI-chat.js:272-283 | If the clock has not gone backwards, a session just created is at index 0 of the saved list. |
| ChatHistory.RemoveKeepsDescending | mannieTechAI-chat.js:320 | Splicing one session out of a list in descending order keeps it in that order. |
| ChatHistory.AppendMovesSessionToFront | mannieTechAI-chat.js:304-323 | On a saved list, with a clock that has not gone backwards, the touched session ends first after the save. It has the same id and creation time, its old messages plus exactly one new message at the end, last activity `now`, and the title rule applied. All other sessions follow in their old order, unchanged. |
| ChatHistory.Without | mannieTechAI-chat.js:408 | The filter never lengthens the list. |
| ChatHistory.WithoutMembers | mannieTechAI-chat.js:408 | A session survives the filter exactly when it was in the list and has a different id. |
| ChatHistory.WithoutConcat | mannieTechAI-chat.js:408 | The filter works piecewise, so the surviving sessions keep their relative order. |
| ChatHistory.WithoutKeepsDescending | mannieTechAI-chat.js:408 | Filtering keeps a list in descending order. |
| ChatHistory.DeleteNeedsNoResort | mannieTechAI-chat.js:407-420 | On a saved list, the save after a deletion changes nothing. The first remaining session is the most recent one. |
| ChatHistory.Lines | mannieTechAI-chat.js:340-360 | One line per message in stored order, labelled "You" for user messages and "MannieTech AI" otherwise. |
| ChatHistory.Render | mannieTechAI-chat.js:335-342 | The welcome screen is shown exactly when the session has no messages; otherwise its lines are shown. |
| ChatReply.UpstreamMessages | mannieTechAI-chat.js:577-586 | The request carries the system instruction and then one user entry holding the latest message, and nothing else. |
| ChatReply.ReplyContent | mannieTechAI-chat.js:593-626 | When nothing is thrown, the stored text is the first choice's content. Otherwise it is the apology that embeds the error message. |
| ChatReply.StoredReplyIsNeverEmpty | mannieTechAI-chat.js:598-626 | The stored assistant text is never empty. A 2xx response with non-empty content is stored verbatim. |
| ChatReply.FailedStatusIsReported | mannieTechAI-chat.js:593-626 | A non-2xx status yields an apology containing "API request failed: <status>". |
| ChatReply.MissingReplyIsReported | mannieTechAI-chat.js:598-626 | A 2xx response with missing or empty content yields an apology containing "No response from AI". |
| ChatReply.TypeOut | mannieTechAI-chat.js:608-618 | The typing loop ends with the displayed text equal to the whole reply. Its invariant: after `i` steps the displayed text is the first `i` characters. |
| ChatReply.StreamReply | mannieTechAI-chat.js:565-627 | The text returned for storage is the reply content above, and the message element ends up showing that same text. |
| ChatStore.Store.constructor | mannieTechAI-chat.js:220-226 | The store starts with the persisted list. The first session, if any, becomes current. |
| ChatStore.Store.SaveChatHistory | mannieTechAI-chat.js:397-404 | The list becomes its sorted and capped form and is in the saved state: descending, at most 20 entries. |
| ChatStore.Store.CreateNewChat | mannieTechAI-chat.js:272-284 | The current id becomes `"chat_" + now`. The list is saved with the fresh session in front. With a clock that has not gone backwards, the fresh session is first. |
| ChatStore.Store.SaveMessageToChat | mannieTechAI-chat.js:299-326 | A session is created first exactly when there is no current id. If the current id is found, the list becomes the save of the move-to-front of that session; otherwise nothing changes. A saved list stays saved. |
| ChatStore.Store.LoadChat | mannieTechAI-chat.js:329-350 | The list is never changed. A found id becomes current and its session is rendered. A missing id changes nothing and shows nothing. |
| ChatStore.Store.DeleteChat | mannieTechAI-chat.js:407-421 | The list becomes the save of the filtered list. A deleted current id is replaced by the first remaining session's id, or by none. Any other current id is kept. |
| ChatStore.Store.ClearAllChats | mannieTechAI-chat.js:428-431 | The list is empty and no session is current. |
| ChatStore.Store.ShowClearAllModal | mannieTechAI-chat.js:460-466 | The confirmation opens exactly when the list is non-empty. No state changes. |
| Auth.EmailPatternIsShape | auth.js:174-177 | The pattern holds exactly when the address has no white space and exactly one `@`, with a non-empty part before it. The part after it must contain a `.` that is neither its first nor its last character. |
| Auth.EmailSamples | auth.js:174-177 | "a@b.c" is accepted; "a@b", "a@.c" and "a b@c.d" are refused. |
| Auth.UserExists | auth.js:157-161 | True exactly when some stored user has the username or the email. |
| Auth.FirstAccepting | auth.js:150-155 | Gives the position of the first user the credentials match, and no earlier user matches. |
| Auth.AuthenticateUser | auth.js:150-155 | Returns none exactly when no user matches the identifier (as username or email) with an equal password. Otherwise it returns the first user in list order that matches. |
| Auth.ValidateSignup | auth.js:101-115 | The first failed check in order: a blank field, then a password shorter than 6, then an invalid email. Each outcome holds exactly under its condition. |
| Auth.SignupOutcome | auth.js:95-134 | Success exactly when validation passes and neither the username nor the email is taken. The created user is built from the trimmed fields. Every refusal other than "already exists" is the validation's refusal. |
| Auth.SignupKeepsIdentitiesDistinct | auth.js:124-130 | One sign-up attempt keeps usernames pairwise distinct and emails pairwise distinct. |
| Auth.SignupsKeepIdentitiesDistinct | auth.js:124-161 | Any sequence of sign-up attempts keeps usernames and emails distinct. |
| Auth.SignedUpUserCanLogIn | auth.js:129-155 | After the append, logging in with the new username or the new email and the password finds a user. It finds the new user itself when no earlier user accepts the same credentials. |
| Auth.UsernameMayShadowEarlierEmail | auth.js:124-161 | A concrete registry in which a new username equal to an earlier user's email passes the duplicate check. Logging in with it then finds the earlier user. |
| Auth.AuthManager.constructor | auth.js:4-6 | The registry and the logged-in user are the persisted values. |
| Auth.NoticesAreDistinct | auth.js:62-125 | Each refusal is announced with a different notification text. |
| Auth.AuthManager.HandleSignup | auth.js:95-136 | The outcome is the sign-up outcome above, and the notification shown is the welcome text or the refusal's text. On success exactly the new user is appended and becomes current. On refusal the registry and the current user are unchanged. Distinct identities are preserved. |
| Auth.AuthManager.HandleLogin | auth.js:55-87 | The notification shown is the welcome text or the refusal's text. A blank trimmed field is refused before any lookup. Otherwise the user `authenticateUser` finds becomes current, or the login is refused and nothing changes. The registry is never changed. |

## Left out

- `server.js` is not part of this model. It is an HTTP pass-through to the upstream service.
- The HTTP request, its headers, and the decoding of the response body are not modelled. The model takes as input either the error message thrown, or the status with the first choice's content.
- Local storage reads and writes and JSON encoding are not modelled; the stored value is the list itself. A storage write that throws after the push in `handleSignup` is not modelled.
- The DOM is not modelled: rendering of the session sidebar (`renderChatHistory`), modals, notifications, injected styles, animations, the page loader, sound and mobile navigation. The notification text itself is modelled: `HandleSignup` and `HandleLogin` return it.
- `sendMessageEnhanced` is not modelled. Its async sequencing, the `isProcessing` busy flag, the loading state and the error text written when it throws are left out, because they concern UI-level concurrency. Its two calls to `saveMessageToChat` are covered by `ChatStore.Store.SaveMessageToChat`.
- `setTimeout` delays in the typing loop and in the login and sign-up flows are left out. The failure branches ("Login failed", "Signup failed") can be reached only through a storage write that throws, or through a stored registry that is not a list of user records (for example `{}` or `[null]`), which the typed model cannot hold.
- `getCurrentTime` and ISO date strings are replaced by the `nat` clock. Where the source reads the clock several times in one operation, the model uses one reading.
- `ChatStore.Store.SaveMessageToChat`: the source changes the session object inside the list before splicing it out. The model builds the updated session as a value. Since each session object occurs once in the list, the result is the same.
- The `chatToDelete` bookkeeping of the delete confirmation is left out.
- Text lengths count Unicode characters, whereas JavaScript counts UTF-16 code units. Titles containing characters outside the Basic Multilingual Plane can therefore be cut at a different place than in the source.
- Message content is always a string. Non-string values that could come from a hand-edited storage record are not modelled.
