# ReX chat sessions, in Dafny

ReX is a career-advice chat web application. Its pages keep a list of chat
sessions in a JSON document store and derive everything they show from that
list. A session has:

- an id: the decimal text of a number;
- a "Mon d, yyyy" date;
- a list of chat turns;
- an `isSessionEnded` flag.

This project models that list as an immutable `seq<Session>` and each page
handler as a pure function over it. The handlers are:

- starting a chat;
- sending a prompt;
- ending or clearing a chat from the navigation bar;
- deleting a chat.

It also models the views the pages derive from the list:

- the date stamp and the chart label cut from it;
- the card previews;
- the "Active" and "Ended" listings with their position limit;
- the activity chart series;
- the message-count labels;
- the route-to-navigation-bar mapping.

The modules follow the program's files.

- `Text` covers `toString`, `parseInt(s, 10)` and `split(",")[0]`.
- `Dates` covers the date stamp.
- `Sessions` holds the records and the list operations every page uses.
- `Home`, `Chat`, `Navigation`, `EndedChats`, `Activity`, `ActivityChatHistory` and `Layout` each model one source file.
- `Lifecycle` composes each handler with the store writes it issues, and proves a store invariant that starting a chat, sending a prompt, "End" and deleting all keep ("Clear" does not):
  - ids are canonical and strictly increasing;
  - every session but the newest is ended.
- `Scenarios` states runs of several actions.

Clocks and the completion service are parameters. Today's date is a
`CalendarDate` (month index, day, year). The service's outcome is an
`Option<string>`, where `None` is a call that threw.

Some of what the handlers do is easy to misread. The model follows the code:

- **Turn shape.** A submitted turn holds both the user's text and ReX's reply (`{user, ReX}`). So one prompt grows `chats` by one, not by two. After the introduction and one prompt, a session holds 2 turns, not 3 (`Scenarios.Walkthrough`).
- **"Clear" and the ended flag.** "Clear" sets `isSessionEnded` to false rather than leaving it unchanged. It can therefore reopen an ended chat and leave two chats open (`Lifecycle.ClearBreaksWf`). No control in the navigation bar calls it with "Clear": the only call is `modifySession("End")` (src/components/Navigation/index.jsx:245), so this describes the handler, not a path the rendered application offers.
- **"Clear" on an unknown id.** "Clear" never looks the session up, so the handler builds its record without failing even for an id the store does not hold. "End" fails in that case. What happens next differs: the document store answers the PUT for an unknown id with 404 and writes nothing, and the model also leaves the store unchanged but reports success (see "## Left out").
- **Which session a start ends.** Starting a chat ends the session whose id is one below the new id, found by string equality in the page's list. It is not a search for "the active session".
- **Deleting an absent id.** Deleting an id that is not in the list leaves the list unchanged; it does not report NotFound.

## Model

| member | source | states |
|---|---|---|
| Text.ParseInt | src/pages/Chat/index.jsx:59 | `parseInt` yields a number exactly when the text starts with a digit; otherwise NaN (`None`) |
| Text.LeadingDigits | src/pages/Chat/index.jsx:59 | `parseInt` reads the longest leading run of digits and stops at the first non-digit |
| Text.NatToString | src/pages/Home/index.jsx:84 | `toString` of a number is non-empty, digits only, with a leading zero only for zero |
| Text.NatToStringIsCanonical | src/pages/Home/index.jsx:83-85 | `parseInt` reads back exactly the number `toString` wrote, so generated ids are canonical |
| Text.ParseIntOfNatToString | src/components/ActivityChatHistory/index.jsx:25-26 | `parseInt` of a number's text followed by non-digit text gives back the number |
| Text.DigitsValueOfNatToString | src/pages/Home/index.jsx:84 | the digits `toString` writes denote the number written |
| Text.LeadingDigitsOfRun | src/pages/Chat/index.jsx:59 | a digit run followed by a non-digit is exactly the run `parseInt` reads |
| Text.CanonicalParseInjective | src/pages/Chat/index.jsx:59 | two canonical ids are equal as strings exactly when they parse to the same number, so numeric and string lookups agree on them |
| Text.BeforeComma | src/pages/Activity/index.jsx:45 | the first field of `split(",")` holds no comma, is a prefix of the text, and ends at the first comma or at the end |
| Text.BeforeCommaOfJoin | src/pages/Activity/index.jsx:45 | the first field of `a + "," + b` is `a` when `a` holds no comma |
| Dates.MonthNameShape | src/pages/Home/index.jsx:39-42 | every month name is three characters, none of them a space, comma or digit |
| Dates.ParseFormatDate | src/pages/Home/index.jsx:87-92 | the "Mon d, yyyy" stamp loses nothing: reading it back gives the month index, day and year it was built from |
| Dates.FormatDateInjective | src/pages/Home/index.jsx:92 | two clock readings give the same stamp exactly when they are equal |
| Dates.FormatDate | src/pages/Home/index.jsx:87-92 | the stamp is the three-letter month name, a space, the day's digits, ", " and the year's digits (`Dates.ParseFormatDate` reads it back) |
| Dates.DateLabel | src/pages/Activity/index.jsx:45 | a chart label holds no comma, is a prefix of the session's date, and runs to the first comma or to the end of the date |
| Dates.DateLabelOfFormatDate | src/pages/Activity/index.jsx:45 | the chart label of a stamp is the month name, a space and the day |
| Dates.MonthOf | src/pages/Home/index.jsx:39-42 | a three-letter text names month `m` exactly when it is `months[m]` |
| Sessions.Truncate | src/pages/Home/index.jsx:203 | `.slice(0,100)` gives a same-shape prefix of length `min(100, length)` |
| Sessions.LastChatText | src/pages/Home/index.jsx:201-205 | a card preview is "" without chats, else a prefix of the last turn's ReX content, of length `min(100, length)` |
| Sessions.Cards | src/pages/Home/index.jsx:195-210 | one card per session, in list order, each showing that session |
| Sessions.Reverse | src/pages/Activity/index.jsx:40 | `reverse()` puts the element at position `n-1-i` at position `i` |
| Sessions.Active | src/pages/Home/index.jsx:194-196 | the open list holds exactly the sessions not ended |
| Sessions.Ended | src/pages/EndedChats/index.jsx:85-86 | the ended list holds exactly the ended sessions |
| Sessions.ActiveEndedPartition | src/pages/Home/index.jsx:196-224 | every session is open or ended: the two selections together account for the whole list |
| Sessions.ActiveAppend | src/pages/Home/index.jsx:195-196 | selecting open sessions keeps list order: it distributes over concatenation |
| Sessions.EndedAppend | src/pages/EndedChats/index.jsx:85-86 | selecting ended sessions keeps list order |
| Sessions.EndedBelowIsEndedPrefix | src/pages/Home/index.jsx:223-224 | "ended and at position below `limit`" equals "ended among the first `limit` sessions", so at most `limit` are listed |
| Sessions.EndedFromIsEndedSlice | src/pages/Home/index.jsx:223-224 | the indexed selection from position `i` on equals the ended sessions in positions `i` up to the limit |
| Sessions.FirstWithId | src/components/Navigation/index.jsx:82 | `filter(id)[0]` is the first position with that id, and there is none exactly when no session has it |
| Sessions.ReplaceById | src/pages/Chat/index.jsx:132-136 | the `map` keeps the length; positions with the id get the record; every other position is unchanged |
| Sessions.RemoveById | src/pages/Home/index.jsx:144 | the filter keeps exactly the sessions with another id, and the length is unchanged exactly when no session has the id |
| Sessions.RemoveByIdAppend | src/pages/Home/index.jsx:144 | the filter keeps the order of what stays: it distributes over concatenation |
| Sessions.RemoveByIdAbsent | src/pages/Home/index.jsx:144 | removing an id no session has leaves the list as it is |
| Home.NextId | src/pages/Home/index.jsx:83-85 | the new id is "1" on an empty list; otherwise the canonical text of the head id's number plus one, or "NaN" when the head id does not parse |
| Home.NextIdIncreases | src/pages/Home/index.jsx:83-85 | a new id always parses to more than the head id's number |
| Home.Create | src/pages/Home/index.jsx:81-136 | the new session is open, dated today and holds only the introduction; when the new id is above 1, the first session with the previous id is ended, and the start fails when there is none; the list grows by exactly the new session at the end |
| Home.CreateWithCanonicalHead | src/pages/Home/index.jsx:108-113 | with a canonical head id, a start always succeeds and ends the head itself |
| Home.CreateEndsHead | src/pages/Home/index.jsx:113-129 | with a canonical, positive head id, the list after a start is the head ended, the rest unchanged, then the new session |
| Home.Delete | src/pages/Home/index.jsx:139-149 | no session with the id is left, every other session stays, nothing new appears, and an absent id changes nothing |
| Home.DeleteKeepsOrder | src/pages/Home/index.jsx:144 | the filter keeps the remaining sessions in their original order: deleting from a concatenation deletes from each part, and one session is kept exactly when its id differs |
| Home.View | src/pages/Home/index.jsx:159-235 | an empty list shows the welcome screen; otherwise a card for every open session, and one for each ended session among the first 4 positions, never more than 4 |
| Chat.IdNumbers | src/pages/Chat/index.jsx:59 | each session's id parsed as an integer, position by position |
| Chat.IndexOf | src/pages/Chat/index.jsx:58-60 | `find` returns the first position holding the value, or none exactly when no position holds it |
| Chat.CurrentIndex | src/pages/Chat/index.jsx:57-61 | the current session is the first whose parsed id equals the parsed route id; a route id that does not parse matches nothing |
| Chat.FindCurrent | src/pages/Chat/index.jsx:57-61 | `find` yields a session exactly when such a position exists, and it is the session there |
| Chat.ShowInput | src/pages/Chat/index.jsx:230 | the prompt box is shown only for a route that parses and names an open session; when every session with that number is open, it is shown |
| Chat.ShowInputFirstMatch | src/pages/Chat/index.jsx:57-61 | the box is shown exactly when the first session whose id parses to the route's number (the one `find` returns) is open |
| Chat.Reply | src/pages/Chat/index.jsx:147-183 | an empty prompt gets the fixed prompt notice, a failed service call gets the fixed error notice, otherwise the completion's text; nothing is thrown |
| Chat.EmptyPromptIgnoresService | src/pages/Chat/index.jsx:149-151 | for an empty prompt the service's outcome makes no difference |
| Chat.Submit | src/pages/Chat/index.jsx:93-127 | the written record exists exactly when the current session was found; it keeps the route id and the ended flag, carries today's date, and holds the earlier turns unchanged followed by exactly one new `{user, ReX}` turn |
| Chat.UpdateLocal | src/pages/Chat/index.jsx:132-136 | only entries whose id is the route id take the stored record; all others are unchanged |
| Navigation.Modify | src/components/Navigation/index.jsx:59-87 | without a route id the written body is empty; "Clear" writes no chats; any other key keeps the stored chats and fails when no stored session has the id; the record keeps the id, carries today's date, and is ended exactly for "End" |
| Navigation.EndKeepsChats | src/components/Navigation/index.jsx:79-84 | "End" on a stored id writes the same id, today's date, the stored chats unchanged, and ended |
| Navigation.ClearReopens | src/components/Navigation/index.jsx:82-83 | "Clear" always writes no chats and not ended, whatever the store holds |
| Navigation.UpdateLocal | src/components/Navigation/index.jsx:92 | only the entries with the route id take the written record; with no route id or an empty body the list is unchanged |
| EndedChats.Load | src/pages/EndedChats/index.jsx:29-33 | the fetched data replaces the list only when the response holds data |
| EndedChats.IdToString | src/pages/EndedChats/index.jsx:59 | `id.toString()` of a numeric id is its canonical decimal text; a text id is kept |
| EndedChats.Delete | src/pages/EndedChats/index.jsx:56-68 | no session with the id's text is left, every other session stays, nothing new appears, and the length is unchanged exactly when no session had the id |
| EndedChats.DeleteNumericId | src/pages/EndedChats/index.jsx:59-63 | deleting by a numeric id is deleting by its decimal text |
| EndedChats.DeleteKeepsOrder | src/pages/EndedChats/index.jsx:63 | the filter keeps the remaining sessions in their original order: deleting from a concatenation deletes from each part, and one session is kept exactly when its id differs from the id's text |
| EndedChats.Listing | src/pages/EndedChats/index.jsx:85-102 | the cards are those of the ended sessions, in store order, with no limit on the count; every ended session has its card and every card is marked ended |
| Activity.DateLabels | src/pages/Activity/index.jsx:42-47 | one label per session, each the first comma field of that session's date |
| Activity.ChatLengths | src/pages/Activity/index.jsx:49-51 | one bar per session, each that session's number of chats |
| Activity.Load | src/pages/Activity/index.jsx:38-51 | the list is the fetched list reversed, and both chart series line up with it position by position |
| Activity.LoadLabelsOfFormattedDates | src/pages/Activity/index.jsx:42-47 | for stamped sessions the chart labels are "Mon d" of the reversed list's dates |
| Activity.Entries | src/pages/Activity/index.jsx:112-132 | one rendered entry per session, in order |
| Activity.SessionLists | src/pages/Activity/index.jsx:112-132 | "Active Chat:" lists every open session; "Ended Chats:" lists the ended sessions among the first 4 positions, never more than 4 |
| ActivityChatHistory.Title | src/components/ActivityChatHistory/index.jsx:21 | the title is "ReX - " followed by the date |
| ActivityChatHistory.MessageLabel | src/components/ActivityChatHistory/index.jsx:24-26 | the label starts with the count's decimal text followed by " Message" or " Messages", and ends in "s" exactly when the count is above 1 |
| ActivityChatHistory.ParseMessageLabel | src/components/ActivityChatHistory/index.jsx:24-26 | the label reads back as the count it shows |
| ActivityChatHistory.Render | src/components/ActivityChatHistory/index.jsx:20-27 | an entry shows the title of the date and the label of the count |
| Layout.Flags | src/Layout.jsx:37-51 | only "/activity" gets the activity bar; every path other than "/", "/activity" and "/endedChats" gets the chat bar; never both |
| Lifecycle.StartChat | src/pages/Home/index.jsx:81-136 | a start fails exactly when the new id is above 1 and no session has the previous id; otherwise the store grows by one session at the end (the new id, today's date, the introduction, open), and every earlier session keeps its id and is either unchanged or ended by the PATCH |
| Lifecycle.SubmitTurn | src/pages/Chat/index.jsx:93-130 | a prompt fails exactly when the route names no session; otherwise the store keeps its length, sessions with another id are unchanged, and those with the route id get the found session's chats plus one turn, its ended flag and today's date |
| Lifecycle.ModifyChat | src/components/Navigation/index.jsx:59-87 | "End" fails exactly when a route id names no stored session; otherwise every position keeps its id, positions without the route id are unchanged, and those with it carry today's date, are ended exactly for "End", and have no chats after "Clear" |
| Lifecycle.DeleteChat | src/pages/EndedChats/index.jsx:61-63 | after a DELETE no session has the id, every other session stays, nothing new appears, and the length is unchanged exactly when no session had the id |
| Lifecycle.KeysDistinct | src/pages/Home/index.jsx:83-85 | in a well-formed store two positions hold different id numbers and different ids |
| Lifecycle.WfAtMostOneActive | src/pages/Home/index.jsx:108-118 | in a well-formed store at most one session is open |
| Lifecycle.StartChatIsAfterStart | src/pages/Home/index.jsx:81-136 | on a well-formed store, a start with its PATCH and POST always succeeds: it opens "1" on an empty store, otherwise ends the newest session in place and appends one numbered one above it |
| Lifecycle.AfterStartKeepsWf | src/pages/Home/index.jsx:94-129 | a start keeps the store well formed, grows it by one open session holding the introduction, numbered one above the newest, ends the previously newest, and leaves every other session as it was |
| Lifecycle.SubmitTurnKeepsWf | src/pages/Chat/index.jsx:110-130 | a prompt's PATCH keeps the store well formed |
| Lifecycle.SubmitTurnAppends | src/pages/Chat/index.jsx:110-130 | a prompt for a stored session appends exactly one turn to it, keeps its id and ended flag, and changes no other session |
| Lifecycle.EndChatKeepsWf | src/components/Navigation/index.jsx:79-87 | "End" with its PUT keeps the store well formed |
| Lifecycle.EndChatHidesInput | src/pages/Chat/index.jsx:230 | after "End", the chat page finds the session ended and hides the prompt box |
| Lifecycle.StartShowsInput | src/pages/Chat/index.jsx:230 | right after a start on a well-formed store, the chat page for the new session shows the prompt box |
| Lifecycle.DeleteChatKeepsWf | src/pages/EndedChats/index.jsx:61-63 | a DELETE keeps the store well formed |
| Lifecycle.DeleteChatThenNotFound | src/pages/Chat/index.jsx:57-61 | after a delete, the chat page finds no session for that id |
| Lifecycle.ClearBreaksWf | src/components/Navigation/index.jsx:82-83 | "Clear" on the oldest chat while the newest is open succeeds, empties and reopens it, and leaves the store not well formed |
| Scenarios.StartAllKeepsWf | src/pages/Home/index.jsx:81-136 | any run of starts on a well-formed store succeeds, grows it by one per start, leaves at most one session open, and keeps a store numbered 1, 2, … numbered that way |
| Scenarios.StartAllFromEmpty | src/pages/Home/index.jsx:83-85 | `n` starts on an empty store give the ids "1" … "n" in order, with all but the last ended |
| Scenarios.FirstChatWithPrompt | src/pages/Chat/index.jsx:110-117 | the first chat after one prompt holds the introduction and exactly one `{user, ReX}` turn, and is still open |
| Scenarios.EndOnlyChat | src/components/Navigation/index.jsx:79-84 | ending the only chat keeps its turns and ends it |
| Scenarios.StartSecondChat | src/pages/Home/index.jsx:108-129 | after the first chat ended, a start keeps it as it is and opens "2" with the introduction |
| Scenarios.Walkthrough | src/pages/Home/index.jsx:94-129 | start, prompt, end, start: 2 turns in the first chat, kept after it ends; the second chat is "2" and open |

## Left out

- HTTP transport, the document store's server and its failure responses are left out. The store is a sequence. A POST appends, a PATCH or PUT with a full record replaces the record with that id, and a DELETE removes it. Network errors and the `catch` blocks that only log them are not modelled.
- PATCH merge semantics beyond full records are left out: every PATCH the pages send carries a whole session.
- The PUT of the empty body to `/sessions/undefined` (navigation without a route id) is modelled as leaving the store unchanged.
- The completion service call (prompt, model, token limit) is left out. Only its outcome is an input.
- `new Date()` is left out: the month index, day and year are inputs.
- The two-second `setTimeout`, `window.location.reload`, scroll listeners, `AbortController`, the loading spinner and the width check are left out, as timing and browser plumbing.
- React state and stale closures are left out, and so is the in-place mutation of `thisSession.chats` by `push`. The model writes back exactly the record the handler builds.
- JSX rendering, styles and images are left out, as UI only.
- Text.ParseInt: leading white space, a sign, and numbers beyond 2^53 are not modelled. Ids the application writes only ever hold decimal digits (or "NaN").
- Home.NextId: the home page calls `parseInt` without a radix (src/pages/Home/index.jsx:84 and 108-109), so JavaScript reads an id starting with "0x" or "0X" as hexadecimal; the model reads every id as decimal. Only an id the application never writes, such as a hand-edited "0x10", is affected: the page computes "17", finds no "16" and posts nothing, while the model gives "1" and `Home.Create` succeeds.
- Lifecycle.ModifyChat: a PUT to an id the store does not hold ("Clear" on an unknown id) is answered 404 by the document store and the handler's promise rejects; the model leaves the store unchanged but reports success.
- Sessions.Truncate: `.slice(0, 100)` on a string counts UTF-16 code units, while the model counts Dafny characters. The two differ only when a reply's first 100 code units include characters outside the Basic Multilingual Plane, such as an emoji in ReX's reply text.
- Home.Create: the page's list after a start is modelled from the in-place mutation of the found session (`activeSession[0].isSessionEnded = true`). The stale `setSessions(map)` at lines 119-123 is overwritten by the later `setSessions` at line 129.
- Navigation.Modify: the effect of the page reload on the page state, and `setThisSession(res.data)`, are not modelled.
