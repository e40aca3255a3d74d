# Mood Quotes — a verified model of the selection state machine and the quote endpoint

Mood Quotes lets a user pick up to three moods and ask for a short
inspirational quote. The web client (`mood-quotes-web/src/App.jsx`) keeps the
selected moods, a "limit reached" note, the displayed quote and a loading
flag. It sends the selection, joined with `", "` (or `"neutral"` when nothing
is selected), to the quote server. The server (`quote-server/index.js`)
builds a prompt from the mood, asks a chat-completion service for a quote,
and answers `200 {quote}` or `500 {error}`.

This project models both pieces in Dafny and proves what they promise:

- `text.dfy` (module `Text`): JavaScript's `String.prototype.trim`, with the
  exact ECMAScript whitespace set, and `Array.prototype.join`.
- `quote_server.dfy` (module `QuoteServer`): the `/quote` handler as a pure
  function. It normalises the mood, builds the prompt, picks the first
  completion's trimmed text or the fallback quote, and shapes the response.
  The completion call is a parameter `complete: string -> Upstream`, a
  function from the prompt to "the call threw" or "a completion came back".
- `mood_quotes_web.dfy` (module `MoodQuotesWeb`): the App component. The pure
  specification is `Toggle`, `SelectedStr`, `AtLimit`, `CanGetQuote` and
  `Shown`, with lemmas about them. The class `MoodQuotesApp` holds the
  component's four state variables. Its methods `ToggleMood`, `BeginQuote`,
  `FinishQuote` and `GetQuote` update them step by step, as the setters do,
  and are proved against that specification.
- `end_to_end.dfy` (module `EndToEnd`): the client and the server composed.
  It proves what the user ends up seeing for each outcome of the completion call.
- `wrappers.dfy` (module `Wrappers`): the `Option` type used for fields that
  may be missing.

The HTTP request is abstracted. On the client it is a `FetchOutcome`: a
transport error, or a response with its `res.ok` flag and a parsed or
unparseable JSON body. Percent-encoding of the mood on the client and its
decoding on the server are taken to cancel out, so the server receives the
client's display string unchanged.

## Model

| member | source | states |
|---|---|---|
| `Text.IsWhitespace` | quote-server/index.js:30 | the characters `trim` removes are exactly the ECMAScript WhiteSpace and LineTerminator characters, all in the Basic Multilingual Plane |
| `Text.TrimStart` | quote-server/index.js:30 | the result is a suffix of the input and does not start with whitespace |
| `Text.TrimStartDropsWhitespace` | quote-server/index.js:30 | everything the front trim drops is whitespace |
| `Text.TrimEnd` | quote-server/index.js:30 | the result is a prefix of the input and does not end with whitespace |
| `Text.TrimEndDropsWhitespace` | quote-server/index.js:30 | everything the back trim drops is whitespace |
| `Text.Trim` | quote-server/index.js:30 | the trimmed text has no whitespace at either end and is no longer than the input |
| `Text.TrimSplits` | quote-server/index.js:30 | the input is the removed leading part, then the trimmed text, then the removed trailing part |
| `Text.TrimRemovesOnlyWhitespace` | quote-server/index.js:30 | both removed parts are all whitespace, so trim removes nothing else |
| `Text.TrimEmptyIff` | quote-server/index.js:30-31 | trimming gives the empty string exactly when the input is all whitespace |
| `Text.TrimOfTrimmed` | quote-server/index.js:30 | a string with no outer whitespace is unchanged by trim |
| `Text.TrimIdempotent` | quote-server/index.js:30 | trimming twice equals trimming once |
| `Text.Join` | mood-quotes-web/src/App.jsx:28 | joining no entries gives the empty string, and a joined list starts with its first entry |
| `Text.JoinSnoc` | mood-quotes-web/src/App.jsx:28 | joining a list with one more entry appends the separator and that entry (join as a left fold) |
| `Text.JoinEmptyIff` | mood-quotes-web/src/App.jsx:28 | with a non-empty separator, the join is empty exactly for no entries or one empty entry |
| `QuoteServer.NormaliseMood` | quote-server/index.js:18 | a missing or empty mood becomes "neutral", any other mood is kept verbatim, and the result is never empty |
| `QuoteServer.Prompt` | quote-server/index.js:19-21 | the prompt is the fixed prefix, then the mood verbatim, then the fixed suffix |
| `QuoteServer.MoodOfPromptRoundTrip` | quote-server/index.js:19-21 | the mood can be read back out of the prompt |
| `QuoteServer.PromptInjective` | quote-server/index.js:19-21 | different moods give different prompts |
| `QuoteServer.PromptMentionsFeeling` | quote-server/index.js:20 | the prompt contains "feeling " followed by the mood |
| `QuoteServer.MissingMoodPromptsNeutral` | quote-server/index.js:18-21 | a missing or empty mood gives the prompt for "neutral" |
| `QuoteServer.FirstContent` | quote-server/index.js:30 | there is content exactly when choices exist and are non-empty and the first has a message with content, and it is that content |
| `QuoteServer.QuoteOf` | quote-server/index.js:29-31 | the quote is the trimmed content when that is non-blank, else the fallback; either way non-empty with no outer whitespace |
| `QuoteServer.HandleQuote` | quote-server/index.js:16-38 | status 200 exactly with a `{quote}` body, 500 exactly with an `{error}` body; `{quote}` exactly when the call on the prompt for the normalised mood succeeds, and then the quote is `QuoteOf` the first choice's content; the error text is fixed; the quote is non-empty and trimmed |
| `QuoteServer.StubbedCompletion` | quote-server/index.js:29-33 | a service answering with content `t` gives 200 with `t` trimmed, or the fallback when `t` is blank |
| `QuoteServer.NoChoicesGivesFallback` | quote-server/index.js:29-33 | an empty choice list gives 200 with the fallback quote |
| `QuoteServer.FailureGivesError` | quote-server/index.js:34-36 | a throwing service gives 500 with "Failed to generate quote" |
| `MoodQuotesWeb.Without` | mood-quotes-web/src/App.jsx:35 | filtering never grows the list and keeps only entries of the input that differ from the mood |
| `MoodQuotesWeb.WithoutKeepsOthers` | mood-quotes-web/src/App.jsx:35 | every mood other than the one filtered out stays in the list |
| `MoodQuotesWeb.WithoutMultiset` | mood-quotes-web/src/App.jsx:35 | filtering removes every occurrence of the mood and keeps every other entry as often as it occurs |
| `MoodQuotesWeb.WithoutAppend` | mood-quotes-web/src/App.jsx:35 | filtering distributes over concatenation, so relative order is kept |
| `MoodQuotesWeb.WithoutAbsent` | mood-quotes-web/src/App.jsx:35 | filtering out an absent mood changes nothing |
| `MoodQuotesWeb.WithoutSplice` | mood-quotes-web/src/App.jsx:35 | filtering a mood that occurs once between two parts leaves the two parts joined |
| `MoodQuotesWeb.WithoutAt` | mood-quotes-web/src/App.jsx:35 | in a duplicate-free list, removing the entry at index k leaves the entries before k followed by those after k |
| `MoodQuotesWeb.WithoutNoDuplicates` | mood-quotes-web/src/App.jsx:35 | filtering never creates a duplicate |
| `MoodQuotesWeb.Toggle` | mood-quotes-web/src/App.jsx:32-39 | a rejected toggle raises the note and keeps the selection; otherwise the toggle flips whether the mood is selected; no other mood's membership ever changes |
| `MoodQuotesWeb.ToggleRemovesEveryOccurrence` | mood-quotes-web/src/App.jsx:35 | toggling a selected mood removes all its occurrences, keeps the other moods' counts, and leaves the note down |
| `MoodQuotesWeb.ToggleRemovalKeepsOrder` | mood-quotes-web/src/App.jsx:35 | in a duplicate-free selection, toggling the mood at index k leaves the others in their order |
| `MoodQuotesWeb.ToggleAppends` | mood-quotes-web/src/App.jsx:36-37 | toggling an absent mood below the cap appends it at the end; earlier entries are unchanged; the note stays down |
| `MoodQuotesWeb.ToggleRejects` | mood-quotes-web/src/App.jsx:36 | toggling an absent mood at three or more selected leaves the selection unchanged and raises the note |
| `MoodQuotesWeb.LimitNoteIffRejected` | mood-quotes-web/src/App.jsx:33-36 | after a toggle the note is up exactly when the mood was absent and the cap was reached, and then the selection is unchanged |
| `MoodQuotesWeb.ToggleKeepsValid` | mood-quotes-web/src/App.jsx:34-38 | a selection of at most three moods with no duplicates stays so after any toggle |
| `MoodQuotesWeb.ToggleUndoesAppend` | mood-quotes-web/src/App.jsx:35-37 | toggling the same absent mood twice, below the cap, restores the selection |
| `MoodQuotesWeb.FourDistinctClicks` | mood-quotes-web/src/App.jsx:32-39 | four clicks on distinct moods from nothing keep the first three in click order and raise the note |
| `MoodQuotesWeb.AtLimit` | mood-quotes-web/src/App.jsx:72-73 | clicking an at-limit chip raises the note and leaves the selection as it is |
| `MoodQuotesWeb.AtLimitIffRejected` | mood-quotes-web/src/App.jsx:72-73 | a chip is dimmed as at-limit exactly when clicking it would be rejected, and then the click changes nothing |
| `MoodQuotesWeb.CanGetQuote` | mood-quotes-web/src/App.jsx:108 | the button is never enabled while loading, and when enabled the request carries the selected moods joined with ", " |
| `MoodQuotesWeb.GuardBlocksWhileLoading` | mood-quotes-web/src/App.jsx:108 | the button is disabled while loading; otherwise it is enabled exactly when a mood is selected, and then the request carries the joined moods |
| `MoodQuotesWeb.SelectedStr` | mood-quotes-web/src/App.jsx:27-30 | the empty selection displays as "neutral"; otherwise the display string starts with the first mood, and a single mood displays as itself |
| `MoodQuotesWeb.SelectedStrExamples` | mood-quotes-web/src/App.jsx:27-30 | `["sad","tired"]` displays as "sad, tired" and the empty selection as "neutral" |
| `MoodQuotesWeb.SelectedStrAfterAppend` | mood-quotes-web/src/App.jsx:27-30 | selecting one more mood appends ", " and that mood to the display string |
| `MoodQuotesWeb.SelectedStrOfSelection` | mood-quotes-web/src/App.jsx:27-30 | a non-empty selection of non-empty moods displays as a non-empty string beginning with the first mood |
| `MoodQuotesWeb.MoodsNonEmpty` | mood-quotes-web/src/App.jsx:4-8 | every chip label is non-empty |
| `MoodQuotesWeb.Shown` | mood-quotes-web/src/App.jsx:46-50 | a transport error, a non-ok status or an unparseable body shows the error text; an ok reply shows its non-empty quote, or the fallback when the quote is missing or empty; the shown text is never empty |
| `MoodQuotesWeb.MoodQuotesApp.constructor` | mood-quotes-web/src/App.jsx:13-16 | the component starts with no moods, no quote, not loading and no note |
| `MoodQuotesWeb.MoodQuotesApp.ToggleMood` | mood-quotes-web/src/App.jsx:32-39 | the new selection and note are those of `Toggle` on the old selection; quote and loading are unchanged; a valid selection stays valid |
| `MoodQuotesWeb.MoodQuotesApp.BeginQuote` | mood-quotes-web/src/App.jsx:42-45 | loading is on, the quote is cleared, the button is disabled, and the request carries the display string |
| `MoodQuotesWeb.MoodQuotesApp.FinishQuote` | mood-quotes-web/src/App.jsx:46-54 | the quote is what `Shown` gives for the outcome, loading is off, and the button is enabled exactly when a mood is selected |
| `MoodQuotesWeb.MoodQuotesApp.GetQuote` | mood-quotes-web/src/App.jsx:41-55 | after the whole request the shown quote is non-empty and matches the outcome for the display string, loading is off, and the selection is unchanged |
| `EndToEnd.Deliver` | mood-quotes-web/src/App.jsx:46-48 | the client sees `res.ok` exactly for a 2xx status, and a `quote` field exactly for a `{quote}` body, holding the server's quote |
| `EndToEnd.Answer` | mood-quotes-web/src/App.jsx:45 | when every selected mood is a chip label, the server answers with a quote exactly when the service succeeds on the prompt for the display string itself |
| `EndToEnd.ClientShowsServerQuote` | quote-server/index.js:29-36 | the client shows exactly the server's quote when the completion call succeeds and its error text when it fails |
| `EndToEnd.ChipMoodsKept` | mood-quotes-web/src/App.jsx:45 | for any selection of chip moods, the empty one included, the display string is non-empty and the server uses it as the mood unchanged |
| `EndToEnd.EmptyStoredMoodBecomesNeutral` | quote-server/index.js:18 | a stored selection `[""]` displays as "" and the server answers for "neutral" instead |
| `EndToEnd.QuoteFromServer` | mood-quotes-web/src/App.jsx:41-55 | a full request against the server leaves the server's quote or the error text on screen (never empty), loading off, and the selection and the note unchanged |

## Left out

- The chat-completion client and its call (model name, temperature, API key) in quote-server/index.js:14,23-27: an external network service, modelled only as a function from the prompt to its outcome.
- Express, CORS, dotenv, JSON body parsing and `listen` (quote-server/index.js:2-12,40-43): I/O and configuration. The `mood` query value is an optional string. Express turning repeated keys into an array, and that array's `.toString()`, are not modelled.
- `QuoteServer.FirstContent`: the content is an optional string. A non-string content, on which `.trim()` would throw and the handler would answer 500, is not modelled.
- `MoodQuotesWeb.Shown`: the `quote` field is an optional string. A truthy non-string `quote` is not modelled; the page would display it (a number or an array) or fail to render it (an object).
- Strings are sequences of Unicode scalar values, where JavaScript uses UTF-16 code units, so a lone surrogate cannot be represented. On the client such a mood would make `encodeURIComponent` throw, and the page would show the error text. `trim` is unaffected: every whitespace character it removes is a single BMP code unit and never a surrogate.
- Error logging with `console.error` on both sides: output only.
- `fetch`, `res.ok`, `res.json()` and `encodeURIComponent` (mood-quotes-web/src/App.jsx:45-47): network and library calls, abstracted into `FetchOutcome`. Encoding and decoding are taken to be inverses.
- The `localStorage` load and save of the selection (mood-quotes-web/src/App.jsx:19-25): browser storage and JSON. A loaded list is not checked by the source, so the cap and no-duplicate invariant is not assumed. `ToggleMood` promises it only when it held before.
- React's scheduling of state updates. Toggles are modelled as applied one after another, which is what the functional updater `setSelected(prev => …)` gives. Clearing and raising the note happen in the same update.
- Overlapping `getQuote` calls and stale responses: concurrency. The web button is disabled while a request is loading (`BeginQuote` proves that), but nothing else prevents overlap.
- All JSX, styling and the text of labels and titles (mood-quotes-web/src/App.jsx:57-133): presentation.
- The mobile client (mood-quotes-app/app/index.js) and the Streamlit page (app.py). They only select a single mood, call the same service, or repeat the fallback string already modelled here.
