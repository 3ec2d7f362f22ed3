# Sophia chat assistant — a Dafny model

Sophia is a Portuguese-language assistant for the postpartum period. A
Flask backend answers questions from a local knowledge base (by string
similarity), falls back to a language model and then to a generic support
message, flags alarming words and appends emergency phone numbers. A
single-page client (`chat.js`) keeps the transcript, the login and
registration forms, the vaccine checklist, the feature carousel and the
device layout in step with the server's replies. Three maintenance scripts
validate the JSON knowledge files, check the project's coherence and
simulate a dialogue against the knowledge base.

The project models these parts as pure functions over immutable
datatypes:

- `text.dfy` (`Text`): JavaScript `trim` and Python `strip` (the two
  languages disagree on what is whitespace), lower-casing, substring
  search, joining, decimal rendering and UTF-16 length.
- `json.dfy` (`JsonTree`): JSON values as `json.load` returns them, with
  Python truthiness and `dict.get`.
- `backend.dfy` (`Backend`): the chat pipeline of `app.py`, from the alert
  words through the local match, the language-model call, the answer
  choice, the alert block and the phone numbers, to the stored record and
  the two routes `/api/chat` and `/api/historico`.
- `chat_view.dfy` (`ChatView`): `sendMessage`, `loadChatHistory`,
  `clearHistory`, the character counter and the category badge.
- `exchange.dfy` (`Exchange`): the page and the server together.
- `auth_forms.dfy` (`AuthForms`): the login and registration forms and the
  remembered email.
- `greeting.dfy`, `layout.dfy`, `guide_image.dfy`, `carousel.dfy` and
  `vaccines.dfy`: the greeting, the device classes, the guide image
  address, the feature carousel and the vaccine checklist.
- `validate_json.dfy` (`JsonValidator`), `coherence.dfy` (`Coherence`) and
  `dialogue.dfy` (`Dialogue`): the three scripts.

Things the program gets from outside become parameters:

- the similarity ratio of `difflib` is `sim`;
- the language-model client is `llm`, and `None` stands for "no client" or
  "the call raised";
- `random.choice` over the support messages is an index `pick`;
- the clock is `timestamp` or `hour`;
- the fresh client identifier is `freshUserId`;
- local storage is an `Option<string>`;
- a fetch whose request throws or whose body is not JSON is `None`, or
  `RequestFailed` for the chat request; the vaccine status fetch also
  turns a non-2xx status into `None`, while the chat history and the
  vaccine catalogs never look at the status and use whatever body comes
  back (an error object has no `length`, so the history replay then does
  nothing, as with `None`).

Observations the proofs make precise:

- The page trims the question with JavaScript's whitespace and the server
  strips it with Python's. A lone U+001C separator is therefore posted by
  the page and refused with 400 by the server
  (`Exchange.SeparatorQuestionRefused`).
- Registration keeps the password untrimmed, but login trims it. A
  password registered with a leading blank can never be sent back by the
  login form (`AuthForms.PaddedPasswordNotReproducible`).
- The comment in `backend/app.py:174` speaks of the last five interactions.
  The code takes the last ten stored records, that is twenty messages. The
  model follows the code (`Backend.LlmMessagesWindow`).
- A failed untick of a vaccine is not rolled back. The box then shows
  unticked while its item is still styled as taken
  (`Vaccines.FailedUntickDisagrees`).
- Clearing the chat clears only the page. The server keeps the records,
  but they are filed under the old identifier, and the page now uses a
  fresh one (`ChatView.ClearHistory`).

## Model

| member | source | states |
|---|---|---|
| Text.Trim | backend/static/js/chat.js:1131 | the trimmed text is the input without its longest blank prefix and suffix; it is empty exactly when every character is blank, and it neither starts nor ends with a blank |
| Text.TrimIdempotent | backend/static/js/chat.js:1131 | trimming an already trimmed text changes nothing |
| Text.Utf16Length | backend/static/js/chat.js:1049 | the length JavaScript reports is the number of characters exactly when none lies outside the Basic Multilingual Plane, twice that number exactly when all do, and one character counts 2 exactly when it lies outside |
| Text.Utf16LengthAppend | backend/static/js/chat.js:1049 | the length of a concatenation is the sum of the lengths, so each character contributes 1 or 2 independently |
| Text.NatToStringRoundTrip | backend/static/js/chat.js:1050 | the decimal text of a count reads back as that count |
| JsonTree.Lookup | scripts/simulate_dialogue.py:47-48 | `d.get(k)` finds a value exactly when the key occurs, and the value is the one stored under the key's last occurrence |
| Backend.KeepContained | backend/app.py:89-96 | keeps, in order, exactly the words that occur in the text; the result is a subsequence of the word list and repeats none when the list repeats none |
| Backend.DetectAlerts | backend/app.py:87-96 | a word of the alert list of line 76 is reported exactly when it occurs in the lower-cased question; the report follows the list's order and has no repeats |
| Backend.CvvLines | backend/app.py:105-110 | the CVV block is four lines, headed by the help banner |
| Backend.EmergencyLines | backend/app.py:113-118 | the emergency block is four lines (SAMU, firefighters, police), headed by the emergency banner |
| Backend.PhoneLines | backend/app.py:98-118 | the CVV block is present exactly when the lower-cased question speaks of sadness or depression and a CVV entry exists; the emergency block is present exactly when an alert word was found; the number of lines is the sum of both blocks |
| Backend.PhoneText | backend/app.py:98-122 | the appended phone text is empty exactly when neither block applies, and otherwise starts on a new line |
| Backend.BestScore | backend/app.py:129-138 | there is no best index (-1, score 0) exactly when no score is positive; otherwise the index holds the largest score, and no earlier score reaches it |
| Backend.Scores | backend/app.py:129-133 | one similarity score per knowledge entry, in order, each computed on the lower-cased question and entry question |
| Backend.LocalMatch | backend/app.py:124-143 | a local answer is returned exactly when some entry scores above 0.5, and it is the answer of the first best-scoring entry |
| Backend.FirstBestUnique | backend/app.py:134-138 | there is only one first position holding the maximum |
| Backend.LocalMatchIsFirstBest | backend/app.py:124-143 | the local answer, category and score agree with the first best entry of the score list |
| Backend.LastTen | backend/app.py:176 | the history window is the last ten records, or all of them when there are fewer |
| Backend.ExchangeMessages | backend/app.py:177-179 | twice as many messages as records; record i becomes message 2i, a user message with its question, and message 2i+1, an assistant message with its answer |
| Backend.LlmMessages | backend/app.py:168-182 | the system message comes first and carries the persona, then two messages per record of the window, then the question as the last user message |
| Backend.LlmMessagesWindow | backend/app.py:174-179 | only the last ten records reach the model, in their stored order |
| Backend.SelectAnswer | backend/app.py:206-221 | the knowledge base answers exactly when a local answer exists and is either confident (above 0.7) or the model gave nothing; the model answers exactly when the local answer is not confident and the model replied; a support message is used exactly when neither answered and one exists; nothing exactly when all three are missing |
| Backend.ConfidentLocalWins | backend/app.py:206-213 | a confident local match is answered from the knowledge base whatever the model would say |
| Backend.AlertBlock | backend/app.py:223-229 | the alert block starts with the alert heading |
| Backend.AlertBlockListsEveryText | backend/app.py:223-229 | every alert text occurs in the alert block |
| Backend.FinalAnswer | backend/app.py:223-234 | the chosen answer is kept as a prefix; with alerts the heading follows it, and without alerts only the phone text follows it |
| Backend.FinalAnswerCarriesAlerts | backend/app.py:223-234 | with alerts, every configured alert text reaches the final answer, and the answer still ends with the phone text |
| Backend.NoAlertsNoHeading | backend/app.py:223-234 | without alerts, the alert heading never follows the chosen answer |
| Backend.ModelReply | backend/app.py:208-212 | the model contributes nothing when the local match is confident, or when no client is configured (the early return at line 147); otherwise its reply is the client's reply to the persona, the last ten exchanges and the question |
| Backend.Chat | backend/app.py:195-256 | no reply exactly when there is no local answer, no model reply and no support message; otherwise exactly one record is appended for the user, other users' histories are unchanged, and the record holds the question, the reply, the detected alerts and the local match's category |
| Backend.ChatAnswerShape | backend/app.py:206-234 | the reply starts with the selected answer, reports the selected source, and has the alert heading right after the answer exactly when alert words were found |
| Backend.ConfidentLocalSkipsModel | backend/app.py:206-213 | a confident local match never consults the model and is filed as a knowledge-base answer |
| Backend.ApiChat | backend/app.py:266-276 | 400 exactly when the question strips to nothing, and then nothing changes; 500 exactly when a non-blank question makes the chat pipeline raise, and then nothing changes; otherwise the pipeline's history and reply are returned; missing fields default to "" and "default" |
| Backend.ApiHistorico | backend/app.py:278-280 | the history of an unknown user is empty, otherwise it is that user's stored records |
| Backend.AnsweredQuestionIsRecorded | backend/app.py:236-256 | after an answered request the user's history is the old one plus one record holding the question as posted and the returned answer, source and alerts; every other user's history is unchanged |
| ChatView.AlternatingAppend | backend/static/js/chat.js:1131-1232 | gluing two runs of question/answer pairs gives a run of pairs |
| ChatView.BeginSend | backend/static/js/chat.js:1131-1160 | the question is appended, the typing indicator shows, input and send are disabled and the input is emptied |
| ChatView.FinishSend | backend/static/js/chat.js:1165-1232 | exactly one assistant entry is appended: the answer with its category and alerts, a fallback when the answer is empty, or the apology on failure; the page always returns to idle and the alert banner changes only for an answer with alerts |
| ChatView.SendMessage | backend/static/js/chat.js:1124-1232 | a blank input changes nothing; otherwise the trimmed question and one answer entry are appended |
| ChatView.SendKeepsAlternating | backend/static/js/chat.js:1124-1232 | whatever the server does, the transcript stays a run of question/answer pairs |
| ChatView.SentQuestionIsTrimmed | backend/static/js/chat.js:1131-1135 | the question shown is never blank and has no surrounding blanks |
| ChatView.SendShowsReplayOf | backend/static/js/chat.js:1189-1197 | an answered send appends the same two entries that the history replay (lines 1556-1561) appends for that record |
| ChatView.HistoryEntries | backend/static/js/chat.js:1556-1561 | two entries per stored record |
| ChatView.HistoryEntriesAt | backend/static/js/chat.js:1556-1561 | record i is replayed at positions 2i (question) and 2i+1 (answer with category and alerts) |
| ChatView.Pairs | backend/static/js/chat.js:1556-1561 | reading records back from pairs yields one record per pair |
| ChatView.PairsOfHistoryEntries | backend/static/js/chat.js:1556-1561 | replaying loses nothing: the records can be read back from the replayed entries |
| ChatView.HistoryEntriesAlternate | backend/static/js/chat.js:1556-1561 | a replay is a run of question/answer pairs |
| ChatView.LoadChatHistory | backend/static/js/chat.js:1540-1572 | a failed or empty fetch changes nothing; otherwise the welcome screen is hidden, the records' entries are appended in order, and the input, buttons, alert banner and identifier are untouched |
| ChatView.LoadAppendsPairsInOrder | backend/static/js/chat.js:1548-1561 | n records add 2n entries and record i sits at the positions after the old transcript |
| ChatView.LoadKeepsAlternating | backend/static/js/chat.js:1540-1572 | loading keeps the transcript a run of question/answer pairs |
| ChatView.ClearHistory | backend/static/js/chat.js:1574-1598 | without confirmation nothing changes; with it the transcript is emptied, the welcome screen shows and a fresh identifier is used, while the typing flag, input, both disabled flags and the alert banner are untouched |
| ChatView.ClearThenEmptyReplayShowsWelcome | backend/static/js/chat.js:1540-1598 | after a confirmed clear, an empty replay leaves the welcome screen and the empty transcript in place |
| ChatView.ColorFor | backend/static/js/chat.js:1052-1058 | red above 450 characters, orange above 400, gray otherwise |
| ChatView.CharCounter | backend/static/js/chat.js:1043-1059 | the counter reads the input's UTF-16 length followed by "/500", in the color for that length |
| ChatView.ColorMonotone | backend/static/js/chat.js:1052-1058 | a longer input never gets a calmer color |
| ChatView.SendResetsCounter | backend/static/js/chat.js:1138-1142 | a sent question leaves the counter at "0/500" in gray |
| ChatView.SpacedOut | backend/static/js/chat.js:1121 | every underscore becomes a space and nothing else changes |
| ChatView.FormatCategoryNameAsWritten | backend/static/js/chat.js:1120-1122 | the label as written differs from the spaced-out key only in letter case |
| ChatView.FormatCategoryName | backend/static/js/chat.js:1120-1122 | the first letter of each space-separated word is not lower case, and every other character is the spaced-out key's |
| ChatView.FormatCategoryNameOnlyChangesCase | backend/static/js/chat.js:1120-1122 | lower-casing the label gives back the lower-cased spaced-out key |
| ChatView.CategoryBadge | backend/static/js/chat.js:1252-1258 | a badge shows exactly when the entry has a non-empty category; it is the as-written label, as long as the category and equal to the spaced-out key up to case, and the intended label whenever the key is plain ASCII words |
| ChatView.PlainKeyLabelsAgree | backend/static/js/chat.js:1120-1122 | on a key of ASCII letters, digits, underscores and spaces the as-written and the intended labels coincide |
| ChatView.AccentedCategoryCounterexample | backend/static/js/chat.js:1120-1122 | for "amamentação" the as-written label capitalises the final o, while the corrected label is "Amamentação" |
| Greeting.PeriodOf | backend/static/js/chat.js:104-115 | morning from 5 to 11, afternoon from 12 to 17, evening from 18 to 21, night otherwise |
| Greeting.FirstToken | backend/static/js/chat.js:107 | the first token is a prefix of the name without spaces, ending at the first space |
| Greeting.GreetingText | backend/static/js/chat.js:104-122 | the greeting is the salutation of the hour's period and a comma, then the first space-free word of the name, a space and the period's emoji, and nothing more |
| Greeting.UpdateGreeting | backend/static/js/chat.js:89-122 | the greeting changes only when the element exists and the name is truthy |
| Greeting.FirstTokenOfFullName | backend/static/js/chat.js:107 | everything after the first space is dropped |
| Greeting.FirstTokenOfSingleWord | backend/static/js/chat.js:107 | a name without spaces is its own first token |
| Greeting.GreetingIgnoresSurname | backend/static/js/chat.js:104-122 | a surname never changes the greeting |
| Greeting.GreetingDependsOnFirstTokenOnly | backend/static/js/chat.js:104-122 | names with the same first token get the same greeting |
| Greeting.SalutationIdentifiesPeriod | backend/static/js/chat.js:104-122 | hours in different periods get different greetings |
| Greeting.MorningExample | backend/static/js/chat.js:104-122 | at 9 o'clock "Ana Maria" is greeted "Bom dia, Ana" with the sunrise |
| Layout.Rank | backend/static/js/chat.js:1773-1784 | six classes, ranked by growing width |
| Layout.DetectDevice | backend/static/js/chat.js:1773-1784 | each class is chosen exactly on its width band: up to 479, 480-575, 576-767, 768-991, 992-1199, above 1199 |
| Layout.FirstBoundAtLeast | backend/static/js/chat.js:1776-1783 | the index of the first bound at least the width, with every earlier bound below it |
| Layout.DetectDeviceIsTableLookup | backend/static/js/chat.js:1776-1783 | the cascade of comparisons is the lookup in the table of upper bounds |
| Layout.DetectDeviceMonotone | backend/static/js/chat.js:1776-1783 | a wider window never gets a smaller class |
| Layout.DeviceIgnoresHeightAndTouch | backend/static/js/chat.js:1773-1784 | height and touch support never change the class |
| Layout.ClassNamesDistinct | backend/static/js/chat.js:1773-1784 | different classes are announced under different names |
| AuthForms.NormalizeEmail | backend/static/js/chat.js:436 | the email is the typed text without its surrounding JavaScript whitespace, each character lower-cased: as long as the trimmed text, empty exactly when it was blank, with no upper-case letter |
| AuthForms.NormalizeEmailIdempotent | backend/static/js/chat.js:436 | normalising twice changes nothing more |
| AuthForms.StartLogin | backend/static/js/chat.js:435-462 | no request exactly when the email or trimmed password is empty; otherwise the normalised email and trimmed password are sent, and the remembered email is set or removed by the box |
| AuthForms.LoadRememberedEmail | backend/static/js/chat.js:397-415 | a remembered email fills the field and ticks the box; otherwise both stay as they were |
| AuthForms.RememberedEmailRoundTrip | backend/static/js/chat.js:447-453 | after a login with the box ticked, the next visit shows the normalised email and a ticked box |
| AuthForms.ForgottenEmailNotRestored | backend/static/js/chat.js:447-453 | after a login with the box unticked, the next visit leaves the field and box alone |
| AuthForms.LoginNormalisationExample | backend/static/js/chat.js:435-454 | "  Mom@Example.com " is sent and remembered as "mom@example.com" |
| AuthForms.LoginErrorText | backend/static/js/chat.js:513 | the alert text is never empty: the server's error when truthy, else its message when truthy, else the fallback text |
| AuthForms.FinishLogin | backend/static/js/chat.js:464-520 | the session changes exactly when the reply is accepted and the account is not unverified, taking the server's name and identifier; an unverified account offers a resend to the server's or the typed email; a refused login offers a resend to the typed email when the server says it cannot log in yet, and otherwise alerts with the server's error, its message or the fallback text; a failed request reports a network error |
| AuthForms.UnverifiedNeverLogsIn | backend/static/js/chat.js:472-479 | an unverified-account reply never logs in, even with a success status |
| AuthForms.CheckRegister | backend/static/js/chat.js:692-706 | missing name, email or password stops the form; a password under six UTF-16 units stops it; otherwise the trimmed fields and the untouched password are sent |
| AuthForms.RegisteredEmailPrefillsLogin | backend/static/js/chat.js:744-745 | logging in from the pre-filled email sends the normalised registered email |
| AuthForms.PaddedPasswordNotReproducible | backend/static/js/chat.js:437 | login trims the password, so a password with a leading blank, which registration (line 695) keeps as typed, is sent without the blank |
| GuideImage.SchemeFix | backend/static/js/chat.js:2107-2121 | a scheme is prepended exactly when the address has one, contains a dot or starts with //, and the result then has a scheme |
| GuideImage.ImageUrl | backend/static/js/chat.js:2102-2125 | a picture is shown exactly when the trimmed text is non-empty and has a scheme, a dot or a leading //, and its address always has a scheme |
| GuideImage.ImageUrlCases | backend/static/js/chat.js:2107-2121 | an address with a scheme is kept, a // address gets "https:", and a dotted one gets "https://" |
| GuideImage.SchemedAddressKept | backend/static/js/chat.js:2104-2107 | a trimmed address with a scheme is kept as it is |
| GuideImage.ImageUrlIdempotent | backend/static/js/chat.js:2102-2125 | an address produced once comes back unchanged |
| GuideImage.ProtocolRelativeGetsHttps | backend/static/js/chat.js:2109-2112 | a trimmed // address gets "https:" in front |
| Carousel.ItemsPerView | backend/static/js/chat.js:2803-2809 | one item up to 479 pixels, two up to 767, three up to 1024, four above |
| Carousel.TotalSlides | backend/static/js/chat.js:2812-2816 | no slides when every button fits; otherwise the fewest slides holding all buttons, at least two |
| Carousel.Init | backend/static/js/chat.js:2784-2800 | nothing is set up without buttons; otherwise the carousel starts valid at the first slide |
| Carousel.Next | backend/static/js/chat.js:2905-2913 | moves one slide forward unless on the last slide or without slides, and changes nothing else |
| Carousel.Prev | backend/static/js/chat.js:2916-2921 | moves one slide back unless on the first, and changes nothing else |
| Carousel.GoTo | backend/static/js/chat.js:2924-2932 | jumps to a target exactly when it is a slide, and changes nothing else |
| Carousel.Resize | backend/static/js/chat.js:2940-2958 | the width and items per view follow the new width; the slide is kept when the items per view do not change or the slide still exists, and otherwise moves to the last slide |
| Carousel.NextKeepsValid | backend/static/js/chat.js:2905-2913 | the index stays on a slide |
| Carousel.PrevKeepsValid | backend/static/js/chat.js:2916-2921 | the index stays on a slide |
| Carousel.GoToKeepsValid | backend/static/js/chat.js:2924-2932 | the index stays on a slide |
| Carousel.ResizeKeepsValid | backend/static/js/chat.js:2940-2958 | the index stays on a slide after a resize |
| Carousel.Buttons | backend/static/js/chat.js:2884-2894 | both arrows are disabled without slides; otherwise back is disabled on the first slide and forward on the last |
| Carousel.ArrowsMoveIffEnabled | backend/static/js/chat.js:2884-2921 | an enabled arrow always moves one slide, a disabled one never moves |
| Carousel.Dots | backend/static/js/chat.js:2897-2902 | one dot per slide, highlighted exactly at the current slide |
| Carousel.OneActiveDot | backend/static/js/chat.js:2897-2902 | with slides, exactly one dot is highlighted |
| Carousel.NextWalksToLast | backend/static/js/chat.js:2905-2913 | n presses from the first slide reach slide n, stopping at the last |
| Carousel.EightButtonsAt600 | backend/static/js/chat.js:2803-2894 | eight buttons on a 600-pixel window make four slides with only the back arrow disabled |
| Vaccines.FetchStatus | backend/static/js/chat.js:2453-2463 | a failed status request yields empty lists, otherwise the server's lists |
| Vaccines.TakenNames | backend/static/js/chat.js:2465-2520 | the names taken by the recipient the card is for |
| Vaccines.ItemsFor | backend/static/js/chat.js:2465-2477 | one box per listed vaccine, ticked exactly when its name is taken |
| Vaccines.Render | backend/static/js/chat.js:2465-2520 | a card renders exactly when no shown period would throw; it has one box per listed vaccine, ticked exactly when taken |
| Vaccines.CheckedIffTaken | backend/static/js/chat.js:2465-2520 | a box is ticked exactly when its vaccine is in the recipient's status list |
| Vaccines.FailedStatusTicksNothing | backend/static/js/chat.js:2453-2463 | when the status could not be fetched no box is ticked |
| Vaccines.SkippedKeyIgnored | backend/static/js/chat.js:2471 | a skipped catalog key (this line for the mother, line 2514 for the baby) never shows and never throws |
| Vaccines.ImportanteOnlySkippedForMother | backend/static/js/chat.js:2471 | a plain-text "importante" entry is skipped on the mother's card but throws on the baby's |
| Vaccines.ShowVacinas | backend/static/js/chat.js:2402-2450 | the cards show exactly when both catalogs arrive and render; each box is ticked exactly when its name is in the fetched status |
| Vaccines.CelebrationFor | backend/static/js/chat.js:2610-2617 | the user is addressed by the server's name, then the session's, then "Mamãe"; the baby is named exactly when the vaccine is the baby's and a name was given |
| Vaccines.Toggle | backend/static/js/chat.js:2553-2607 | a tick is kept and styled only when the server accepts it, and is reverted otherwise; an untick is styled off only when accepted |
| Vaccines.TickKeepsConsistent | backend/static/js/chat.js:2570-2592 | a tick never leaves the box and its styling disagreeing, and stays ticked exactly when accepted |
| Vaccines.FailedUntickDisagrees | backend/static/js/chat.js:2594-2607 | a failed untick leaves the box unticked while it is still styled as taken |
| Vaccines.AcceptedEndsConsistent | backend/static/js/chat.js:2553-2607 | an accepted answer flips the box and leaves it consistent |
| Exchange.OutcomeOf | backend/static/js/chat.js:1165-1197 | any non-answer reply becomes a failed request; an answer passes on its text and alerts |
| Exchange.StoredItemIsSentItem | backend/app.py:236-256 | the stored record holds the trimmed text the page sent and the reply the page received |
| Exchange.ReplayMatchesLiveExchange | backend/static/js/chat.js:1540-1572 | reloading the page replays an answered exchange exactly as sendMessage (lines 1165-1197) showed it when it was sent |
| Exchange.SeparatorQuestionRefused | backend/app.py:272-273 | a lone U+001C is posted by the page, refused with 400 by the server, and answered on the page with the apology |
| Exchange.SeparatorIsTextToPage | backend/static/js/chat.js:1131 | JavaScript's trim keeps U+001C |
| Exchange.SeparatorIsSpaceToServer | backend/app.py:272 | Python's strip removes U+001C |
| JsonValidator.BlankPaths | scripts/validate_json.py:50-52 | at most one warning path per member occurrence |
| JsonValidator.BlankPathsAppend | scripts/validate_json.py:45-61 | the warnings of two runs of occurrences are the warnings of each run, concatenated |
| JsonValidator.ScalarHasNoOccurrences | scripts/validate_json.py:45-61 | a scalar has no members to walk |
| JsonValidator.WalkReportsBlankMembers | scripts/validate_json.py:45-61 | the walk warns exactly once per object member whose value is "" or null, in document order |
| JsonValidator.ScalarArrayIsSilent | scripts/validate_json.py:57-61 | an array of scalars yields no warning, even when it holds "" or null |
| JsonValidator.ScalarItemsAreSilent | scripts/validate_json.py:57-61 | scalar array items are never reported |
| JsonValidator.WalkPathsExtendPrefix | scripts/validate_json.py:49-59 | every warning path extends the path the walk started from |
| JsonValidator.PathFormatExample | scripts/validate_json.py:49-59 | nested keys are joined with dots and array indices are added in brackets |
| JsonValidator.CheckStructure | scripts/validate_json.py:40-43 | one error exactly when the root is neither an object nor an array, and warnings are untouched |
| JsonValidator.CheckEmptyFields | scripts/validate_json.py:45-61 | errors are untouched; the warnings gain one entry per reachable member whose value is "" or null, in document order and labelled with its path |
| JsonValidator.ValidateFile | scripts/validate_json.py:19-38 | the verdict is whether the shared error list is empty; a file that cannot be read or parsed adds one error |
| JsonValidator.WarningsDoNotMatter | scripts/validate_json.py:19-38 | warnings never change the verdict of a file |
| JsonValidator.RunFrom | scripts/validate_json.py:84-91 | errors and warnings only grow over the run |
| JsonValidator.RunVerdictIsNoErrors | scripts/validate_json.py:84-91 | the run is valid exactly when no error was recorded |
| JsonValidator.ExitStatus | scripts/validate_json.py:64-112 | the exit status is 0 or 1 |
| JsonValidator.ExitStatusFailsIffErrors | scripts/validate_json.py:64-112 | the exit status is 1 exactly when some error was recorded |
| Coherence.CountFile | scripts/check_coherence.py:68-85 | files_checked grows by one and exactly the counter of the file's type grows by one |
| Coherence.ScanStatsCounts | scripts/check_coherence.py:68-85 | after a scan, files_checked is the number of files and each type counter is the number of files of that type |
| Coherence.Window | scripts/check_coherence.py:100-103 | the judged text is at most 200 characters, up to 100 on each side of the position |
| Coherence.ForbiddenWordIssues | scripts/check_coherence.py:97-110 | a word gets a critical issue exactly when it occurs outside an allowed context around its first occurrence |
| Coherence.AtMostOneIssuePerWord | scripts/check_coherence.py:97-110 | each forbidden word yields at most one issue, however often it occurs |
| Coherence.FirstOccurrenceDecides | scripts/check_coherence.py:99-105 | once the first occurrence is excused, appending more text never flags the word |
| Coherence.SelectSchemaFrom | scripts/check_coherence.py:128-132 | the first schema whose pattern occurs in the file stem is chosen |
| Coherence.SelectSchema | scripts/check_coherence.py:124-132 | a schema is chosen exactly when some pattern occurs in the stem, and it is the first such |
| Coherence.AbsentKeys | scripts/check_coherence.py:142 | exactly the expected keys absent from the object, as a subsequence of the expected list |
| Coherence.ObjectValues | scripts/check_coherence.py:137-138 | one entry per object-valued member, the k-th entry holding the k-th such member's object; none exactly when there are none |
| Coherence.CheckedItems | scripts/check_coherence.py:136-138 | the object itself when none of its values is an object, otherwise its object values |
| Coherence.MissingKeyWarnings | scripts/check_coherence.py:140-146 | one warning per checked object with missing keys, in the objects' order, the k-th naming the absent keys of the k-th incomplete object |
| Coherence.FlatObjectCheckedWhole | scripts/check_coherence.py:136-146 | an object without object values is checked as a whole |
| Coherence.CheckJsonFile | scripts/check_coherence.py:87-122 | invalid JSON adds one critical issue and a read failure one warning; a loaded file adds the forbidden-word issues of its lower-cased dump as critical, and the key warnings of the first matching schema, if any |
| Coherence.CheckMessagesCentralization | scripts/check_coherence.py:273-284 | an info line when the messages file exists, a warning otherwise |
| Coherence.CheckConsistency | scripts/check_coherence.py:286-303 | one warning exactly when the welcome text occurs more than once |
| Coherence.ReportVerdict | scripts/check_coherence.py:377-388 | total without issues, inconsistent with only warnings, critical with any critical issue |
| Coherence.ExitCode | scripts/check_coherence.py:409-413 | 1 with critical issues, 2 with only warnings, 0 otherwise |
| Coherence.VerdictMatchesExitCode | scripts/check_coherence.py:377-413 | the printed verdict and the exit code always agree, and info lines change neither |
| Dialogue.GreetingScan | scripts/simulate_dialogue.py:45-52 | a case passes exactly when some entry matches before any entry raises |
| Dialogue.MatchBeforeCrashStep | scripts/simulate_dialogue.py:45-52 | an entry that neither raises nor matches can be skipped |
| Dialogue.GreetingIgnoresInput | scripts/simulate_dialogue.py:29-59 | the greeting test never reads the case's input text |
| Dialogue.GreetingFlow | scripts/simulate_dialogue.py:29-59 | the i-th outcome is the i-th case's own outcome; the test raises exactly when some case's scan raises |
| Dialogue.GreetingFlowNeverFails | scripts/simulate_dialogue.py:29-59 | the greeting test passes or warns, never fails |
| Dialogue.AnyTruthy | scripts/simulate_dialogue.py:71-76 | some entry has a truthy value under the key |
| Dialogue.QuestionFlow | scripts/simulate_dialogue.py:61-81 | passes exactly when some entry has a truthy question and some a truthy answer, and never warns |
| Dialogue.TopicHits | scripts/simulate_dialogue.py:100-106 | an entry counts once for each of the two topics its categoria or pergunta mentions; it raises exactly when one of those members is present and not a string |
| Dialogue.RelatedKeys | scripts/simulate_dialogue.py:96-106 | as many keys as topic mentions over all entries, each the key of some entry; raises exactly when some entry raises |
| Dialogue.ContextContinuity | scripts/simulate_dialogue.py:83-115 | raises exactly when some entry raises; otherwise passes exactly when the topics are mentioned at least twice in all, and never fails |
| Dialogue.SingleEntryKeys | scripts/simulate_dialogue.py:98-106 | an entry's key is appended once per topic it mentions |
| Dialogue.BothTopicsCountTwice | scripts/simulate_dialogue.py:98-111 | one entry mentioning both topics is counted twice and passes the continuity test alone |
| Dialogue.MedicalScan | scripts/simulate_dialogue.py:117-136 | a pass exactly when some answer carries a warning and no entry before it raises; no warning found exactly when no entry matches or raises |
| Dialogue.MedicalBeforeCrashStep | scripts/simulate_dialogue.py:124-129 | an entry that neither raises nor carries a warning can be skipped |
| Dialogue.Entries | scripts/simulate_dialogue.py:21-27 | a missing file reads as no entries; a file json.load rejects, or a top level that is not an object, raises |
| Dialogue.RunAll | scripts/simulate_dialogue.py:138-148 | the greeting outcomes, then the question, context and medical outcomes, in that order; raises exactly when loading or one of the tests raises |
| Dialogue.ExitCode | scripts/simulate_dialogue.py:188-197 | 1 on failure or when the run raises, 2 with warnings only, 0 otherwise |
| Dialogue.FailureMeansIncompleteBase | scripts/simulate_dialogue.py:188-197 | when the run completes, it fails exactly when no entry has a truthy question or no entry has a truthy answer |
| Dialogue.MissingBaseFails | scripts/simulate_dialogue.py:21-27 | a missing knowledge-base file makes the run fail |

## Left out

- Rendering: the DOM, HTML markup, `escapeHtml`, `formatMessage`, scrolling, icons, animations, confetti, sounds and notifications are not modelled. The model keeps only the state the handlers change: the transcript, flags, field values and box ticks.
- Network and storage: `fetch`, Flask's request handling, cookies and `localStorage` are not modelled. They become `Option` values and result datatypes.
- Timers: the resize debounce, orientation delays and the fixed delay before the app starts after login are collapsed into one settled step.
- Interleavings: overlapping asynchronous handlers are not modelled; each handler runs to completion.
- Outside services: `generateUserId`, `random.choice`, `difflib.SequenceMatcher`, the OpenAI client, the clock and the system prompt text are not modelled. Each is a parameter.
- Backend data: the knowledge files are not loaded from disk (`carregar_dados`); they are fields of the configuration. The read-only routes that only return a loaded file (`/api/categorias`, `/api/guias`, the care and vaccine catalog routes) are not modelled.
- Text encoding: `json.dumps` output is a parameter of the coherence model rather than computed, and `encodeURI` of guide images is not modelled.
- Text.ToLower: lower-casing covers ASCII and Latin-1 letters only, while Python's `lower()` and JavaScript's `toLowerCase()` cover all of Unicode (for instance "İ" becomes "i̇", two characters, and the Kelvin sign becomes "k"). Every member that lower-cases inherits this: Backend.Scores, Backend.LocalMatch, Backend.DetectAlerts, Backend.SoundsSad, AuthForms.NormalizeEmail, Coherence.Flagged, Coherence.CheckJsonFile, Dialogue.LowerField and the Dialogue tests built on it.
- JsonTree.Json: json.load collapses a repeated object key into one entry (first position, last value), while a `JObj` keeps every occurrence. `JsonTree.Lookup` follows Python's rule, but the member walks (`JsonValidator.EmptyFieldPaths`, `Coherence.CheckedItems`, `Dialogue.GreetingScan` and the other Dialogue scans) match the scripts only for documents whose objects have distinct keys.
- Coherence checks: the regular-expression checks for JavaScript, HTML, CSS and Python files, the dry-response search and the file walk of `scan_project` are not modelled. They are pattern searches whose counts feed `CountFile` and the issue lists.
- Dialogue.RunAll: the printed report is not modelled; only the outcomes and the exit code are.
- Client screens outside the chat: the forgot-password and resend-verification flows, logout, the sidebar, the feeling buttons, the support links, the resource modals other than the guide image and the vaccine card are not modelled. They only show fetched content or toggle visibility.
- The modal `handleLogin` and `handleRegister` at `backend/static/js/chat.js:1928` and `backend/static/js/chat.js:1997` are not modelled. They are an older copy of the initial forms that are modelled.
- Application startup is not modelled: `start.py` and `chat_puerperio.py` only launch the server.
- The second test of the carousel's resize handler compares the new slide count with a fresh computation of the same count, a test that is always false, so the model drops it. The carousel transform itself is not modelled.

## Findings

| source | as written | input that shows it | evidently intended | confidence | as-written member | corrected member |
|---|---|---|---|---|---|---|
| backend/static/js/chat.js:1120-1122 | `/\b\w/g` upper-cases every ASCII word character that follows a non-word character; in JavaScript an accented letter is not a word character | "amamentação" becomes "AmamentaçãO": the o after "ã" is treated as the start of a word | capitalise only the first letter of each space-separated word | not executed | ChatView.FormatCategoryNameAsWritten (counterexample ChatView.AccentedCategoryCounterexample) | ChatView.FormatCategoryName (ChatView.FormatCategoryNameOnlyChangesCase) |
