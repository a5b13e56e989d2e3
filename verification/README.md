# Order chatbot core in Dafny

This project models the deterministic core of a restaurant ordering
chatbot. Each user utterance goes through two stages:

- **Stage one.** A language model classifies the utterance into one of six
  intents: menu, order, greeting, end, history or irrelevant.
  - The model's reply is decoded as JSON. A decoded object is validated and
    repaired. A reply that does not decode falls back to ordered keyword
    matching.
  - Greeting, history and irrelevant replies are answered at once with the
    classifier's own text. End is answered by a farewell call.
  - Menu and order get a short acknowledgement and a *pending* action.
- **Stage two.** For a pending action, the Streamlit front end calls the
  menu or order handler itself.
  - The order handler pulls a JSON object with the reply text and the cart
    out of the model's answer. It uses a regular expression that allows one
    level of brace nesting.
- **The front end** then does three things. It normalises whatever the
  workflow run returned. It checks and cleans every message with a regex
  sanitizer. It appends the messages and the cart to the session.

The modules follow the program's structure:

| module | file | what it holds |
|---|---|---|
| `Strings` | strings.dfy | ASCII `lower`, `strip`, substring search |
| `Values` | values.dfy | JSON values with Python truthiness, `Option`, a completion of a model call, an outcome that may raise |
| `Sanitizer` | sanitizer.dfy | `clean_response_text` |
| `History` | history.dfy | the 20-message window and the history text of the classification prompt |
| `Classifier` | classifier.dfy | intent repair and the keyword fallback |
| `CartExtractor` | cart_extractor.dfy | the `re.findall` scan and the first accepted object |
| `Workflow` | workflow.dfy | routing, handlers, stage two, `finalize`, one run |
| `App` | app.dfy | `process_message`, the display checks, stage two as the app runs it, the session update |

Modelling choices:

- Every call to a language model becomes an input, a `Completion`: either
  the reply text or the failure's error text.
- `json.loads` becomes a parameter `parse: string -> Option<Json>`.
  `None` stands for `JSONDecodeError`.
- An exception that leaves a step is the `Raised` outcome.
- The workflow's event graph is reduced to the run the app sees:
  - `finalize` accepts the same `ResponseEvent` as stage two and answers
    immediately. So a run ends with the stage-one event, still pending.
  - The app then calls the handler itself. This is modelled by
    `App.StageTwo`.
  - `Workflow.GenerateDetailedResponse` models the workflow's own stage-two
    step on its own terms.

Behaviours of the code worth knowing:

- The sanitizer is not idempotent: `"a @ b"` cleans to `"a  b"`, and a
  second pass gives `"a b"`.
- The classifier rejects eleven fragments, and the display checks six.
- The order handler always returns a list as its cart. A failed call gives
  the empty list, so a failed order empties the session cart.
- A truthy number or `true` as the response of a menu, order or end intent
  passes repair. Then `len()` in the log line at chat_engine.py:178 raises
  `TypeError`. Only `JSONDecodeError` is caught there, so the run fails and
  the user sees the generic error reply.

## Model

| member | source | states |
|---|---|---|
| Strings.Lower | chat_engine.py:145 | `str.lower()` on ASCII: same length, and each character is the lowercase form of the input's character at that position |
| Strings.Strip | app.py:40 | `str.strip()` leaves no whitespace at either end of the result |
| Strings.StripIsSlice | app.py:40 | `str.strip()` returns a slice of its input, everything cut off on either side is whitespace, and every non-whitespace character is kept |
| Strings.BlankIffNoNonSpace | app.py:166 | a string strips to empty exactly when it has no non-whitespace character |
| Sanitizer.Collapse | app.py:33 | `' '.join(text.split())` keeps every non-whitespace character in order, leaves the plain space as the only whitespace, and has none at either end |
| Sanitizer.CollapseKeepsWords | app.py:33 | the collapsed text splits into the same words as the input, and no two whitespace characters are adjacent in it |
| Sanitizer.Words | app.py:33 | `str.split()`: every piece is a non-empty run without whitespace; WordsAfterSpace and WordsAfterWord pin where it cuts |
| Sanitizer.WordsAfterSpace | app.py:33 | `str.split()` skips a leading whitespace character |
| Sanitizer.WordsAfterWord | app.py:33 | `str.split()` cuts a whitespace-free word exactly where whitespace or the end follows it |
| Sanitizer.ConcatWords | app.py:33 | the pieces of `str.split()` together hold exactly the non-whitespace characters of the text, in order |
| Sanitizer.WordsOfJoin | app.py:33 | joining non-empty whitespace-free words with single spaces and splitting the result gives back the same words |
| Sanitizer.NonSpaceOfJoin | app.py:33 | joining whitespace-free words with single spaces adds no non-whitespace character: the result's are the words' concatenation |
| Sanitizer.KeepAllowed | app.py:36 | every character left is in the allow-list, the non-whitespace characters left are exactly the input's visible ones in order, and no whitespace other than the plain space is introduced |
| Sanitizer.KeepAllowedKeepsAllowed | app.py:36 | text made only of allowed characters comes back unchanged |
| Sanitizer.BoldGainsSpaceBefore | app.py:38 | the first `**` at the start or after a non-whitespace character gets a space in front of it, and the text before it is kept |
| Sanitizer.BoldGainsSpaceAfter | app.py:39 | the first `**` at the end or before a non-whitespace character gets a space after it, and the text before it is kept |
| Sanitizer.SpaceBeforeBoldKeepsNonSpace | app.py:38 | padding in front of the bold markers only inserts spaces: the non-whitespace characters are unchanged |
| Sanitizer.SpaceAfterBoldKeepsNonSpace | app.py:39 | padding after the bold markers only inserts spaces: the non-whitespace characters are unchanged |
| Sanitizer.CleanString | app.py:32-40 | the cleaned string holds only displayable characters, has no space at either end, and keeps exactly the input's allowed non-whitespace characters, in order |
| Sanitizer.CleanResponseText | app.py:28-40 | a non-string comes back as its `str()` form; a string comes back cleaned as above |
| Sanitizer.CleanPlainText | app.py:32-40 | on text of allowed characters without `*`, cleaning is exactly the whitespace normalisation: the words kept, separated by single spaces |
| Sanitizer.CleanedSpacesArePlain | app.py:33-40 | the only whitespace left after cleaning is the plain space |
| Sanitizer.CleanedEmptyIff | app.py:174 | cleaning gives the empty string exactly when the input has no visible character |
| Sanitizer.CleanTwiceKeepsVisible | app.py:28-40 | a second cleaning removes no further visible character |
| Sanitizer.CleanNotIdempotent | app.py:33-36 | a disallowed character between two spaces leaves a double space that only a second cleaning collapses |
| Sanitizer.CleanDropsSymbol | app.py:33-36 | collapsing runs before filtering, so a dropped symbol leaves two spaces behind |
| Sanitizer.CleanCollapsesDoubleSpace | app.py:33 | a double space between two words becomes one |
| Sanitizer.NoStarUnchanged | app.py:38-39 | text without `*` is not touched by the bold-marker padding |
| Sanitizer.KeepAllowedOfNonSpace | app.py:33-36 | dropping all whitespace first and filtering the allow-list afterwards also leaves exactly the visible characters |
| History.ToChatMessage | chat_engine.py:551-552 | the role `"user"` becomes USER and every other role ASSISTANT; the content is kept |
| History.RecentHistory | chat_engine.py:545-552 | the workflow sees the last `min(20, n)` messages in their order, each converted |
| History.FormatHistory | chat_engine.py:62-66 | an empty history renders as the placeholder, a single message as its own line, and a longer history starts with the first message's line |
| History.FormatAppend | chat_engine.py:62-66 | one more message adds exactly one more line |
| History.FormatSplitsBack | chat_engine.py:62-66 | with no line break in any content, splitting the rendered history at line breaks gives back one line per message |
| Classifier.FallbackFor | chat_engine.py:163-176 | each canned reply for greeting, history and irrelevant is itself a usable reply |
| Classifier.FallbackChoice | chat_engine.py:163-176 | greeting and history get their own canned replies, and every other intent the irrelevant one |
| Classifier.RepairDirect | chat_engine.py:158-176 | for a directly answered intent a usable response is kept and any other value is replaced by that intent's canned reply; other intents keep their value; the value has a length exactly when the intent is direct or the input had one |
| Classifier.Repair | chat_engine.py:144-178 | every repaired verdict is well formed; a valid intent is kept, with its response repaired by the direct-reply check (a missing or falsy response read as `""`) |
| Classifier.FromFields | chat_engine.py:144-178 | a truthy non-string intent raises; any other intent is lowercased (missing or falsy read as `""`) and the verdict is the repair of it and the response |
| Classifier.FromObject | chat_engine.py:144-146 | a decoded object is judged by its `"intent"` and `"response"` values alone, a missing key being `None`; the verdict is well formed |
| Classifier.MissingKeysReadAsNone | chat_engine.py:144-151 | an object without an intent is classified irrelevant, and one with neither key gets the generic apology |
| Classifier.RepairRaisesIff | chat_engine.py:146-178 | the repair raises exactly for a valid menu, order or end intent with a truthy number or `true` as response, whose `len()` fails |
| Classifier.FromFieldsRaisesIff | chat_engine.py:144-178 | the decoded-object path raises exactly when the intent has no `lower` or the repair raises |
| Classifier.InvalidIntentIsIrrelevant | chat_engine.py:150-176 | a missing or invalid intent becomes irrelevant; the generic apology is used only without a response; a usable response is kept, and any other value gives the irrelevant fallback |
| Classifier.ValidIntentKept | chat_engine.py:145-150 | a valid lowercased intent is kept |
| Classifier.IntentCaseInsensitive | chat_engine.py:145 | two intents with the same lowercase form give the same verdict |
| Classifier.KeywordFallback | chat_engine.py:183-208 | the keyword fallback always gives a valid intent, never history, and a usable reply when it answers directly |
| Classifier.KeywordReplies | chat_engine.py:197-208 | the keyword fallback answers a greeting and an irrelevant text with their own canned replies |
| Classifier.KeywordPrecedence | chat_engine.py:190-208 | each intent is chosen exactly when its keywords match and no earlier group's do; only greeting and irrelevant set a reply |
| Classifier.KeywordFallbackIgnoresCase | chat_engine.py:190 | the keyword fallback gives the same verdict for a text and its lowercase form |
| Classifier.ParseVerdict | chat_engine.py:139-208 | undecodable text goes to the keyword fallback; a decoded non-object gives irrelevant with the processing apology; a decoded object is judged by its intent and response fields |
| Classifier.Classify | chat_engine.py:128-208 | a failing model call raises; the stripped reply text is classified by keywords when it does not decode, as irrelevant when it decodes to a non-object, and by its fields when it decodes to an object |
| Classifier.CannedIsUsable | chat_engine.py:156-176 | a reply whose last three characters are not whitespace is usable, because none of the fragments is that long |
| CartExtractor.Close | chat_engine.py:477 | a match that ends does so at a closing brace after its start |
| CartExtractor.CloseIff | chat_engine.py:477 | from an opening brace, the scan ends at position `j` exactly when `j` holds `}` and the braces before it alternate as the pattern allows (one level of nesting) |
| CartExtractor.Spans | chat_engine.py:477 | every span found lies inside the text after the scan's start |
| CartExtractor.SpansAreMatches | chat_engine.py:477 | every span is a match of the pattern, and the spans are in order and do not overlap |
| CartExtractor.SpansCover | chat_engine.py:477 | every position where a match could start lies inside some span: the scan misses no match |
| CartExtractor.Candidates | chat_engine.py:477 | one candidate per span, the text between its braces inclusive |
| CartExtractor.CandidatesWellFormed | chat_engine.py:477 | every candidate is `{`, a body nesting at most one level, and `}` |
| CartExtractor.FirstAccepted | chat_engine.py:481-493 | the index found is the first candidate that decodes to an object with a `"response"` key; none is found only when no candidate qualifies |
| CartExtractor.CartOf | chat_engine.py:488-489 | a list-valued `"cart"` is adopted as the cart; a missing or non-list cart gives the empty list |
| CartExtractor.ExtractCart | chat_engine.py:468-502 | without an accepted candidate the text is kept with an empty cart; otherwise the reply and cart come from the first accepted candidate |
| CartExtractor.NoBraceKeepsText | chat_engine.py:477-502 | an answer with no opening brace is returned as it stands, with an empty cart |
| CartExtractor.ExtractsEmbeddedObject | chat_engine.py:477-491 | an accepted object after brace-free prose supplies the reply and cart, whatever follows it |
| CartExtractor.FirstSpan | chat_engine.py:477 | the first match starts at the first opening brace that begins a match |
| Workflow.ReplyOr | chat_engine.py:399-409 | a handler returns the model's reply, or an apology that ends with the error text |
| Workflow.MenuHandler | chat_engine.py:370-409 | the menu handler returns the model's reply, or its apology followed by the error text |
| Workflow.FarewellHandler | chat_engine.py:507-532 | the farewell handler returns the model's reply, or its apology followed by the error text |
| Workflow.OrderHandler | chat_engine.py:411-505 | a successful order call gives what the extraction finds in the reply; a failed one gives the apology that ends with the error, and an empty cart |
| Workflow.OrderAckFor | chat_engine.py:230-234 | the change acknowledgement is chosen exactly when the lowercased query holds a change word |
| Workflow.IntentAction | chat_engine.py:217-291 | the intent table: menu and order go to their pending actions; greeting, end, history and irrelevant to their own final actions; anything else to the error action |
| Workflow.Direct | chat_engine.py:240-302 | a string direct response is the reply with the intent's action; any other value fails the event and gives the routing apology with the error action; no cart |
| Workflow.Route | chat_engine.py:217-302 | the step is pending exactly for menu and order, carrying the query and no cart; end is answered by the farewell handler; an unknown intent gets the fallback apology; a finished record has no cart and, for a string reply, the table's action |
| Workflow.ClassifyAndRespond | chat_engine.py:52-302 | stage one raises exactly when the classification raises |
| Workflow.GenerateDetailedResponse | chat_engine.py:304-350 | a non-pending event passes through without a cart; only an order answer carries a cart, and every element of that cart is an object |
| Workflow.FinalizeForgetsQuery | chat_engine.py:352-368 | `finalize` keeps the reply, the action and the cart and forgets only the original query: two events finalize alike exactly when those three agree |
| Workflow.Run | chat_engine.py:52-368 | a run raises exactly when classification raises; otherwise its result is the routed stage-one record of a well-formed verdict |
| Workflow.WellFormedRoutesByTable | chat_engine.py:217-302 | a well-formed verdict is routed by the intent table: no fallback branch, no routing failure, and direct intents carry the classifier's non-blank text |
| Workflow.PendingIffMenuOrOrder | chat_engine.py:217-239 | a run ends pending exactly for menu and order, with the matching acknowledgement |
| Workflow.StageTwoIsFinal | chat_engine.py:305-350 | stage two leaves nothing pending, so a second pass only drops the cart |
| Workflow.StageTwoTransitions | chat_engine.py:313-339 | without a query a pending event becomes an error; with one, the menu handler's reply or the order handler's reply and cart are the answer, and the order step raises exactly when the reply is not a string or a cart element is not an object |
| Workflow.OrderFailureEmptiesCart | chat_engine.py:327-336 | a failed order call gives the apology that names the error, and an empty cart |
| App.ProcessMessage | app.py:42-105 | the workflow's own stop event passes unchanged; an exception, `None` or an unexpected type becomes an error without a cart; a plain `StopEvent` becomes unknown |
| App.ProcessMessageTexts | app.py:42-105 | the reply texts for an exception, a `None` result, a plain `StopEvent` and an unexpected type |
| App.DisplayStageOne | app.py:166-177 | the first reply is either shown cleaned with its action kept, or replaced with the error action |
| App.DisplayStageOneByVisible | app.py:166-177 | the first reply is replaced by the apology exactly when it has no visible character; otherwise it is shown cleaned with its action |
| App.CleanedIsNoFragment | app.py:174 | cleaned text never strips to one of the fragments, so that test never fires |
| App.Unwrap | app.py:246-253 | a string that looks like an object once stripped and decodes to an object with a `"response"` key becomes that value; every other answer is kept as it is |
| App.HandlerAnswer | app.py:231-235 | a pending menu action is answered by the menu handler, a pending order action by the order handler's reply |
| App.CheckDetails | app.py:255-263 | the answer passes exactly when it is a non-empty string that does not strip to a fragment; an apology ends with a full stop |
| App.DetailApologies | app.py:255-263 | a falsy value or a fragment gets the no-details apology, and a truthy non-string the error apology |
| App.CleanChecked | app.py:266-273 | text with no visible character becomes the no-details apology with the error action; any other text is shown cleaned with its action |
| App.Examine | app.py:255-273 | an answer that passes the detail check is shown cleaned with the final action, or becomes the no-details apology when nothing visible is left; a failing answer is replaced by its cleaned apology with the error action |
| App.ExamineSucceedsIff | app.py:255-273 | stage two keeps its action exactly when the answer is a string with a visible character that does not strip to a fragment |
| App.StageTwo | app.py:216-273 | only an order carries the handler's cart; a kept action comes with the cleaned unwrapped answer; on error, an answer that fails the detail check gives its cleaned apology, and one that passes but cleans to nothing gives the no-details apology |
| App.StageTwoSucceedsIff | app.py:216-273 | the same condition applied to the handler's unwrapped answer |
| App.AfterStageOne | app.py:121-201 | the earlier messages are kept as a prefix, followed by the user message and the first reply as displayed; the session cart changes only when the record carries one |
| App.AfterStageTwo | app.py:230-285 | the earlier messages are kept as a prefix, followed by the second message; the session cart changes only when stage two carries one |
| App.Submit | app.py:118-289 | a submission keeps all earlier messages and appends the user message, the first reply as displayed and, exactly when the first display kept a pending action, stage two's message |
| App.WorkflowHistory | app.py:134-137 | the workflow's history is the last `min(20, n)` messages before the prompt, in order, each converted |
| App.CartReplacement | app.py:196-239 | the session cart changes only when a cart arrives: from the stage-one record, or always from the order handler, even when it is empty |
| App.StageTwoMessageShown | app.py:266-287 | the message stage two appends is displayable or the no-details apology |
| App.HistoryExcludesPrompt | app.py:134-137 | the workflow's history is the window over the messages before the prompt |
| App.PendingRecordReachesStageTwo | app.py:166-216 | a pending record with visible text gets its cleaned reply and a stage-two message |
| App.MenuAndOrderReachStageTwo | app.py:166-216 | every recognised menu or order request gets the cleaned acknowledgement and a stage-two message |
| App.OrderAckForVisible | chat_engine.py:230-234 | both order acknowledgements have visible text |

## Left out

- The prompts and the language-model calls themselves. Each call is an input, its reply or its error text.
- Event dispatch, `async` and the workflow timeout. A run is modelled as stage one followed by `finalize`.
- Streamlit rendering, the action log, timing and `response_times`.
- `json.loads` itself, including NaN and Infinity. Decoding is a parameter.
- Exceptions other than `JSONDecodeError` inside decoding, such as `RecursionError`.
- Unicode whitespace and case folding. Strings are ASCII, and `isspace` covers space, `\t` to `\r` and `\x1c` to `\x1f`.
- The display-error path at app.py:203-213. Nothing in the modelled first display raises.
- The outer `except` at app.py:107-116. Nothing inside its `try` outside the inner one can raise.
- The invalid-response branch at app.py:155. `process_message` always returns a `ChatResponseStopEvent`.
- A model reply whose content is `None`. Every modelled reply is a string.
- Settings, the utilities, `menu_to_string`, the UI components and the menu data.
- App.Submit: takes the record `process_message` returned, not the raw run outcome. `App.ProcessMessage` states the normalisation separately.
- Workflow.GenerateDetailedResponse: the validation of the order event is reduced to "a non-string reply or a non-object cart element raises". Pydantic's coercions are not modelled.
