/** The Streamlit front end's logic (app.py:42-289): normalising the
    workflow's result in `process_message`, checking and cleaning the first
    reply, running stage two for a pending action, and updating the
    session's messages and cart in `handle_chat_submission`. Rendering,
    timing and the action log are not modelled. */
module App {
  import opened Strings
  import opened Values
  import opened Sanitizer
  import opened Workflow
  import Classifier
  import History

  /** What `workflow.run` hands to `process_message`: an exception, `None`,
      the workflow's own stop event, a plain `StopEvent` (whether its
      `result` is truthy, and its `str()`), or an object of another type. */
  datatype RunOutcome =
    | RunRaised
    | RunNone
    | RunChatStop(record: Record)
    | RunPlainStop(resultTruthy: bool, resultShown: string)
    | RunOther(typeName: string)

  const RunFailureReply: string :=
    "I'm sorry, I encountered an error while processing your request. Please try again with different wording."
  const NoResultReply: string :=
    "I'm sorry, but something went wrong with my processing. The workflow returned no response."
  const EmptyStopReply: string := "No response available from StopEvent"
  const UnexpectedTypePrefix: string := "Got unexpected result type: "
  const InitialApology: string :=
    "I'm sorry, I didn't generate a proper initial response. Please try again."
  const NoDetailsReply: string := "I'm sorry, I didn't receive valid details."
  const DetailsErrorReply: string := "Sorry, I encountered an error while getting the details."

  /** The six fragments the display checks reject (app.py:174, 255, 270). */
  predicate IsDisplayFragment(t: string) {
    t == "{" || t == "}" || t == "[]" || t == "[" || t == "]" || t == "{}"
  }

  /** `process_message` (app.py:42-116): always a stop event. The workflow's
      own stop event passes through unchanged; an exception, `None` or an
      unexpected type becomes an error, a plain `StopEvent` the action
      unknown. */
  function ProcessMessage(o: RunOutcome): (r: Record)
    ensures o.RunChatStop? ==> r == o.record
    ensures !o.RunChatStop? ==> r.cart == None
    ensures o.RunRaised? || o.RunNone? || o.RunOther? ==> r.action == Error
    ensures o.RunPlainStop? ==> r.action == Unknown
  {
    match o
    case RunRaised => Record(RunFailureReply, Error, None)
    case RunNone => Record(NoResultReply, Error, None)
    case RunChatStop(record) => record
    case RunPlainStop(truthy, shown) => Record(if truthy then shown else EmptyStopReply, Unknown, None)
    case RunOther(typeName) => Record(UnexpectedTypePrefix + typeName, Error, None)
  }

  /** The check and cleaning of the first reply (app.py:166-177): the text
      shown and the action the app goes on with. */
  function DisplayStageOne(r: Record): (d: (string, Action))
    ensures d.1 == Error || d.1 == r.action
    ensures d.1 != Error ==> d.0 == CleanString(r.response)
  {
    if IsBlank(r.response) then (InitialApology, Error)
    else
      var cleaned := CleanString(r.response);
      if cleaned == [] || IsDisplayFragment(Strip(cleaned)) then (InitialApology, Error)
      else (cleaned, r.action)
  }

  /** A string that starts with `{` and ends with `}` once stripped. */
  predicate LooksLikeObject(content: Json) {
    content.JString? && StartsWith(Strip(content.s), "{") && EndsWith(Strip(content.s), "}")
  }

  /** The value that replaces `content` when it is unwrapped: the
      `"response"` of the object it decodes to. */
  predicate HasInnerResponse(content: Json, parse: string -> Option<Json>) {
    LooksLikeObject(content) && parse(content.s).Some? && parse(content.s).value.JObject? &&
    "response" in parse(content.s).value.fields
  }

  /** The unwrapping at app.py:246-253: a string that looks like an object
      once stripped is decoded as it stands, and an object's `"response"`
      replaces it; anything else, including text that fails to decode, is
      kept. */
  function Unwrap(content: Json, parse: string -> Option<Json>): (r: Json)
    ensures HasInnerResponse(content, parse) ==> r == parse(content.s).value.fields["response"]
    ensures !HasInnerResponse(content, parse) ==> r == content
    ensures r != content ==>
      content.JString? && parse(content.s).Some? && parse(content.s).value.JObject? &&
      "response" in parse(content.s).value.fields && r == parse(content.s).value.fields["response"]
  {
    if content.JString? && StartsWith(Strip(content.s), "{") && EndsWith(Strip(content.s), "}") then
      match parse(content.s)
      case Some(JObject(fields)) => if "response" in fields then fields["response"] else content
      case _ => content
    else content
  }

  /** The check at app.py:255-263: `None` when the value passes, else the
      apology that replaces it. A falsy value or a fragment gives the
      no-details apology; a truthy value that is not a string has no
      `strip`, and the exception gives the error apology. Both apologies end
      with a full stop, so both keep visible text when cleaned. */
  function CheckDetails(content: Json): (r: Option<string>)
    ensures r == None <==> content.JString? && content.s != [] && !IsDisplayFragment(Strip(content.s))
    ensures r.Some? ==> r.value != [] && r.value[|r.value| - 1] == '.'
  {
    if !content.Truthy() then Some(NoDetailsReply)
    else if !content.JString? then Some(DetailsErrorReply)
    else if IsDisplayFragment(Strip(content.s)) then Some(NoDetailsReply)
    else None
  }

  /** The outcome of stage two in the app: the second message, its action,
      and the cart the order handler returned. */
  datatype Details = Details(message: string, action: Action, cart: Option<seq<Json>>)

  /** The cleaning of the second message and the last check
      (app.py:266-273), whose apology is shown uncleaned. */
  function CleanChecked(text: string, action: Action): (r: (string, Action))
    ensures r.1 == Error || r.1 == action
    ensures r.0 == NoDetailsReply || AllDisplayable(r.0)
    ensures Visible(text) == [] ==> r == (NoDetailsReply, Error)
    ensures Visible(text) != [] ==> r == (CleanString(text), action)
  {
    CleanedEmptyIff(text);
    CleanedIsNoFragment(text);
    var cleaned := CleanString(text);
    if cleaned == [] || IsDisplayFragment(Strip(cleaned)) then (NoDetailsReply, Error)
    else (cleaned, action)
  }

  /** The unwrapped answer checked, cleaned and checked once more
      (app.py:255-273): the message shown and its action. An apology from
      the first check is cleaned like any answer. */
  function Examine(u: Json, final: Action): (r: (string, Action))
    ensures r.1 == Error || r.1 == final
    ensures r.0 == NoDetailsReply || AllDisplayable(r.0)
    ensures CheckDetails(u).None? && Visible(u.s) != [] ==> r == (CleanString(u.s), final)
    ensures CheckDetails(u).None? && Visible(u.s) == [] ==> r == (NoDetailsReply, Error)
    ensures CheckDetails(u).Some? ==> r == (CleanString(CheckDetails(u).value), Error)
  {
    match CheckDetails(u)
    case Some(apology) =>
      VisibleAt(apology, |apology| - 1);
      CleanChecked(apology, Error)
    case None => CleanChecked(u.s, final)
  }

  /** The answer of the handler for a pending action, before unwrapping. */
  function HandlerAnswer(pending: Action, menuReply: Completion, orderReply: Completion,
                         parse: string -> Option<Json>): (r: Json)
    ensures pending == MenuInquiryPending ==> r == JString(MenuHandler(menuReply))
    ensures pending != MenuInquiryPending ==> r == OrderHandler(orderReply, parse).0
  {
    if pending == MenuInquiryPending then JString(MenuHandler(menuReply))
    else OrderHandler(orderReply, parse).0
  }

  /** Stage two as the app runs it (app.py:216-273): the handler for the
      pending action is called directly, its answer is unwrapped and
      examined, and the order handler's cart is kept. */
  function StageTwo(pending: Action, menuReply: Completion, orderReply: Completion,
                    parse: string -> Option<Json>): (r: Details)
    requires pending.IsPending()
    ensures r.action == Error || r.action == (if pending == MenuInquiryPending then MenuInquiry else OrderAction)
    ensures r.cart == (if pending == OrderActionPending then Some(OrderHandler(orderReply, parse).1) else None)
    ensures r.message == NoDetailsReply || AllDisplayable(r.message)
    ensures var u := Unwrap(HandlerAnswer(pending, menuReply, orderReply, parse), parse);
      r.action != Error ==> u.JString? && r.message == CleanString(u.s)
    ensures var u := Unwrap(HandlerAnswer(pending, menuReply, orderReply, parse), parse);
      r.action == Error ==>
        r.message == NoDetailsReply || (CheckDetails(u).Some? && r.message == CleanString(CheckDetails(u).value))
    ensures var u := Unwrap(HandlerAnswer(pending, menuReply, orderReply, parse), parse);
      r.action == Error ==>
        (CheckDetails(u).Some? ==> r.message == CleanString(CheckDetails(u).value)) &&
        (CheckDetails(u).None? ==> r.message == NoDetailsReply)
  {
    var final := if pending == MenuInquiryPending then MenuInquiry else OrderAction;
    var cart := if pending == OrderActionPending then Some(OrderHandler(orderReply, parse).1) else None;
    var (message, action) := Examine(Unwrap(HandlerAnswer(pending, menuReply, orderReply, parse), parse), final);
    Details(message, action, cart)
  }

  /** The state a chat session keeps between submissions. */
  datatype Session = Session(messages: seq<History.Message>, cart: seq<Json>)

  /** The history a submission hands to the workflow (app.py:134-137 and
      chat_engine.py:545-552): the user message is appended first, and
      everything before it is windowed. */
  function WorkflowHistory(s: Session, prompt: string): (r: seq<History.ChatMessage>)
    ensures |r| == if |s.messages| < History.WindowSize then |s.messages| else History.WindowSize
    ensures forall i :: 0 <= i < |r| ==> r[i] == History.ToChatMessage(s.messages[|s.messages| - |r| + i])
  {
    var appended := s.messages + [History.Message("user", prompt)];
    assert appended[..|appended| - 1] == s.messages;
    History.RecentHistory(appended[..|appended| - 1])
  }

  /** The session after the user message and the first reply are
      appended and the stage-one cart is taken over (app.py:121-201),
      with the action the app goes on with. */
  function AfterStageOne(s: Session, prompt: string, record: Record): (r: (Session, Action))
    ensures s.messages <= r.0.messages && |r.0.messages| == |s.messages| + 2
    ensures r.0.messages[|s.messages|] == History.Message("user", prompt)
    ensures r.0.messages[|s.messages| + 1] == History.Message("assistant", DisplayStageOne(record).0)
    ensures record.cart.None? ==> r.0.cart == s.cart
    ensures record.cart.Some? ==> r.0.cart == record.cart.value
    ensures r.1 == DisplayStageOne(record).1
  {
    var (first, action) := DisplayStageOne(record);
    var messages := s.messages + [History.Message("user", prompt)] + [History.Message("assistant", first)];
    (Session(messages, if record.cart.Some? then record.cart.value else s.cart), action)
  }

  /** The session after stage two's message is appended and the order
      handler's cart is taken over (app.py:238-239, 285). */
  function AfterStageTwo(s: Session, details: Details): (r: Session)
    ensures s.messages <= r.messages && |r.messages| == |s.messages| + 1
    ensures r.messages[|s.messages|] == History.Message("assistant", details.message)
    ensures details.cart.None? ==> r.cart == s.cart
    ensures details.cart.Some? ==> r.cart == details.cart.value
  {
    Session(s.messages + [History.Message("assistant", details.message)],
            if details.cart.Some? then details.cart.value else s.cart)
  }

  /** `handle_chat_submission` (app.py:118-289) given the stop event
      `process_message` returned for the run and the completions stage two
      would receive. */
  function Submit(s: Session, prompt: string, record: Record, menuReply: Completion,
                  orderReply: Completion, parse: string -> Option<Json>): (r: Session)
    ensures |s.messages| + 2 <= |r.messages| <= |s.messages| + 3
    ensures s.messages <= r.messages
    ensures r.messages[|s.messages|] == History.Message("user", prompt)
    ensures r.messages[|s.messages| + 1].role == "assistant"
    ensures |r.messages| == |s.messages| + 3 <==> DisplayStageOne(record).1.IsPending()
    ensures r.messages[|s.messages| + 1] == History.Message("assistant", DisplayStageOne(record).0)
    ensures DisplayStageOne(record).1.IsPending() ==>
      r.messages[|s.messages| + 2] ==
        History.Message("assistant", StageTwo(DisplayStageOne(record).1, menuReply, orderReply, parse).message)
  {
    var (first, action) := AfterStageOne(s, prompt, record);
    if action.IsPending() then AfterStageTwo(first, StageTwo(action, menuReply, orderReply, parse))
    else first
  }

  // ---------------------------------------------------------------------
  // Properties

  /** The first reply is rejected exactly when it has no visible character;
      otherwise it is shown cleaned and the action is kept. The fragment
      test after cleaning never fires, since every fragment holds a brace
      or bracket and cleaning removes them. */
  lemma DisplayStageOneByVisible(r: Record)
    ensures DisplayStageOne(r) ==
      if Visible(r.response) == [] then (InitialApology, Error) else (CleanString(r.response), r.action)
  {
    BlankHasNoVisible(r.response);
    CleanedEmptyIff(r.response);
    CleanedIsNoFragment(r.response);
  }

  lemma BlankHasNoVisible(s: string)
    ensures IsBlank(s) ==> Visible(s) == []
  {
    BlankIffNoNonSpace(s);
    KeepAllowedOfNonSpace(s);
  }

  /** Cleaned text, stripped, is never one of the fragments. */
  lemma CleanedIsNoFragment(s: string)
    ensures !IsDisplayFragment(Strip(CleanString(s)))
  {
    StripKeepsDisplayable(CleanString(s));
    DisplayableIsNoFragment(Strip(CleanString(s)));
  }

  /** Text made of displayable characters is never a fragment. */
  lemma DisplayableIsNoFragment(t: string)
    requires AllDisplayable(t)
    ensures !IsDisplayFragment(t)
  {
    if t != [] {
      assert Displayable(t[0]);
    }
  }

  /** The session cart changes only when a cart arrives: from the stage-one
      record when it carries one, and always from the order handler when
      stage two answers an order, even with an empty list. */
  lemma CartReplacement(s: Session, prompt: string, record: Record, menuReply: Completion,
                        orderReply: Completion, parse: string -> Option<Json>)
    ensures var action := DisplayStageOne(record).1;
      var r := Submit(s, prompt, record, menuReply, orderReply, parse);
      && (action == OrderActionPending ==> r.cart == OrderHandler(orderReply, parse).1)
      && (action != OrderActionPending && record.cart.Some? ==> r.cart == record.cart.value)
      && (action != OrderActionPending && record.cart.None? ==> r.cart == s.cart)
  {
  }

  /** Every message stage two appends is the cleaned, displayable answer
      or the no-details apology; its action is final unless it is an
      error. */
  lemma StageTwoMessageShown(s: Session, prompt: string, record: Record, menuReply: Completion,
                             orderReply: Completion, parse: string -> Option<Json>)
    requires DisplayStageOne(record).1.IsPending()
    ensures var r := Submit(s, prompt, record, menuReply, orderReply, parse);
      var m := r.messages[|s.messages| + 2];
      m.role == "assistant" && (m.content == NoDetailsReply || AllDisplayable(m.content))
  {
  }

  /** Stage two keeps its action exactly when the unwrapped answer is a
      string that is not a fragment once stripped and that has a visible
      character. */
  lemma ExamineSucceedsIff(u: Json, final: Action)
    requires final != Error
    ensures Examine(u, final).1 != Error <==>
      u.JString? && !IsDisplayFragment(Strip(u.s)) && Visible(u.s) != []
  {
    if u.JString? && u.s != [] && !IsDisplayFragment(Strip(u.s)) {
      CleanedEmptyIff(u.s);
      CleanedIsNoFragment(u.s);
    } else if u.JString? && u.s == [] {
      assert Visible(u.s) == [];
    }
  }

  lemma StageTwoSucceedsIff(pending: Action, menuReply: Completion, orderReply: Completion,
                            parse: string -> Option<Json>)
    requires pending.IsPending()
    ensures var u := Unwrap(HandlerAnswer(pending, menuReply, orderReply, parse), parse);
      StageTwo(pending, menuReply, orderReply, parse).action != Error <==>
        u.JString? && !IsDisplayFragment(Strip(u.s)) && Visible(u.s) != []
  {
    var final := if pending == MenuInquiryPending then MenuInquiry else OrderAction;
    ExamineSucceedsIff(Unwrap(HandlerAnswer(pending, menuReply, orderReply, parse), parse), final);
  }

  /** The workflow never sees the prompt being answered: its history is the
      window over the messages before the submission. */
  lemma HistoryExcludesPrompt(s: Session, prompt: string)
    ensures WorkflowHistory(s, prompt) == History.RecentHistory(s.messages)
  {
    var appended := s.messages + [History.Message("user", prompt)];
    assert appended[..|appended| - 1] == s.messages;
  }

  /** A pending record whose reply has visible text gets both its cleaned
      reply and a stage-two message. */
  lemma PendingRecordReachesStageTwo(s: Session, prompt: string, record: Record, menuReply: Completion,
                                     orderReply: Completion, parse: string -> Option<Json>)
    requires record.action.IsPending() && Visible(record.response) != []
    ensures var r := Submit(s, prompt, record, menuReply, orderReply, parse);
      |r.messages| == |s.messages| + 3 &&
      r.messages[|s.messages| + 1].content == CleanString(record.response)
  {
    DisplayStageOneByVisible(record);
  }

  /** A menu or order request that the classifier recognises always gets
      both the acknowledgement and a stage-two message: the acknowledgement
      has visible text, so the first check keeps the pending action. */
  lemma MenuAndOrderReachStageTwo(s: Session, prompt: string, verdictReply: Completion,
                                  parse: string -> Option<Json>, farewell: Completion,
                                  menuReply: Completion, orderReply: Completion)
    requires Classifier.Classify(verdictReply, parse).Done?
    requires Classifier.Classify(verdictReply, parse).value.intent == "menu" ||
             Classifier.Classify(verdictReply, parse).value.intent == "order"
    ensures Run(prompt, verdictReply, parse, farewell).Done?
    ensures var record := Run(prompt, verdictReply, parse, farewell).value;
      var r := Submit(s, prompt, record, menuReply, orderReply, parse);
      |r.messages| == |s.messages| + 3 &&
      r.messages[|s.messages| + 1].content == CleanString(record.response)
  {
    var v := Classifier.Classify(verdictReply, parse).value;
    var record := Run(prompt, verdictReply, parse, farewell).value;
    PendingIffMenuOrOrder(v.intent, v.direct, prompt, farewell);
    if record.action == MenuInquiryPending {
      MenuAckVisible();
    } else {
      OrderAckForVisible(prompt);
    }
    PendingRecordReachesStageTwo(s, prompt, record, menuReply, orderReply, parse);
  }

  /** The texts `process_message` puts in place of a missing or unexpected
      result. */
  lemma ProcessMessageTexts(o: RunOutcome)
    ensures o.RunRaised? ==> ProcessMessage(o).response == RunFailureReply
    ensures o.RunNone? ==> ProcessMessage(o).response == NoResultReply
    ensures o.RunPlainStop? ==>
      ProcessMessage(o).response == (if o.resultTruthy then o.resultShown else EmptyStopReply)
    ensures o.RunOther? ==> ProcessMessage(o).response == UnexpectedTypePrefix + o.typeName
  {
  }

  /** The apology the detail check gives: the no-details apology for a
      falsy value or a fragment, the error apology for a truthy value that
      is not a string. */
  lemma DetailApologies(content: Json)
    ensures !content.Truthy() ==> CheckDetails(content) == Some(NoDetailsReply)
    ensures content.Truthy() && !content.JString? ==> CheckDetails(content) == Some(DetailsErrorReply)
    ensures content.JString? && content.s != [] && IsDisplayFragment(Strip(content.s)) ==>
              CheckDetails(content) == Some(NoDetailsReply)
  {
  }

  lemma MenuAckVisible()
    ensures Visible(MenuAck) != []
  {
    VisibleAt(MenuAck, |MenuAck| - 1);
  }

  lemma OrderAckVisible()
    ensures Visible(OrderAck) != []
  {
    VisibleAt(OrderAck, |OrderAck| - 1);
  }

  lemma OrderChangeAckVisible()
    ensures Visible(OrderChangeAck) != []
  {
    VisibleAt(OrderChangeAck, |OrderChangeAck| - 1);
  }

  /** Either acknowledgement of an order has visible text. */
  lemma OrderAckForVisible(query: string)
    ensures Visible(OrderAckFor(query)) != []
  {
    if OrderAckFor(query) == OrderAck {
      OrderAckVisible();
    } else {
      OrderChangeAckVisible();
    }
  }

  /** A visible character anywhere makes the visible text non-empty. */
  lemma {:induction false} VisibleAt(s: string, i: nat)
    requires i < |s| && Allowed(s[i]) && !IsSpace(s[i])
    ensures Visible(s) != []
    decreases i
  {
    if i > 0 && !(Allowed(s[0]) && !IsSpace(s[0])) {
      VisibleAt(s[1..], i - 1);
    }
  }
}
