/** The steps of `FoodOrderingWorkflow` (chat_engine.py:52-368): stage one
    classifies the utterance and either answers directly or acknowledges it
    with a pending action; stage two turns a pending action into the menu
    or order answer; `finalize` turns an event into the run's result. The
    language-model calls are inputs: each handler receives the completion
    its call would produce. */
module Workflow {
  import opened Strings
  import opened Values
  import Classifier
  import CartExtractor

  /** The `action_type` values the workflow and the app produce. */
  datatype Action =
    | Greeting | HistoryQuery | EndConversation | IrrelevantQuery
    | MenuInquiryPending | MenuInquiry | OrderActionPending | OrderAction
    | Error | Unknown
  {
    predicate IsPending() { this == MenuInquiryPending || this == OrderActionPending }
  }

  /** `ChatResponseStopEvent`: the result of a run. */
  datatype Record = Record(response: string, action: Action, cart: Option<seq<Json>>)

  /** `ResponseEvent`: the event handed from stage one to stage two. */
  datatype Event = Event(response: string, action: Action, originalQuery: Option<string>, cart: Option<seq<Json>>)

  /** What stage one returns: a finished record, or a pending event. */
  datatype StepOne = Stop(record: Record) | Pending(event: Event)

  const MenuAck: string := "Give us a moment while we research that for you."
  const OrderAck: string := "Give us a moment while we get that order ready for you."
  const OrderChangeAck: string := "Give us a moment while we get that order modification ready for you."
  const UnknownIntentReply: string :=
    "I'm sorry, I'm not sure how to handle that. I can assist with menu questions and orders."
  const RoutingFailureReply: string :=
    "I'm sorry, I encountered an error and cannot process your request. I can only assist with menu questions and food orders."
  const MenuFailurePrefix: string := "I'm sorry, I had trouble providing menu information. Error: "
  const OrderFailurePrefix: string := "I'm sorry, I had trouble with your order. Error: "
  const FarewellFailurePrefix: string := "I'm sorry, I had trouble saying goodbye. Error: "
  const MissingMenuQuery: string := "Error: Missing query for menu info."
  const MissingOrderQuery: string := "Error: Missing query for order action."

  /** Words that mark an order request as a change to an existing order. */
  const ChangeKeywords: seq<string> := ["change", "modify", "add", "remove", "update"]

  /** The reply of a language-model call, or the handler's apology that
      ends with the exception text. */
  function ReplyOr(c: Completion, prefix: string): (r: string)
    ensures c.Reply? ==> r == c.text
    ensures c.Failure? ==> StartsWith(r, prefix) && r[|prefix|..] == c.error
  {
    match c
    case Reply(text) => text
    case Failure(e) => prefix + e
  }

  /** `_handle_menu_query` (chat_engine.py:370-409): the menu model's reply,
      or an apology that ends with the error text. */
  function MenuHandler(c: Completion): (r: string)
    ensures c.Reply? ==> r == c.text
    ensures c.Failure? ==> StartsWith(r, MenuFailurePrefix) && r[|MenuFailurePrefix|..] == c.error
  {
    ReplyOr(c, MenuFailurePrefix)
  }

  /** `_handle_end_conversation` (chat_engine.py:507-532): the farewell
      model's reply, or an apology that ends with the error text. */
  function FarewellHandler(c: Completion): (r: string)
    ensures c.Reply? ==> r == c.text
    ensures c.Failure? ==> StartsWith(r, FarewellFailurePrefix) && r[|FarewellFailurePrefix|..] == c.error
  {
    ReplyOr(c, FarewellFailurePrefix)
  }

  /** `_handle_order_query` (chat_engine.py:411-505): the extracted reply
      and cart, or an apology with an empty cart when the call fails. */
  function OrderHandler(c: Completion, parse: string -> Option<Json>): (r: (Json, seq<Json>))
    ensures c.Failure? ==> r == (JString(OrderFailurePrefix + c.error), [])
    ensures c.Reply? ==> r == CartExtractor.ExtractCart(c.text, parse)
  {
    match c
    case Reply(text) => CartExtractor.ExtractCart(text, parse)
    case Failure(e) => (JString(OrderFailurePrefix + e), [])
  }

  /** The acknowledgement of an order request (chat_engine.py:230-233). */
  function OrderAckFor(query: string): (r: string)
    ensures r == OrderChangeAck <==> ContainsAny(Lower(query), ChangeKeywords)
    ensures r == OrderAck <==> !ContainsAny(Lower(query), ChangeKeywords)
  {
    if ContainsAny(Lower(query), ChangeKeywords) then OrderChangeAck else OrderAck
  }

  /** The stage-one action each intent leads to, as a table: menu and order
      go pending, the other four valid intents get their own final action,
      and anything else is an error. */
  function IntentAction(intent: string): (r: Action)
    ensures r.IsPending() <==> intent == "menu" || intent == "order"
    ensures r == Error <==> !Classifier.IsValidIntent(intent)
    ensures r != Unknown && r != MenuInquiry && r != OrderAction
    ensures intent == "menu" ==> r == MenuInquiryPending
    ensures intent == "order" ==> r == OrderActionPending
    ensures intent == "greeting" ==> r == Greeting
    ensures intent == "end" ==> r == EndConversation
    ensures intent == "history" ==> r == HistoryQuery
    ensures intent == "irrelevant" ==> r == IrrelevantQuery
  {
    if intent == "menu" then MenuInquiryPending
    else if intent == "order" then OrderActionPending
    else if intent == "greeting" then Greeting
    else if intent == "end" then EndConversation
    else if intent == "history" then HistoryQuery
    else if intent == "irrelevant" then IrrelevantQuery
    else Error
  }

  /** A directly answered intent: the direct response becomes the reply. A
      non-string value fails the event's string field, which the handler
      at chat_engine.py:295-302 turns into an error record. */
  function Direct(direct: Json, action: Action): (r: Record)
    ensures r.cart == None
    ensures direct.JString? ==> r.response == direct.s && r.action == action
    ensures !direct.JString? ==> r.response == RoutingFailureReply && r.action == Error
  {
    if direct.JString? then Record(direct.s, action, None)
    else Record(RoutingFailureReply, Error, None)
  }

  /** The routing of stage one (chat_engine.py:217-302). The farewell call is
      made only for the end intent. */
  function Route(intent: string, direct: Json, query: string, farewell: Completion): (r: StepOne)
    ensures r.Pending? <==> intent == "menu" || intent == "order"
    ensures r.Pending? ==> r.event.originalQuery == Some(query) && r.event.cart == None
    ensures r.Pending? ==> r.event.action == IntentAction(intent)
    ensures r.Stop? ==> r.record.cart == None
    ensures r.Stop? && direct.JString? ==> r.record.action == IntentAction(intent)
    ensures intent == "end" ==> r == Stop(Record(FarewellHandler(farewell), EndConversation, None))
    ensures !Classifier.IsValidIntent(intent) ==> r == Stop(Record(UnknownIntentReply, Error, None))
  {
    if intent == "menu" then Pending(Event(MenuAck, MenuInquiryPending, Some(query), None))
    else if intent == "order" then Pending(Event(OrderAckFor(query), OrderActionPending, Some(query), None))
    else if intent == "greeting" then Stop(Direct(direct, Greeting))
    else if intent == "end" then Stop(Record(FarewellHandler(farewell), EndConversation, None))
    else if intent == "history" then Stop(Direct(direct, HistoryQuery))
    else if intent == "irrelevant" then Stop(Direct(direct, IrrelevantQuery))
    else Stop(Record(UnknownIntentReply, Error, None))
  }

  /** `classify_and_respond` (chat_engine.py:52-302): classification, then
      routing. An exception from the classifier leaves the step. */
  function ClassifyAndRespond(query: string, verdictReply: Completion, parse: string -> Option<Json>,
                              farewell: Completion): (r: Outcome<StepOne>)
    ensures r.Raised? <==> Classifier.Classify(verdictReply, parse).Raised?
  {
    match Classifier.Classify(verdictReply, parse)
    case Raised => Raised
    case Done(v) => Done(Route(v.intent, v.direct, query, farewell))
  }

  /** The `cart_items` field of an event holds a list of objects: any other
      element fails the event's validation (chat_engine.py:22). */
  predicate AllObjects(cart: seq<Json>) {
    forall k :: 0 <= k < |cart| ==> cart[k].JObject?
  }

  /** `generate_detailed_response` (chat_engine.py:304-350). A pending event
      with a non-empty query is answered by its handler; without one it
      becomes an error; any other event passes through without a cart. An
      order reply that is not a string, or a cart element that is not an
      object, fails the new event's validation and raises. */
  function GenerateDetailedResponse(ev: Event, menuReply: Completion, orderReply: Completion,
                                    parse: string -> Option<Json>): (r: Outcome<Event>)
    ensures !ev.action.IsPending() ==> r == Done(Event(ev.response, ev.action, ev.originalQuery, None))
    ensures r.Done? && r.value.cart.Some? ==> r.value.action == OrderAction && AllObjects(r.value.cart.value)
  {
    var hasQuery := ev.originalQuery.Some? && ev.originalQuery.value != [];
    if ev.action == MenuInquiryPending then
      if hasQuery then Done(Event(MenuHandler(menuReply), MenuInquiry, None, None))
      else Done(Event(MissingMenuQuery, Error, None, None))
    else if ev.action == OrderActionPending then
      if hasQuery then
        var (reply, cart) := OrderHandler(orderReply, parse);
        if reply.JString? && AllObjects(cart) then Done(Event(reply.s, OrderAction, None, Some(cart))) else Raised
      else Done(Event(MissingOrderQuery, Error, None, None))
    else Done(Event(ev.response, ev.action, ev.originalQuery, None))
  }

  /** `finalize` (chat_engine.py:352-368). */
  function Finalize(ev: Event): Record
  {
    Record(ev.response, ev.action, ev.cart)
  }

  /** The record a stage-one result ends the run with. */
  function RunResult(step: StepOne): Record {
    match step
    case Stop(record) => record
    case Pending(ev) => Finalize(ev)
  }

  /** One run of the workflow. The pending event of stage one is delivered
      to `finalize` as well as to stage two; `finalize` answers at once and
      its stop event ends the run, so the run's result carries the pending
      action and the acknowledgement. */
  function Run(query: string, verdictReply: Completion, parse: string -> Option<Json>,
               farewell: Completion): (r: Outcome<Record>)
    ensures r.Raised? <==> Classifier.Classify(verdictReply, parse).Raised?
    ensures r.Done? ==>
      var v := Classifier.Classify(verdictReply, parse).value;
      Classifier.WellFormed(v) && r.value == RunResult(Route(v.intent, v.direct, query, farewell))
  {
    match ClassifyAndRespond(query, verdictReply, parse, farewell)
    case Raised => Raised
    case Done(step) => Done(RunResult(step))
  }

  // ---------------------------------------------------------------------
  // Properties

  /** Every well-formed verdict is routed by the intent table: the fallback
      branch and the routing failure are never reached, and the directly
      answered intents carry the classifier's usable reply. */
  lemma WellFormedRoutesByTable(v: Classifier.Verdict, query: string, farewell: Completion)
    requires Classifier.WellFormed(v)
    ensures var r := RunResult(Route(v.intent, v.direct, query, farewell));
      && r.action == IntentAction(v.intent)
      && r.action != Error && r.action != Unknown
      && r.cart == None
      && (Classifier.IsDirectIntent(v.intent) ==> r.response == v.direct.s && !IsBlank(r.response))
  {
    var step := Route(v.intent, v.direct, query, farewell);
    if Classifier.IsDirectIntent(v.intent) {
      assert v.direct.JString?;
      assert step.Stop? && step.record.response == v.direct.s;
    } else {
      assert step.Pending? || step.record.action == IntentAction(v.intent);
    }
  }

  /** A stage-one result is pending exactly for the menu and order intents,
      with the acknowledgement as its reply. */
  lemma PendingIffMenuOrOrder(intent: string, direct: Json, query: string, farewell: Completion)
    ensures var r := RunResult(Route(intent, direct, query, farewell));
      && (r.action.IsPending() <==> intent == "menu" || intent == "order")
      && (r.action == MenuInquiryPending ==> r.response == MenuAck)
      && (r.action == OrderActionPending ==> r.response == OrderAckFor(query))
  {
  }

  /** Stage two leaves nothing pending: whatever it returns is final, so a
      second pass through it only drops the cart. */
  lemma StageTwoIsFinal(ev: Event, menuReply: Completion, orderReply: Completion, parse: string -> Option<Json>)
    requires GenerateDetailedResponse(ev, menuReply, orderReply, parse).Done?
    ensures var e := GenerateDetailedResponse(ev, menuReply, orderReply, parse).value;
      && !e.action.IsPending()
      && GenerateDetailedResponse(e, menuReply, orderReply, parse)
           == Done(Event(e.response, e.action, e.originalQuery, None))
  {
  }

  /** The transitions of stage two for a pending event. */
  lemma StageTwoTransitions(ev: Event, menuReply: Completion, orderReply: Completion, parse: string -> Option<Json>)
    requires ev.action.IsPending()
    ensures var r := GenerateDetailedResponse(ev, menuReply, orderReply, parse);
      var hasQuery := ev.originalQuery.Some? && ev.originalQuery.value != [];
      && (!hasQuery ==>
            r.Done? && r.value.action == Error && r.value.cart == None &&
            r.value.response == (if ev.action == MenuInquiryPending then MissingMenuQuery else MissingOrderQuery))
      && (hasQuery && ev.action == MenuInquiryPending ==>
            r == Done(Event(MenuHandler(menuReply), MenuInquiry, None, None)))
      && (hasQuery && ev.action == OrderActionPending ==>
            (r.Raised? <==> !OrderHandler(orderReply, parse).0.JString? || !AllObjects(OrderHandler(orderReply, parse).1)) &&
            (r.Done? ==> r.value.action == OrderAction &&
                         r.value.response == OrderHandler(orderReply, parse).0.s &&
                         r.value.cart == Some(OrderHandler(orderReply, parse).1)))
  {
  }

  /** `finalize` forgets exactly the original query of its event: two events
      give the same stop event precisely when they agree on the reply, the
      action and the cart, and every record is the result of finalizing an
      event that carries its fields. */
  lemma FinalizeForgetsQuery(a: Event, b: Event, rec: Record, query: Option<string>)
    ensures Finalize(a) == Finalize(b) <==>
      a.response == b.response && a.action == b.action && a.cart == b.cart
    ensures Finalize(Event(rec.response, rec.action, query, rec.cart)) == rec
  {
  }

  /** A failing order call yields an apology naming the error, and an empty
      cart. */
  lemma OrderFailureEmptiesCart(ev: Event, menuReply: Completion, error: string, parse: string -> Option<Json>)
    requires ev.action == OrderActionPending
    requires ev.originalQuery.Some? && ev.originalQuery.value != []
    ensures var r := GenerateDetailedResponse(ev, menuReply, Failure(error), parse);
      r.Done? && r.value.cart == Some([]) && StartsWith(r.value.response, OrderFailurePrefix) &&
      r.value.response[|OrderFailurePrefix|..] == error
  {
  }
}
