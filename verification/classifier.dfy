/** Intent verdict repair in `classify_and_respond` (chat_engine.py:131-208):
    the classifier model's raw reply becomes an `(intent, direct response)`
    pair. A reply that decodes as JSON is validated and repaired; one that
    does not decode falls back to ordered keyword matching. */
module Classifier {
  import opened Strings
  import opened Values

  /** The six intents the workflow routes on (chat_engine.py:149). */
  predicate IsValidIntent(intent: string) {
    intent == "menu" || intent == "order" || intent == "greeting" ||
    intent == "end" || intent == "irrelevant" || intent == "history"
  }

  /** Intents answered with the classifier's own response text. */
  predicate IsDirectIntent(intent: string) {
    intent == "greeting" || intent == "irrelevant" || intent == "history"
  }

  /** The eleven degenerate replies the classifier replaces
      (chat_engine.py:169). */
  predicate IsFragment(t: string) {
    t == "{" || t == "}" || t == "[]" || t == "[" || t == "]" || t == "{}" ||
    t == ":" || t == "\"\"" || t == "''" || t == "," || t == "."
  }

  const BadIntentReply: string :=
    "I'm sorry, I encountered an issue. I can only assist with menu questions and food orders."
  const GreetingFallback: string :=
    "Hello! How can I help with the menu or your order?"
  const HistoryFallback: string :=
    "I can see you're asking about our previous conversation. How can I help you with our menu or placing an order?"
  const IrrelevantFallback: string :=
    "I'm sorry, I can only assist with questions about our menu and help you place an order."
  const NotObjectReply: string :=
    "I'm sorry, I encountered an issue processing the response. I can only assist with menu questions and food orders."
  const KeywordGreeting: string :=
    "Hello! How can I help you with the menu or your order today?"
  const KeywordIrrelevant: string :=
    "I'm sorry, I had trouble understanding that. I can only assist with menu questions and food orders."

  const OrderKeywords: seq<string> := ["order", "cart", "checkout"]
  const GreetingKeywords: seq<string> := ["hello", "hi ", " how are"]
  const FarewellKeywords: seq<string> := ["bye", "thank you", "thanks"]

  /** The classification: the intent and the direct response value. */
  datatype Verdict = Verdict(intent: string, direct: Json)

  /** A usable direct response: a string that is not blank and whose stripped
      form is none of the eleven fragments. */
  predicate UsableReply(j: Json) {
    j.JString? && !IsBlank(j.s) && !IsFragment(Strip(j.s))
  }

  /** What every completed classification promises: a valid intent, and a
      usable direct response whenever the intent is answered directly. */
  predicate WellFormed(v: Verdict) {
    IsValidIntent(v.intent) && (IsDirectIntent(v.intent) ==> UsableReply(v.direct))
  }

  /** The intent-specific canned reply (chat_engine.py:163-168, 171-176). */
  function FallbackFor(intent: string): (r: string)
    ensures UsableReply(JString(r))
  {
    var r := if intent == "greeting" then GreetingFallback
             else if intent == "history" then HistoryFallback
             else IrrelevantFallback;
    CannedIsUsable(r);
    r
  }

  /** The greeting and history intents have their own canned replies; every
      other intent falls back to the irrelevant one. */
  lemma FallbackChoice(intent: string)
    ensures intent == "greeting" ==> FallbackFor(intent) == GreetingFallback
    ensures intent == "history" ==> FallbackFor(intent) == HistoryFallback
    ensures intent != "greeting" && intent != "history" ==> FallbackFor(intent) == IrrelevantFallback
  {
  }

  /** The check at chat_engine.py:158-176: for a directly answered intent,
      a non-string, blank or fragment response gives way to the canned
      reply; any other intent keeps its value. */
  function RepairDirect(intent: string, direct: Json): (r: Json)
    ensures IsDirectIntent(intent) ==> UsableReply(r)
    ensures IsDirectIntent(intent) && UsableReply(direct) ==> r == direct
    ensures IsDirectIntent(intent) && !UsableReply(direct) ==> r == JString(FallbackFor(intent))
    ensures !IsDirectIntent(intent) ==> r == direct
    ensures r.HasLen() <==> IsDirectIntent(intent) || direct.HasLen()
  {
    if !IsDirectIntent(intent) then direct
    else if !direct.JString? || IsBlank(direct.s) then JString(FallbackFor(intent))
    else if IsFragment(Strip(direct.s)) then JString(FallbackFor(intent))
    else direct
  }

  /** The `"intent"` value is truthy but not a string: `.lower()` raises. */
  predicate IntentNotText(intent: Json) {
    intent.Truthy() && !intent.JString?
  }

  /** The lowercased intent, or `""` when it is missing or falsy. */
  function RawIntent(intent: Json): string
    requires !IntentNotText(intent)
  {
    if intent.Truthy() then Lower(intent.s) else ""
  }

  /** The response value, or `""` when it is missing or falsy. */
  function RawResponse(response: Json): (r: Json)
    ensures r.Truthy() || r == JString("")
  {
    if response.Truthy() then response else JString("")
  }

  /** The repair of a decoded object's fields once the intent is lowercased
      (`""` when it is missing or falsy) (chat_engine.py:144-178). A truthy
      number or `true` as the response of a menu, order or end intent
      survives repair and makes `len()` in the log line at
      chat_engine.py:178 raise. */
  function Repair(intent0: string, response: Json): (r: Outcome<Verdict>)
    ensures r.Done? ==> WellFormed(r.value)
    ensures IsValidIntent(intent0) && r.Done? ==>
              r.value == Verdict(intent0, RepairDirect(intent0, RawResponse(response)))
  {
    var direct0 := RawResponse(response);
    var valid := intent0 != "" && IsValidIntent(intent0);
    var intent1 := if valid then intent0 else "irrelevant";
    // The generic apology for a missing response passes the repair check
    // unchanged, so it bypasses it here.
    var direct2 :=
      if !valid && !direct0.Truthy() then (CannedIsUsable(BadIntentReply); JString(BadIntentReply))
      else RepairDirect(intent1, direct0);
    if !direct2.HasLen() then Raised else Done(Verdict(intent1, direct2))
  }

  /** The `"intent"` and `"response"` values of a decoded object
      (chat_engine.py:144-178): an intent with no `lower` raises, any other
      is lowercased and repaired. */
  function FromFields(intent: Json, response: Json): (r: Outcome<Verdict>)
    ensures r.Done? ==> WellFormed(r.value)
    ensures IntentNotText(intent) ==> r.Raised?
    ensures !IntentNotText(intent) ==> r == Repair(RawIntent(intent), response)
  {
    if IntentNotText(intent) then Raised else Repair(RawIntent(intent), response)
  }

  /** A decoded JSON object: only its `"intent"` and `"response"` keys
      matter, a missing key reading as `None`. */
  function FromObject(m: map<string, Json>): (r: Outcome<Verdict>)
    ensures r.Done? ==> WellFormed(r.value)
    ensures r == FromFields(Get(m, "intent"), Get(m, "response"))
  {
    FromFields(Get(m, "intent"), Get(m, "response"))
  }

  /** Keyword fallback on a reply that is not JSON (chat_engine.py:183-208),
      tried in order: menu, order words, greeting words, farewell words. */
  function KeywordFallback(text: string): (v: Verdict)
    ensures WellFormed(v) && v.intent != "history"
  {
    var low := Lower(text);
    if Contains(low, "menu") then Verdict("menu", JString(""))
    else if ContainsAny(low, OrderKeywords) then Verdict("order", JString(""))
    else if ContainsAny(low, GreetingKeywords) then
      CannedIsUsable(KeywordGreeting);
      Verdict("greeting", JString(KeywordGreeting))
    else if ContainsAny(low, FarewellKeywords) then Verdict("end", JString(""))
    else
      CannedIsUsable(KeywordIrrelevant);
      Verdict("irrelevant", JString(KeywordIrrelevant))
  }

  /** Decode and repair the stripped reply text. */
  function ParseVerdict(text: string, parse: string -> Option<Json>): (r: Outcome<Verdict>)
    ensures r.Done? ==> WellFormed(r.value)
    ensures parse(text).None? ==> r == Done(KeywordFallback(text))
    ensures parse(text).Some? && !parse(text).value.JObject? ==>
              r == Done(Verdict("irrelevant", JString(NotObjectReply)))
    ensures parse(text).Some? && parse(text).value.JObject? ==>
              r == FromObject(parse(text).value.fields)
  {
    match parse(text)
    case None => Done(KeywordFallback(text))
    case Some(data) =>
      if data.JObject? then FromObject(data.fields)
      else
        CannedIsUsable(NotObjectReply);
        Done(Verdict("irrelevant", JString(NotObjectReply)))
  }

  /** The classification of one utterance from the classifier model's reply
      (chat_engine.py:128-208). A failing model call is not caught here: the
      exception leaves the step. Every completed classification has one of
      the six lowercase intents, and greeting, history and irrelevant carry a
      usable string reply. */
  function Classify(reply: Completion, parse: string -> Option<Json>): (r: Outcome<Verdict>)
    ensures reply.Failure? ==> r.Raised?
    ensures r.Done? ==> WellFormed(r.value)
    ensures reply.Reply? && parse(Strip(reply.text)).None? ==>
              r == Done(KeywordFallback(Strip(reply.text)))
    ensures reply.Reply? && parse(Strip(reply.text)).Some? && !parse(Strip(reply.text)).value.JObject? ==>
              r == Done(Verdict("irrelevant", JString(NotObjectReply)))
    ensures reply.Reply? && parse(Strip(reply.text)).Some? && parse(Strip(reply.text)).value.JObject? ==>
              r == FromObject(parse(Strip(reply.text)).value.fields)
  {
    match reply
    case Failure(_) => Raised
    case Reply(text) => ParseVerdict(Strip(text), parse)
  }

  // ---------------------------------------------------------------------
  // Properties

  /** Exactly when the repair raises: a valid menu, order or end intent
      comes with a truthy number or `true` as its response. */
  lemma RepairRaisesIff(intent0: string, response: Json)
    ensures Repair(intent0, response).Raised? <==>
      (intent0 == "menu" || intent0 == "order" || intent0 == "end") &&
      (response.JNumber? || response.JBool?) && response.Truthy()
  {
    var direct0 := RawResponse(response);
    if IsValidIntent(intent0) {
      assert Repair(intent0, response).Raised? <==> !RepairDirect(intent0, direct0).HasLen();
    } else {
      assert Repair(intent0, response).Done?;
    }
  }

  /** Exactly when the decoded-object path raises: the intent is a truthy
      non-string, or the repair of its lowercased form raises. */
  lemma FromFieldsRaisesIff(intent: Json, response: Json)
    ensures FromFields(intent, response).Raised? <==>
      IntentNotText(intent) ||
      (var i := RawIntent(intent);
       (i == "menu" || i == "order" || i == "end") &&
       (response.JNumber? || response.JBool?) && response.Truthy())
  {
    if !IntentNotText(intent) {
      RepairRaisesIff(RawIntent(intent), response);
    }
  }

  /** A missing or invalid intent becomes `"irrelevant"`; the generic
      apology is used only when no response was supplied, a usable supplied
      response is kept, and any other supplied value gives the irrelevant
      fallback. */
  lemma InvalidIntentIsIrrelevant(intent0: string, response: Json)
    requires !IsValidIntent(intent0)
    ensures Repair(intent0, response).Done?
    ensures Repair(intent0, response).value.intent == "irrelevant"
    ensures !response.Truthy() ==> Repair(intent0, response).value.direct == JString(BadIntentReply)
    ensures response.Truthy() && UsableReply(response) ==>
              Repair(intent0, response).value.direct == response
    ensures response.Truthy() && !UsableReply(response) ==>
              Repair(intent0, response).value.direct == JString(IrrelevantFallback)
  {
    if response.Truthy() {
      assert Repair(intent0, response).value.direct == RepairDirect("irrelevant", response);
    }
  }

  /** A missing key reads as `None`: an object without an intent is
      irrelevant, and one without either key gets the generic apology. */
  lemma MissingKeysReadAsNone(m: map<string, Json>)
    ensures "intent" !in m ==> FromObject(m).Done? && FromObject(m).value.intent == "irrelevant"
    ensures "intent" !in m && "response" !in m ==>
              FromObject(m) == Done(Verdict("irrelevant", JString(BadIntentReply)))
  {
    if "intent" !in m {
      InvalidIntentIsIrrelevant("", Get(m, "response"));
    }
  }

  /** A valid intent is kept. */
  lemma ValidIntentKept(intent0: string, response: Json)
    requires IsValidIntent(intent0)
    ensures Repair(intent0, response).Done? ==> Repair(intent0, response).value.intent == intent0
  {
  }

  /** The canned replies of the keyword fallback. */
  lemma KeywordReplies(text: string)
    ensures KeywordFallback(text).intent == "greeting" ==> KeywordFallback(text).direct == JString(KeywordGreeting)
    ensures KeywordFallback(text).intent == "irrelevant" ==> KeywordFallback(text).direct == JString(KeywordIrrelevant)
  {
    var low := Lower(text);
    if !Contains(low, "menu") && !ContainsAny(low, OrderKeywords) {
      if ContainsAny(low, GreetingKeywords) {
        assert KeywordFallback(text) == Verdict("greeting", JString(KeywordGreeting));
      } else if !ContainsAny(low, FarewellKeywords) {
        assert KeywordFallback(text) == Verdict("irrelevant", JString(KeywordIrrelevant));
      }
    }
  }

  /** The decoded-object path ignores the letter case of the intent. */
  lemma IntentCaseInsensitive(s: string, t: string, response: Json)
    requires Lower(s) == Lower(t)
    ensures FromFields(JString(s), response) == FromFields(JString(t), response)
  {
    assert |s| == |t|;
    assert RawIntent(JString(s)) == RawIntent(JString(t));
  }

  /** Keyword precedence on a reply that does not decode: menu first, then
      order words, then greeting words, then farewell words, otherwise
      irrelevant; only greeting and irrelevant set a direct response. */
  lemma KeywordPrecedence(text: string)
    ensures var v := KeywordFallback(text); var low := Lower(text);
      && (v.intent == "menu" <==> Contains(low, "menu"))
      && (v.intent == "order" <==> !Contains(low, "menu") && ContainsAny(low, OrderKeywords))
      && (v.intent == "greeting" <==>
            !Contains(low, "menu") && !ContainsAny(low, OrderKeywords) && ContainsAny(low, GreetingKeywords))
      && (v.intent == "end" <==>
            !Contains(low, "menu") && !ContainsAny(low, OrderKeywords) &&
            !ContainsAny(low, GreetingKeywords) && ContainsAny(low, FarewellKeywords))
      && (v.intent == "irrelevant" <==>
            !Contains(low, "menu") && !ContainsAny(low, OrderKeywords) &&
            !ContainsAny(low, GreetingKeywords) && !ContainsAny(low, FarewellKeywords))
      && (v.direct != JString("") <==> v.intent == "greeting" || v.intent == "irrelevant")
  {
  }

  /** The keyword fallback does not depend on letter case. */
  lemma KeywordFallbackIgnoresCase(text: string)
    ensures KeywordFallback(Lower(text)) == KeywordFallback(text)
  {
    LowerIdempotent(text);
  }

  /** A message whose last three characters are not whitespace is usable:
      stripping leaves at least three characters, longer than any fragment. */
  lemma CannedIsUsable(s: string)
    requires |s| >= 3
    requires !IsSpace(s[|s| - 1]) && !IsSpace(s[|s| - 2]) && !IsSpace(s[|s| - 3])
    ensures UsableReply(JString(s))
  {
    StripKeepsTail(s, 3);
    LongIsNoFragment(Strip(s));
  }

  lemma LongIsNoFragment(t: string)
    requires |t| >= 3
    ensures !IsFragment(t)
  {
  }

  lemma LowerIdempotent(s: string)
    ensures Lower(Lower(s)) == Lower(s)
  {
    assert forall i :: 0 <= i < |s| ==> LowerChar(LowerChar(s[i])) == LowerChar(s[i]);
  }
}
