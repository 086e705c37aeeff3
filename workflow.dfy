/** The three-stage reply pipeline: classify the email, extract its intent
    and entities, generate a reply. Each node builds a new state from the
    one before it; each model call goes through `safe_api_call` and is seen
    here by its outcome: the text the model returned, or `None` when the call
    raised after its retries. `json.loads` is the decoder passed in. */
module Workflow {
  import opened Wrappers
  import opened Strings
  import opened Json
  import Retry

  /** The pipeline state. `entities` is any JSON object. */
  datatype EmailState = EmailState(
    emailBody: string,
    category: Option<string>,
    intent: Option<string>,
    entities: Option<map<string, Json>>,
    reply: Option<string>)

  /** The state the graph is started with. */
  function Initial(emailBody: string): EmailState {
    EmailState(emailBody, None, None, None, None)
  }

  /** The exceptions that escape the extract node: `.get` on a decoded value
      that is not an object, and the state model's field validation
      rejecting an `intent` that is not a string or null, or `entities`
      that are not an object or null. */
  datatype NodeError =
    | NotAnObject(value: Json)
    | InvalidIntent(value: Json)
    | InvalidEntities(value: Json)

  /** The model's answers to the three calls, `None` where the call failed. */
  datatype Responses = Responses(classify: Option<string>, extract: Option<string>, reply: Option<string>)

  const OtherCategory := "other"
  const UnknownIntent := "unknown"

  /** The object the extract node falls back to. */
  const FallbackParsed := JObject(map["intent" := JString(UnknownIntent), "entities" := JObject(map[])])

  const ApologyOpening :=
    "I apologize, but I'm unable to generate a proper reply at the moment. "
    + "Please contact support for assistance with your "
  const ApologyClosing := " inquiry."

  /** How an f-string renders an optional text: `None` as "None". */
  function CategoryText(category: Option<string>): string {
    match category
    case None => "None"
    case Some(c) => c
  }

  /** The fallback reply, with the current category interpolated. */
  function Apology(category: Option<string>): string {
    ApologyOpening + CategoryText(category) + ApologyClosing
  }

  /** `classify_email`: only the body is carried over. */
  function Classify(s: EmailState, answer: Option<string>): EmailState {
    match answer
    case Some(text) => EmailState(s.emailBody, Some(Strip(text)), None, None, None)
    case None => EmailState(s.emailBody, Some(OtherCategory), None, None, None)
  }

  /** The value the extract node reads `intent` and `entities` from. */
  function ParsedAnswer(answer: Option<string>, loads: Loads): Json {
    match answer
    case None => FallbackParsed
    case Some(text) =>
      match loads(text)
      case Malformed => FallbackParsed
      case Decoded(j) => j
  }

  /** Validation of an `Optional[str]` field. */
  function AsOptionalString(j: Json): Option<Option<string>> {
    match j
    case JNull => Some(None)
    case JString(s) => Some(Some(s))
    case _ => None
  }

  /** Validation of an `Optional[Dict[str, Any]]` field. */
  function AsOptionalObject(j: Json): Option<Option<map<string, Json>>> {
    match j
    case JNull => Some(None)
    case JObject(fields) => Some(Some(fields))
    case _ => None
  }

  /** `extract_entities_intent`: body and category are carried over. */
  function Extract(s: EmailState, answer: Option<string>, loads: Loads): Result<EmailState, NodeError> {
    var parsed := ParsedAnswer(answer, loads);
    if !parsed.JObject? then Err(NotAnObject(parsed))
    else
      var intent := Get(parsed.fields, "intent", JString(UnknownIntent));
      var entities := Get(parsed.fields, "entities", JObject(map[]));
      match AsOptionalString(intent)
      case None => Err(InvalidIntent(intent))
      case Some(i) =>
        match AsOptionalObject(entities)
        case None => Err(InvalidEntities(entities))
        case Some(e) => Ok(EmailState(s.emailBody, s.category, i, e, None))
  }

  /** `generate_reply`: everything is carried over and the reply is set. */
  function Reply(s: EmailState, answer: Option<string>): EmailState {
    var text := match answer
      case Some(t) => Strip(t)
      case None => Apology(s.category);
    EmailState(s.emailBody, s.category, s.intent, s.entities, Some(text))
  }

  // ---------------------------------------------------------------------
  // The graph

  datatype Node = ClassifyEmail | ExtractEntitiesIntent | GenerateReply

  const Entry := ClassifyEmail

  /** The edges; the finish point has none. */
  function Next(n: Node): Option<Node> {
    match n
    case ClassifyEmail => Some(ExtractEntitiesIntent)
    case ExtractEntitiesIntent => Some(GenerateReply)
    case GenerateReply => None
  }

  function Rank(n: Node): nat {
    match n
    case ClassifyEmail => 2
    case ExtractEntitiesIntent => 1
    case GenerateReply => 0
  }

  /** The nodes visited from `n` to the finish point. */
  function Walk(n: Node): seq<Node>
    decreases Rank(n)
  {
    match Next(n)
    case None => [n]
    case Some(m) =>
      assert Rank(m) < Rank(n) by { assert Next(n) == Some(m); }
      [n] + Walk(m)
  }

  /** One node applied to the state. */
  function Step(n: Node, s: EmailState, answers: Responses, loads: Loads): Result<EmailState, NodeError> {
    match n
    case ClassifyEmail => Ok(Classify(s, answers.classify))
    case ExtractEntitiesIntent => Extract(s, answers.extract, loads)
    case GenerateReply => Ok(Reply(s, answers.reply))
  }

  /** The nodes applied in turn; an exception stops the run. */
  function Execute(nodes: seq<Node>, s: EmailState, answers: Responses, loads: Loads): Result<EmailState, NodeError> {
    if nodes == [] then Ok(s)
    else
      match Step(nodes[0], s, answers, loads)
      case Err(e) => Err(e)
      case Ok(t) => Execute(nodes[1..], t, answers, loads)
  }

  /** The compiled graph invoked on an email body. */
  function Invoke(emailBody: string, answers: Responses, loads: Loads): Result<EmailState, NodeError> {
    Execute(Walk(Entry), Initial(emailBody), answers, loads)
  }

  // ---------------------------------------------------------------------
  // Model calls through the retry

  /** A node's `try` around `safe_api_call`: every way the retry ends other
      than returning is an exception the node catches. */
  function Answer<E>(run: Retry.Run<string, E>): Option<string> {
    match run.outcome
    case Returned(text) => Some(text)
    case _ => None
  }

  /** The whole run with each model call given by what each of its attempts
      does: the answers seen by the nodes, and the number of calls made.
      The reply call is made only when the extract node did not raise. */
  function InvokeWithRetries<E>(
    emailBody: string,
    classifyCall: nat -> Retry.Attempt<string, E>,
    extractCall: nat -> Retry.Attempt<string, E>,
    replyCall: nat -> Retry.Attempt<string, E>,
    draws: nat -> real,
    loads: Loads): (Result<EmailState, NodeError>, nat)
  {
    var c := Retry.Retry(Retry.Defaults, classifyCall, draws);
    var x := Retry.Retry(Retry.Defaults, extractCall, draws);
    var r := Retry.Retry(Retry.Defaults, replyCall, draws);
    var answers := Responses(Answer(c), Answer(x), Answer(r));
    var extracted := Extract(Classify(Initial(emailBody), answers.classify), answers.extract, loads);
    var calls := c.calls + x.calls + if extracted.Ok? then r.calls else 0;
    (Invoke(emailBody, answers, loads), calls)
  }

  // ---------------------------------------------------------------------
  // Properties of the pipeline

  /** The graph starts at classify and runs extract and then reply, which
      is the finish point; there are no branches. */
  lemma {:induction false} Topology()
    ensures Walk(Entry) == [ClassifyEmail, ExtractEntitiesIntent, GenerateReply]
  {
  }

  /** Invoking the graph is the three nodes composed in order. */
  lemma {:induction false} InvokeComposesNodes(emailBody: string, answers: Responses, loads: Loads)
    ensures Invoke(emailBody, answers, loads)
         == match Extract(Classify(Initial(emailBody), answers.classify), answers.extract, loads)
            case Err(e) => Err(e)
            case Ok(t) => Ok(Reply(t, answers.reply))
  {
    Topology();
    var nodes := Walk(Entry);
    var c := Classify(Initial(emailBody), answers.classify);
    assert nodes[1..] == [ExtractEntitiesIntent, GenerateReply];
    assert nodes[1..][1..] == [GenerateReply];
    assert Execute(nodes, Initial(emailBody), answers, loads) == Execute(nodes[1..], c, answers, loads);
    match Extract(c, answers.extract, loads)
    case Err(e) =>
    case Ok(t) =>
      assert Execute(nodes[1..], c, answers, loads) == Execute([GenerateReply], t, answers, loads);
      assert Execute([GenerateReply], t, answers, loads) == Execute([], Reply(t, answers.reply), answers, loads);
  }

  /** Classify keeps the body and sets the category to the model's text
      trimmed, or to "other" when the call failed; every other field is
      left unset. */
  lemma {:induction false} ClassifyRule(s: EmailState, answer: Option<string>)
    ensures var t := Classify(s, answer);
            && t.emailBody == s.emailBody
            && t.category == Some(if answer.Some? then Strip(answer.value) else OtherCategory)
            && t.intent == None && t.entities == None && t.reply == None
  {
  }

  /** A failed call or an answer that is not JSON gives intent "unknown"
      and no entities, carrying body and category. */
  lemma {:induction false} ExtractFallback(s: EmailState, answer: Option<string>, loads: Loads)
    requires answer.None? || loads(answer.value).Malformed?
    ensures Extract(s, answer, loads) == Ok(EmailState(s.emailBody, s.category, Some(UnknownIntent), Some(map[]), None))
  {
  }

  /** A decoded object gives each key its own value, `null` becoming no
      value, or "unknown" and `{}` for a key that is missing; body and
      category are carried, and no reply is set yet. */
  lemma {:induction false} ExtractDecodedObject(s: EmailState, text: string, loads: Loads, fields: map<string, Json>)
    requires loads(text) == Decoded(JObject(fields))
    ensures var r := Extract(s, Some(text), loads);
            && ("intent" !in fields && "entities" !in fields ==>
                  r == Ok(EmailState(s.emailBody, s.category, Some(UnknownIntent), Some(map[]), None)))
            && (r.Ok? ==> r.value.emailBody == s.emailBody && r.value.category == s.category && r.value.reply == None)
            && ("intent" !in fields && r.Ok? ==> r.value.intent == Some(UnknownIntent))
            && ("entities" !in fields && r.Ok? ==> r.value.entities == Some(map[]))
            && ("intent" in fields && fields["intent"].JString? && r.Ok? ==>
                  r.value.intent == Some(fields["intent"].s))
            && ("intent" in fields && fields["intent"].JNull? && r.Ok? ==> r.value.intent == None)
            && ("entities" in fields && fields["entities"].JObject? && r.Ok? ==>
                  r.value.entities == Some(fields["entities"].fields))
            && ("entities" in fields && fields["entities"].JNull? && r.Ok? ==> r.value.entities == None)
  {
  }

  /** The extract node raises exactly when the decoded answer is not an
      object, or holds an `intent` or `entities` of the wrong type. */
  lemma {:induction false} ExtractRaises(s: EmailState, answer: Option<string>, loads: Loads)
    ensures var parsed := ParsedAnswer(answer, loads);
            Extract(s, answer, loads).Err? <==>
              (|| !parsed.JObject?
               || ("intent" in parsed.fields && AsOptionalString(parsed.fields["intent"]).None?)
               || ("entities" in parsed.fields && AsOptionalObject(parsed.fields["entities"]).None?))
  {
  }

  /** The reply node sets the reply, to the model's text trimmed or to the
      apology naming the category, and changes nothing else. */
  lemma {:induction false} ReplyRule(s: EmailState, answer: Option<string>)
    ensures var t := Reply(s, answer);
            && (t.emailBody, t.category, t.intent, t.entities) == (s.emailBody, s.category, s.intent, s.entities)
            && t.reply == Some(if answer.Some? then Strip(answer.value) else Apology(s.category))
  {
  }

  lemma {:induction false} ApologyNamesCategory(category: Option<string>)
    ensures OccursAt(Apology(category), CategoryText(category), |ApologyOpening|)
    ensures Contains(Apology(category), CategoryText(category))
  {
    var a := Apology(category);
    var c := CategoryText(category);
    assert a[|ApologyOpening|..|ApologyOpening| + |c|] == c;
    ContainsAt(a, c, |ApologyOpening|);
  }

  /** When every model call fails the run still completes, with category
      "other", intent "unknown", no entities, and the apology naming
      "other". */
  lemma {:induction false} TotalOutage(emailBody: string, loads: Loads)
    ensures Invoke(emailBody, Responses(None, None, None), loads)
         == Ok(EmailState(emailBody, Some(OtherCategory), Some(UnknownIntent), Some(map[]), Some(Apology(Some(OtherCategory)))))
    ensures Contains(Apology(Some(OtherCategory)), OtherCategory)
  {
    InvokeComposesNodes(emailBody, Responses(None, None, None), loads);
    ApologyNamesCategory(Some(OtherCategory));
  }

  /** The run completes whenever the decoder never yields a value of the
      wrong shape; only the extract node can raise. */
  lemma {:induction false} CompletesUnlessExtractRaises(emailBody: string, answers: Responses, loads: Loads)
    ensures Invoke(emailBody, answers, loads).Err? <==>
              Extract(Classify(Initial(emailBody), answers.classify), answers.extract, loads).Err?
    ensures Invoke(emailBody, answers, loads).Ok? ==> Invoke(emailBody, answers, loads).value.reply.Some?
  {
    InvokeComposesNodes(emailBody, answers, loads);
  }

  /** Each node calls the model through `safe_api_call`, at most four
      times, so one run makes at most twelve model calls. */
  lemma {:induction false} AtMostTwelveCalls<E>(
    emailBody: string,
    classifyCall: nat -> Retry.Attempt<string, E>,
    extractCall: nat -> Retry.Attempt<string, E>,
    replyCall: nat -> Retry.Attempt<string, E>,
    draws: nat -> real,
    loads: Loads)
    ensures 2 <= InvokeWithRetries(emailBody, classifyCall, extractCall, replyCall, draws, loads).1 <= 12
  {
    Retry.SafeApiCallBounded(classifyCall, draws);
    Retry.SafeApiCallBounded(extractCall, draws);
    Retry.SafeApiCallBounded(replyCall, draws);
  }

  /** The answers of the scenario: "schedule" for classify, an object with
      intent "schedule_meeting" and entities `{"day": "Tuesday"}` for
      extract, and "Sure, Tuesday works." for the reply. */
  const ScheduleCategory := "schedule"
  const ScheduleIntent := "schedule_meeting"
  const ScheduleReply := "Sure, Tuesday works."
  const ScheduleEntities := map["day" := JString("Tuesday")]
  const ScheduleObject := JObject(map["intent" := JString(ScheduleIntent), "entities" := JObject(ScheduleEntities)])

  lemma {:induction false} ScheduleTextsTrimmed()
    ensures Strip(ScheduleCategory) == ScheduleCategory
    ensures Strip(ScheduleReply) == ScheduleReply
  {
    VisibleNotSpace(ScheduleCategory[0]);
    VisibleNotSpace(ScheduleCategory[|ScheduleCategory| - 1]);
    VisibleNotSpace(ScheduleReply[0]);
    VisibleNotSpace(ScheduleReply[|ScheduleReply| - 1]);
    StripUnchanged(ScheduleCategory);
    StripUnchanged(ScheduleReply);
  }

  /** The end-to-end scenario of a meeting request. */
  lemma {:induction false} ScheduleScenario(emailBody: string, extractText: string, loads: Loads)
    requires loads(extractText) == Decoded(ScheduleObject)
    ensures Invoke(emailBody, Responses(Some(ScheduleCategory), Some(extractText), Some(ScheduleReply)), loads)
         == Ok(EmailState(emailBody, Some(ScheduleCategory), Some(ScheduleIntent), Some(ScheduleEntities),
                          Some(ScheduleReply)))
  {
    var answers := Responses(Some(ScheduleCategory), Some(extractText), Some(ScheduleReply));
    var classified := EmailState(emailBody, Some(ScheduleCategory), None, None, None);
    var extracted := EmailState(emailBody, Some(ScheduleCategory), Some(ScheduleIntent), Some(ScheduleEntities), None);
    InvokeComposesNodes(emailBody, answers, loads);
    ScheduleTextsTrimmed();
    assert Classify(Initial(emailBody), answers.classify) == classified;
    ScheduleExtracted(classified, extractText, loads);
    assert Reply(extracted, answers.reply) == extracted.(reply := Some(ScheduleReply));
  }

  lemma {:induction false} ScheduleExtracted(s: EmailState, extractText: string, loads: Loads)
    requires loads(extractText) == Decoded(ScheduleObject)
    ensures Extract(s, Some(extractText), loads)
         == Ok(EmailState(s.emailBody, s.category, Some(ScheduleIntent), Some(ScheduleEntities), None))
  {
    var fields := ScheduleObject.fields;
    assert Get(fields, "intent", JString(UnknownIntent)) == JString(ScheduleIntent);
    assert Get(fields, "entities", JObject(map[])) == JObject(ScheduleEntities);
  }
}
