/** The request/answer layer of elan/neuron.py over publish/subscribe. */
module Rpc {
  import opened Common

  datatype Json =
    | Null
    | Bool(b: bool)
    | Num(n: int)
    | Str(s: string)
    | Arr(items: seq<Json>)
    | Obj(fields: map<string, Json>)

  /** Python truth of a decoded value. */
  predicate Truthy(j: Json) {
    match j
    case Null => false
    case Bool(b) => b
    case Num(n) => n != 0
    case Str(s) => s != ""
    case Arr(items) => items != []
    case Obj(fields) => fields != map[]
  }

  /** What a provider's callback does with a request. */
  datatype Outcome =
    | Returns(value: Json)
    | RaisesRequestError(errors: Json, errorStr: string)
    | RaisesOther(repr: string)

  /** The fields present in an answer. */
  datatype Answer = Answer(result: Option<Json>, errors: Option<Json>, errorStr: Option<string>)

  /** How a call ends for the caller; `Broken` is any other exception, such as a missing field. */
  datatype Result =
    | Value(value: Json)
    | Failed(errors: Json, errorStr: string)
    | Broken
    | TimedOut

  /** The check in the constructor of `RequestError`. */
  predicate ErrorOk(errors: Json, errorStr: string) {
    Truthy(errors) || errorStr != ""
  }

  /** A raised `RequestError` has passed its constructor, and the repr of an exception is not empty. */
  predicate OutcomeOk(o: Outcome) {
    match o
    case Returns(_) => true
    case RaisesRequestError(e, s) => ErrorOk(e, s)
    case RaisesOther(r) => r != ""
  }

  /** The property `error_str`. */
  function ErrorString(errors: Json, errorStr: string, str: Json -> string): string {
    if errorStr != "" then errorStr else str(errors)
  }

  /** `_provide_cb_wrapper`. */
  function AnswerTo(o: Outcome, str: Json -> string): Answer {
    match o
    case Returns(v) => Answer(Some(v), None, None)
    case RaisesRequestError(e, s) => Answer(None, Some(e), Some(ErrorString(e, s, str)))
    case RaisesOther(r) => Answer(None, None, Some(r))
  }

  /** The end of `call`: missing fields default to null and the empty string. */
  function Decode(a: Answer): Result {
    if a.errors.Some? || a.errorStr.Some? then
      var e := match a.errors case Some(e) => e case None => Null;
      var s := match a.errorStr case Some(s) => s case None => "";
      if ErrorOk(e, s) then Failed(e, s) else Broken
    else
      match a.result
      case Some(v) => Value(v)
      case None => Broken
  }

  /** What the caller sees of an outcome. */
  function Seen(o: Outcome, str: Json -> string): Result {
    match o
    case Returns(v) => Value(v)
    case RaisesRequestError(e, s) => Failed(e, ErrorString(e, s, str))
    case RaisesOther(r) => Failed(Null, r)
  }

  /** `str` of a true value is not empty. */
  ghost predicate StrOk(str: Json -> string) {
    forall j :: Truthy(j) ==> str(j) != ""
  }

  /** A value arrives as it was returned, and an error as a well-formed `RequestError` with the same content. */
  lemma DecodeAnswer(o: Outcome, str: Json -> string)
    requires OutcomeOk(o) && StrOk(str)
    ensures Decode(AnswerTo(o, str)) == Seen(o, str)
    ensures Seen(o, str).Failed? ==> ErrorOk(Seen(o, str).errors, Seen(o, str).errorStr)
    ensures match o
            case Returns(v) => Decode(AnswerTo(o, str)) == Value(v)
            case RaisesRequestError(e, text) => Decode(AnswerTo(o, str)) == Failed(e, if text == "" then str(e) else text)
            case RaisesOther(repr) => Decode(AnswerTo(o, str)) == Failed(Null, repr)
  {
  }

  /** An answer with either error field raises, whatever else it has; a value comes from one without, and is its result. */
  lemma DecodeRaises(a: Answer)
    ensures a.errors.Some? || a.errorStr.Some? ==> Decode(a).Failed? || Decode(a) == Broken
    ensures Decode(a).Failed? ==>
              && (match a.errors case Some(e) => Decode(a).errors == e case None => Decode(a).errors == Null)
              && (match a.errorStr case Some(s) => Decode(a).errorStr == s case None => Decode(a).errorStr == "")
    ensures a.errors.None? && a.errorStr.None? ==>
              Decode(a) == match a.result case Some(v) => Value(v) case None => Broken
  {
  }

  /** The values that Python takes for false. */
  lemma FalseValues(j: Json)
    ensures !Truthy(j) <==> j in {Null, Bool(false), Num(0), Str(""), Arr([]), Obj(map[])}
  {
  }

  // Topics.

  const REQUESTS := "service/requests/"
  const ANSWERS := "service/answers/"

  function RequestTopic(service: string): string {
    REQUESTS + service
  }

  function AnswerTopic(service: string, id: string): string {
    ANSWERS + service + "/" + id
  }

  /** The patterns of the two topics. */
  lemma TopicsAre(service: string, id: string)
    ensures RequestTopic(service) == "service/requests/" + service
    ensures AnswerTopic(service, id) == "service/answers/" + service + "/" + id
  {
  }

  /** The service a provider reads off the topic of a request, with the pattern service/requests/(.+)$: the dot does not
      match a newline, and the dollar also stands before one that ends the topic. */
  function ServiceOf(topic: string): Option<string> {
    if |topic| <= |REQUESTS| || topic[..|REQUESTS|] != REQUESTS then None
    else
      var rest := topic[|REQUESTS|..];
      var front := rest[..|rest| - 1];
      if '\n' !in rest then Some(rest)
      else if rest[|rest| - 1] == '\n' && front != "" && '\n' !in front then Some(front)
      else None
  }

  /** A service whose name is not empty and has no newline is read back from its own topic. */
  lemma ServiceRoundTrip(service: string)
    requires service != "" && '\n' !in service
    ensures ServiceOf(RequestTopic(service)) == Some(service)
  {
    var t := RequestTopic(service);
    assert t[..|REQUESTS|] == REQUESTS && t[|REQUESTS|..] == service;
  }

  /** A service is read off its own topic only, possibly with a newline at the end. */
  lemma ServiceOfIsInverse(topic: string)
    requires ServiceOf(topic).Some?
    ensures topic == RequestTopic(ServiceOf(topic).value) || topic == RequestTopic(ServiceOf(topic).value) + ['\n']
    ensures ServiceOf(topic).value != "" && '\n' !in ServiceOf(topic).value
  {
    var rest := topic[|REQUESTS|..];
    assert topic == topic[..|REQUESTS|] + rest;
    assert rest == rest[..|rest| - 1] + [rest[|rest| - 1]];
  }

  lemma LastSlash(a: string, i: string)
    requires '/' !in i
    ensures forall k :: |a| < k < |a| + 1 + |i| ==> (a + "/" + i)[k] != '/'
  {
    forall k | |a| < k < |a| + 1 + |i| ensures (a + "/" + i)[k] != '/' {
      assert (a + "/" + i)[k] == i[k - |a| - 1];
    }
  }

  lemma SlashSplit(a: string, i: string, b: string, j: string)
    requires a + "/" + i == b + "/" + j && '/' !in i && '/' !in j
    ensures a == b && i == j
  {
    LastSlash(a, i);
    LastSlash(b, j);
    var s, t := a + "/" + i, b + "/" + j;
    assert s[|a|] == '/' && t[|b|] == '/';
    assert |a| == |b|;
    assert a == s[..|a|] && b == t[..|b|];
    assert i == s[|a| + 1..] && j == t[|b| + 1..];
  }

  /** Services may contain slashes, request ids do not: distinct requests have distinct answer topics. */
  lemma AnswerTopicIsInjective(s: string, i: string, t: string, j: string)
    requires AnswerTopic(s, i) == AnswerTopic(t, j) && '/' !in i && '/' !in j
    ensures s == t && i == j
  {
    assert AnswerTopic(s, i)[|ANSWERS|..] == s + "/" + i;
    assert AnswerTopic(t, j)[|ANSWERS|..] == t + "/" + j;
    SlashSplit(s, i, t, j);
  }

  // The interleaving of callers and providers.

  datatype Status = Waiting | Done(result: Result)

  datatype Call = Call(service: string, data: Json, status: Status)

  datatype Request = Request(topic: string, id: string, data: Json)

  datatype Message = Message(topic: string, answer: Answer)

  /** One run of a callback: the service and the request it was given, and what it did. */
  datatype Production = Production(service: string, id: string, data: Json, outcome: Outcome)

  /** `requests` and `answers` hold everything ever published: any of it may be delivered at any later time, in any
      order and any number of times, or never. `own` are the topics subscribed to otherwise. */
  datatype World = World(
    calls: map<string, Call>,
    requests: set<Request>,
    answers: set<Message>,
    produced: set<Production>,
    topics: set<string>,
    own: set<string>)

  datatype Step =
    | Begin(service: string, data: Json, id: string)
    | Serve(request: Request, outcome: Outcome)
    | Receive(id: string, message: Message)
    | GiveUp(id: string)
    | Subscribe(topic: string)
    | Unsubscribe(topic: string)

  predicate IsWaiting(w: World, id: string) {
    id in w.calls && w.calls[id].status.Waiting?
  }

  function TopicOf(w: World, id: string): string
    requires id in w.calls
  {
    AnswerTopic(w.calls[id].service, id)
  }

  /** Request ids are fresh UUIDs. */
  ghost predicate Enabled(w: World, step: Step) {
    match step
    case Begin(service, _, id) =>
      id !in w.calls && '/' !in id && AnswerTopic(service, id) !in w.own
    case Serve(request, outcome) => request in w.requests && OutcomeOk(outcome)
    case Receive(id, message) => IsWaiting(w, id) && message in w.answers && message.topic == TopicOf(w, id)
    case GiveUp(id) => IsWaiting(w, id)
    case Subscribe(topic) => forall id :: id in w.calls ==> topic != TopicOf(w, id)
    case Unsubscribe(topic) => forall id :: id in w.calls ==> topic != TopicOf(w, id)
  }

  function Finished(w: World, id: string, result: Result): World
    requires id in w.calls
  {
    w.(calls := w.calls[id := w.calls[id].(status := Done(result))], topics := w.topics - {TopicOf(w, id)})
  }

  function After(w: World, step: Step, str: Json -> string): World
    requires step.Receive? ==> step.id in w.calls
    requires step.GiveUp? ==> step.id in w.calls
  {
    match step
    case Begin(service, data, id) =>
      w.(calls := w.calls[id := Call(service, data, Waiting)],
         topics := w.topics + {AnswerTopic(service, id)},
         requests := w.requests + {Request(RequestTopic(service), id, data)})
    case Serve(request, outcome) =>
      (match ServiceOf(request.topic)
       case None => w
       case Some(service) =>
         w.(produced := w.produced + {Production(service, request.id, request.data, outcome)},
            answers := w.answers + {Message(AnswerTopic(service, request.id), AnswerTo(outcome, str))}))
    case Receive(id, message) => Finished(w, id, Decode(message.answer))
    case GiveUp(id) => Finished(w, id, TimedOut)
    case Subscribe(topic) => w.(topics := w.topics + {topic}, own := w.own + {topic})
    case Unsubscribe(topic) => w.(topics := w.topics - {topic}, own := w.own - {topic})
  }

  const EMPTY := World(map[], {}, {}, {}, {}, {})

  /** A finished call gave what a callback did with that call's own request. */
  ghost predicate Answered(w: World, id: string, str: Json -> string)
    requires id in w.calls
  {
    var c := w.calls[id];
    match c.status
    case Waiting => true
    case Done(TimedOut) => true
    case Done(result) =>
      exists o :: Production(c.service, id, c.data, o) in w.produced && OutcomeOk(o) && result == Seen(o, str)
  }

  ghost predicate RequestsOk(w: World) {
    forall r :: r in w.requests ==>
      r.id in w.calls && r.topic == RequestTopic(w.calls[r.id].service) && r.data == w.calls[r.id].data
  }

  ghost predicate ProducedOk(w: World) {
    forall p :: p in w.produced ==>
      p.id in w.calls && p.data == w.calls[p.id].data && OutcomeOk(p.outcome)
  }

  ghost predicate AnswersOk(w: World, str: Json -> string) {
    forall m :: m in w.answers ==>
      exists p :: p in w.produced && m == Message(AnswerTopic(p.service, p.id), AnswerTo(p.outcome, str))
  }

  ghost predicate NamesOk(w: World) {
    forall id :: id in w.calls ==> '/' !in id && TopicOf(w, id) !in w.own
  }

  /** The subscribed topics are the own ones and one per waiting call. */
  ghost predicate TopicsOk(w: World) {
    forall t :: t in w.topics <==> t in w.own || exists id :: IsWaiting(w, id) && t == TopicOf(w, id)
  }

  ghost predicate WorldOk(w: World, str: Json -> string) {
    && NamesOk(w) && RequestsOk(w) && ProducedOk(w) && AnswersOk(w, str) && TopicsOk(w)
    && forall id :: id in w.calls ==> Answered(w, id, str)
  }

  /** The message that ends a call answers that call: its topic determines service and id. */
  lemma MessageIsForCall(w: World, id: string, message: Message, str: Json -> string)
    requires WorldOk(w, str) && StrOk(str) && IsWaiting(w, id)
    requires message in w.answers && message.topic == TopicOf(w, id)
    ensures exists o :: Production(w.calls[id].service, id, w.calls[id].data, o) in w.produced
                     && OutcomeOk(o) && Decode(message.answer) == Seen(o, str)
  {
    var p :| p in w.produced && message == Message(AnswerTopic(p.service, p.id), AnswerTo(p.outcome, str));
    AnswerTopicIsInjective(w.calls[id].service, id, p.service, p.id);
    DecodeAnswer(p.outcome, str);
    assert p == Production(w.calls[id].service, id, w.calls[id].data, p.outcome);
  }

  /** Only `calls[id]` is touched, and it keeps its service and data. */
  lemma FinishedKeeps(w: World, id: string, result: Result, str: Json -> string)
    requires WorldOk(w, str) && IsWaiting(w, id)
    requires result == TimedOut
          || exists o :: Production(w.calls[id].service, id, w.calls[id].data, o) in w.produced
                      && OutcomeOk(o) && result == Seen(o, str)
    ensures WorldOk(Finished(w, id, result), str)
  {
    hide AnswerTopic, Seen, OutcomeOk, AnswerTo;
    var w' := Finished(w, id, result);
    forall j | j in w'.calls ensures Answered(w', j, str) {
      assert Answered(w, j, str);
    }
    forall j, k | j in w.calls && k in w.calls && TopicOf(w, j) == TopicOf(w, k) ensures j == k {
      AnswerTopicIsInjective(w.calls[j].service, j, w.calls[k].service, k);
    }
    forall j | j in w.calls ensures TopicOf(w', j) == TopicOf(w, j) {}
    assert forall j :: IsWaiting(w', j) <==> IsWaiting(w, j) && j != id;
  }

  lemma BeginKeeps(w: World, service: string, data: Json, id: string, str: Json -> string)
    requires WorldOk(w, str) && Enabled(w, Begin(service, data, id))
    ensures WorldOk(After(w, Begin(service, data, id), str), str)
  {
    hide AnswerTopic, Seen, OutcomeOk, AnswerTo;
    var w' := After(w, Begin(service, data, id), str);
    forall j | j in w.calls ensures TopicOf(w', j) == TopicOf(w, j) && Answered(w', j, str) {
      assert Answered(w, j, str);
    }
    assert IsWaiting(w', id);
    assert forall j :: IsWaiting(w', j) <==> IsWaiting(w, j) || j == id;
  }

  lemma ServeKeeps(w: World, request: Request, outcome: Outcome, str: Json -> string)
    requires WorldOk(w, str) && Enabled(w, Serve(request, outcome))
    ensures WorldOk(After(w, Serve(request, outcome), str), str)
  {
    var w' := After(w, Serve(request, outcome), str);
    forall j | j in w.calls ensures Answered(w', j, str) {
      assert Answered(w, j, str);
    }
    forall m | m in w'.answers
      ensures exists p :: p in w'.produced && m == Message(AnswerTopic(p.service, p.id), AnswerTo(p.outcome, str))
    {
      if m in w.answers {
        var p :| p in w.produced && m == Message(AnswerTopic(p.service, p.id), AnswerTo(p.outcome, str));
        assert p in w'.produced;
      } else {
        var service := ServiceOf(request.topic).value;
        assert Production(service, request.id, request.data, outcome) in w'.produced;
      }
    }
    assert forall j :: IsWaiting(w', j) <==> IsWaiting(w, j);
    assert forall j :: j in w.calls ==> TopicOf(w', j) == TopicOf(w, j);
  }

  lemma SubscriptionKeeps(w: World, step: Step, str: Json -> string)
    requires WorldOk(w, str) && Enabled(w, step) && (step.Subscribe? || step.Unsubscribe?)
    ensures WorldOk(After(w, step, str), str)
  {
    var w' := After(w, step, str);
    forall j | j in w.calls ensures Answered(w', j, str) {
      assert Answered(w, j, str);
    }
    assert forall j :: IsWaiting(w', j) <==> IsWaiting(w, j);
    assert forall j :: j in w.calls ==> TopicOf(w', j) == TopicOf(w, j);
  }

  lemma StepKeeps(w: World, step: Step, str: Json -> string)
    requires WorldOk(w, str) && StrOk(str) && Enabled(w, step)
    ensures WorldOk(After(w, step, str), str)
  {
    match step {
      case Begin(service, data, id) => BeginKeeps(w, service, data, id, str);
      case Serve(request, outcome) => ServeKeeps(w, request, outcome, str);
      case Receive(id, message) =>
        MessageIsForCall(w, id, message, str);
        FinishedKeeps(w, id, Decode(message.answer), str);
      case GiveUp(id) => FinishedKeeps(w, id, TimedOut, str);
      case Subscribe(_) => SubscriptionKeeps(w, step, str);
      case Unsubscribe(_) => SubscriptionKeeps(w, step, str);
    }
  }

  ghost predicate IsRun(ws: seq<World>, steps: seq<Step>, str: Json -> string) {
    && |ws| == |steps| + 1 && ws[0] == EMPTY && StrOk(str)
    && forall i :: 0 <= i < |steps| ==> Enabled(ws[i], steps[i]) && ws[i + 1] == After(ws[i], steps[i], str)
  }

  lemma {:induction false} RunsAreOk(ws: seq<World>, steps: seq<Step>, str: Json -> string, i: nat)
    requires IsRun(ws, steps, str) && i < |ws|
    ensures WorldOk(ws[i], str)
  {
    if i > 0 {
      RunsAreOk(ws, steps, str, i - 1);
      StepKeeps(ws[i - 1], steps[i - 1], str);
    }
  }

  /** In every interleaving, with requests and answers delayed, reordered or duplicated, a call that returned gives a value
      that a callback returned for that very request, and one that raised an error raises a well-formed `RequestError` with
      what the callback raised for it: its errors with its text, or their string if it gave none, or the repr of another
      exception. Nothing else can come out of a call but a timeout. */
  lemma CallsGetTheirOwnAnswer(ws: seq<World>, steps: seq<Step>, str: Json -> string, i: nat, id: string)
    requires IsRun(ws, steps, str) && i < |ws| && id in ws[i].calls && ws[i].calls[id].status.Done?
    ensures var w := ws[i]; var c := w.calls[id];
            match c.status.result
            case Value(v) => Production(c.service, id, c.data, Returns(v)) in w.produced
            case Failed(e, s) =>
              && ErrorOk(e, s)
              && ((exists text :: Production(c.service, id, c.data, RaisesRequestError(e, text)) in w.produced
                                && s == if text == "" then str(e) else text)
                  || (e == Null && Production(c.service, id, c.data, RaisesOther(s)) in w.produced))
            case Broken => false
            case TimedOut => true
  {
    RunsAreOk(ws, steps, str, i);
    var w := ws[i];
    var c := w.calls[id];
    assert Answered(w, id, str);
    if c.status.result != TimedOut {
      var o :| Production(c.service, id, c.data, o) in w.produced && OutcomeOk(o) && c.status.result == Seen(o, str);
      DecodeAnswer(o, str);
    }
  }

  /** And once no call is waiting, exactly the topics subscribed to otherwise are subscribed. */
  lemma TopicsAreRestored(ws: seq<World>, steps: seq<Step>, str: Json -> string, i: nat)
    requires IsRun(ws, steps, str) && i < |ws| && forall id :: !IsWaiting(ws[i], id)
    ensures ws[i].topics == ws[i].own
  {
    RunsAreOk(ws, steps, str, i);
  }
}
