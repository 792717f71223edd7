/** The `Dendrite` of elan/neuron.py as code: subscriptions are a mutated set, messages are published in sequence. Each
    method is tied to the steps of the protocol in Rpc: a ghost world says what everybody has published so far. */
module Dendrite {
  import opened Common
  import opened Rpc

  datatype Payload = Asking(request: Json, id: string) | Answering(answer: Answer)

  datatype Publication = Publication(topic: string, payload: Payload)

  function Requests(published: seq<Publication>): set<Request> {
    set p | p in published && p.payload.Asking? :: Request(p.topic, p.payload.id, p.payload.request)
  }

  function Answers(published: seq<Publication>): set<Message> {
    set p | p in published && p.payload.Answering? :: Message(p.topic, p.payload.answer)
  }

  lemma PublishedOne(published: seq<Publication>, p: Publication)
    ensures Requests(published + [p]) == Requests(published)
              + if p.payload.Asking? then {Request(p.topic, p.payload.id, p.payload.request)} else {}
    ensures Answers(published + [p]) == Answers(published)
              + if p.payload.Answering? then {Message(p.topic, p.payload.answer)} else {}
  {
    var all := published + [p];
    forall q ensures q in all <==> q in published || q == p {}
    assert p in all;
  }

  /** The answer topic of a new request is not subscribed to. */
  lemma NewTopicIsFree(w: World, service: string, data: Json, id: string, str: Json -> string)
    requires WorldOk(w, str) && Enabled(w, Begin(service, data, id))
    ensures AnswerTopic(service, id) !in w.topics
  {
    if AnswerTopic(service, id) in w.topics {
      var j :| IsWaiting(w, j) && AnswerTopic(service, id) == TopicOf(w, j);
      AnswerTopicIsInjective(service, id, w.calls[j].service, j);
    }
  }

  /** Request topics are never answer topics. */
  lemma RequestIsNoAnswer(service: string, other: string, id: string)
    ensures RequestTopic(service) != AnswerTopic(other, id)
  {
    assert RequestTopic(service)[8] == 'r' && AnswerTopic(other, id)[8] == 'a';
  }

  /** What a wait ends with: the content of the future, and what the other threads of this client have made of its
      subscriptions and publications by then. */
  datatype Waited = Waited(reply: Option<Answer>, topics: set<string>, published: seq<Publication>)

  class Client {
    var topics: set<string>
    var published: seq<Publication>

    constructor ()
      ensures topics == {} && published == []
    {
      topics, published := {}, [];
    }

    /** The world has the subscriptions of this client, and has seen all its messages. */
    ghost predicate Shows(w: World)
      reads this
    {
      topics == w.topics && Requests(published) <= w.requests && Answers(published) <= w.answers
    }

    /** What this client has published is what the world gained from `w` to `w'`, and the subscriptions are the new ones. */
    ghost predicate Takes(w: World, w': World)
      reads this
    {
      && topics == w'.topics
      && w'.requests == w.requests + Requests(published) && w'.answers == w.answers + Answers(published)
    }

    method Subscribe(topic: string)
      modifies this`topics
      ensures topics == old(topics) + {topic}
    {
      topics := topics + {topic};
    }

    method Unsubscribe(topic: string)
      modifies this`topics
      ensures topics == old(topics) - {topic}
    {
      topics := topics - {topic};
    }

    method Publish(topic: string, payload: Payload)
      modifies this`published
      ensures published == old(published) + [Publication(topic, payload)]
    {
      published := published + [Publication(topic, payload)];
    }

    /** `provide` is the step `Subscribe`, on a topic that no answer uses and from which the service is read back. */
    method Provide(service: string, ghost w: World, ghost str: Json -> string)
      requires Shows(w)
      modifies this`topics
      ensures var step := Step.Subscribe(RequestTopic(service)); Enabled(w, step) && Takes(w, After(w, step, str))
      ensures service != "" && '\n' !in service ==> exists t :: t in topics && ServiceOf(t) == Some(service)
    {
      Subscribe(RequestTopic(service));
      forall id | id in w.calls ensures RequestTopic(service) != TopicOf(w, id) {
        RequestIsNoAnswer(service, w.calls[id].service, id);
      }
      if service != "" && '\n' !in service {
        ServiceRoundTrip(service);
      }
    }

    /** `_provide_cb_wrapper` on a request is the step `Serve`: the answer goes to the topic of the request id under the
        service read off the request topic. A topic that does not match leaves the request unanswered. */
    method OnRequest(topic: string, id: string, data: Json, outcome: Outcome, str: Json -> string, ghost w: World)
      requires Shows(w)
      modifies this`published
      ensures Takes(w, After(w, Serve(Request(topic, id, data), outcome), str))
      ensures published == old(published) +
                match ServiceOf(topic)
                case None => []
                case Some(service) =>
                  [Publication(AnswerTopic(service, id), Answering(
                    match outcome
                    case Returns(v) => Answer(Some(v), None, None)
                    case RaisesRequestError(e, text) => Answer(None, Some(e), Some(if text == "" then str(e) else text))
                    case RaisesOther(repr) => Answer(None, None, Some(repr))))]
    {
      var service := ServiceOf(topic);
      var answer := Answer(None, None, None);
      match outcome {
        case Returns(v) =>
          answer := answer.(result := Some(v));
        case RaisesRequestError(e, s) =>
          answer := answer.(errors := Some(e));
          answer := answer.(errorStr := Some(if s != "" then s else str(e)));
        case RaisesOther(r) =>
          answer := answer.(errorStr := Some(r));
      }
      if service.Some? {
        PublishedOne(published, Publication(AnswerTopic(service.value, id), Answering(answer)));
        Publish(AnswerTopic(service.value, id), Answering(answer));
      }
    }

    /** `call` up to the wait is the step `Begin`. */
    method StartCall(service: string, data: Json, id: string, ghost w: World, ghost str: Json -> string)
      requires Shows(w)
      modifies this
      ensures Takes(w, After(w, Begin(service, data, id), str)) && topics == old(topics) + {AnswerTopic(service, id)}
      ensures |published| == |old(published)| + 1
    {
      Subscribe(AnswerTopic(service, id));
      PublishedOne(published, Publication(RequestTopic(service), Asking(data, id)));
      Publish(RequestTopic(service), Asking(data, id));
    }

    /** `call` from the end of the wait on is the step `Receive`, or `GiveUp` if the future is still empty. */
    method FinishCall(service: string, id: string, reply: Option<Answer>, ghost w: World, ghost str: Json -> string)
      returns (result: Result)
      requires Shows(w) && IsWaiting(w, id) && w.calls[id].service == service
      requires reply.Some? ==> Message(TopicOf(w, id), reply.value) in w.answers
      modifies this`topics
      ensures var step := if reply.Some? then Receive(id, Message(TopicOf(w, id), reply.value)) else GiveUp(id);
              && Enabled(w, step) && Takes(w, After(w, step, str)) && topics == old(topics) - {AnswerTopic(service, id)}
              && After(w, step, str).calls[id].status == Done(result)
    {
      result := TimedOut;
      Unsubscribe(AnswerTopic(service, id));
      if reply.Some? {
        var answer := reply.value;
        if answer.errors.Some? || answer.errorStr.Some? {
          var errors := if answer.errors.Some? then answer.errors.value else Null;
          var errorStr := if answer.errorStr.Some? then answer.errorStr.value else "";
          result := if Truthy(errors) || errorStr != "" then Failed(errors, errorStr) else Broken;
        } else {
          result := if answer.result.Some? then Value(answer.result.value) else Broken;
        }
      }
    }

    /** `call`, where `waited` is what the wait ends with and `later` the world by then, in which this call is still waiting
        and any other calls may have begun, ended or be waiting: it gives what a callback did with this very request, or
        times out, and leaves exactly the other subscriptions. */
    method Call(service: string, data: Json, id: string, waited: Waited, ghost w: World, ghost later: World,
                ghost str: Json -> string)
      returns (result: Result)
      requires Shows(w) && WorldOk(w, str) && Enabled(w, Begin(service, data, id)) && StrOk(str)
      requires WorldOk(later, str) && id in later.calls && later.calls[id] == Rpc.Call(service, data, Waiting)
      requires waited.topics == later.topics
      requires Requests(waited.published) <= later.requests && Answers(waited.published) <= later.answers
      requires waited.reply.Some? ==> Message(AnswerTopic(service, id), waited.reply.value) in later.answers
      modifies this
      ensures forall t :: t in topics <==> t in later.own || exists j :: j != id && IsWaiting(later, j) && t == TopicOf(later, j)
      ensures waited.topics == old(topics) + {AnswerTopic(service, id)} ==> topics == old(topics)
      ensures if waited.reply.None? then result == TimedOut
              else exists o :: (&& Production(service, id, data, o) in later.produced && OutcomeOk(o)
                                && match o
                                   case Returns(v) => result == Value(v)
                                   case RaisesRequestError(e, text) => result == Failed(e, if text == "" then str(e) else text)
                                   case RaisesOther(repr) => result == Failed(Null, repr))
    {
      hide StrOk;
      NewTopicIsFree(w, service, data, id, str);
      StartCall(service, data, id, w, str);
      topics, published := waited.topics, waited.published;
      if waited.reply.Some? {
        MessageIsForCall(later, id, Message(AnswerTopic(service, id), waited.reply.value), str);
      }
      OthersRemain(later, id, str);
      hide WorldOk;
      result := FinishCall(service, id, waited.reply, later, str);
    }
  }

  lemma OthersRemain(w: World, id: string, str: Json -> string)
    requires WorldOk(w, str) && IsWaiting(w, id)
    ensures forall t :: t in w.topics - {TopicOf(w, id)} <==>
                        t in w.own || exists j :: j != id && IsWaiting(w, j) && t == TopicOf(w, j)
  {
    forall j | IsWaiting(w, j) && TopicOf(w, j) == TopicOf(w, id) ensures j == id {
      AnswerTopicIsInjective(w.calls[j].service, j, w.calls[id].service, id);
    }
  }
}
