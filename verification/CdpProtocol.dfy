/**
 * The protocol of the script driver's DevTools client: requests numbered in order, replies that
 * carry the number they answer, and events that carry none.
 *
 * A history is the sequence of sends, receipts and registrations; the client's state is a function
 * of it.
 */
module CdpProtocol {
  import opened Common

  /** What a reply carries as its id. A key that is not a number matches no request. */
  datatype Key = Number(n: int) | Other

  datatype Failure = Failure(message: string, data: string)

  datatype Message =
    | Reply(id: Key, error: Option<Failure>, result: string)
    | Notice(name: string, params: string)

  /** How a request's promise settles: with the result, with the reply's error, or, when the
      message could not be sent at all, with the sender's own exception. */
  datatype Outcome = Fulfilled(result: string) | Failed(text: string) | NotSent

  datatype Request = Request(id: nat, name: string, params: string)

  type Handler = nat

  datatype Call = Call(handler: Handler, params: string)

  datatype Event =
    | Send(name: string, params: string, delivered: bool)
    | Receive(message: Message)
    | On(name: string, handler: Handler)

  function ErrorText(f: Failure): string {
    f.message + if f.data == "" then "" else ": " + f.data
  }

  function OutcomeOf(m: Message): Outcome
    requires m.Reply?
  {
    if m.error.Some? then Failed(ErrorText(m.error.value)) else Fulfilled(m.result)
  }

  /** The client: the next id, the ids awaiting a reply, each request's outcome so far (request
      `id` at `id - 1`), the handlers by event name, what was sent and which handlers were called. */
  datatype Client = Client(nextId: nat, pending: set<nat>, outcomes: seq<Option<Outcome>>,
                           handlers: map<string, seq<Handler>>, wire: seq<Request>, calls: seq<Call>)

  function Fresh(): Client {
    Client(1, {}, [], map[], [], [])
  }

  function HandlersFor(handlers: map<string, seq<Handler>>, name: string): seq<Handler> {
    if name in handlers then handlers[name] else []
  }

  function CallAll(handlers: seq<Handler>, params: string): seq<Call> {
    if handlers == [] then [] else [Call(handlers[0], params)] + CallAll(handlers[1..], params)
  }

  /** A promise keeps the first outcome it is given. */
  function Settled(was: Option<Outcome>, o: Outcome): Option<Outcome> {
    if was.Some? then was else Some(o)
  }

  ghost predicate Valid(c: Client) {
    && c.nextId == |c.outcomes| + 1
    && (forall id :: id in c.pending ==> 1 <= id < c.nextId)
  }

  function Step(c: Client, e: Event): (r: Client)
    requires Valid(c)
    ensures Valid(r)
  {
    match e
    case Send(name, params, delivered) =>
      c.(nextId := c.nextId + 1, pending := c.pending + {c.nextId},
         outcomes := c.outcomes + [if delivered then None else Some(NotSent)],
         wire := if delivered then c.wire + [Request(c.nextId, name, params)] else c.wire)
    case Receive(Reply(id, error, result)) =>
      if id.Number? && id.n in c.pending
      then c.(pending := c.pending - {id.n},
              outcomes := c.outcomes[id.n - 1 := Settled(c.outcomes[id.n - 1], OutcomeOf(e.message))])
      else c
    case Receive(Notice(name, params)) =>
      c.(calls := c.calls + CallAll(HandlersFor(c.handlers, name), params))
    case On(name, handler) =>
      c.(handlers := c.handlers[name := HandlersFor(c.handlers, name) + [handler]])
  }

  /** The client after a history of sends, messages received and handlers added. */
  function Run(h: seq<Event>): (c: Client)
    ensures Valid(c)
  {
    if h == [] then Fresh() else Step(Run(h[..|h| - 1]), h[|h| - 1])
  }

  lemma {:induction false} RunSplits(h: seq<Event>, e: Event)
    ensures Run(h + [e]) == Step(Run(h), e)
  {
    assert (h + [e])[..|h|] == h;
  }

  // ----- A history read without the client ----------------------------------------------------------

  function Sends(h: seq<Event>): nat {
    if h == [] then 0 else Sends(h[..|h| - 1]) + if h[|h| - 1].Send? then 1 else 0
  }

  /** Event `i` is the send that made request `id`. */
  predicate SentAt(h: seq<Event>, id: nat, i: int) {
    0 <= i < |h| && h[i].Send? && Sends(h[..i]) + 1 == id
  }

  /** Event `j` is a reply to request `id`, received when that request had been made. */
  predicate AnsweredAt(h: seq<Event>, id: nat, j: int) {
    0 <= j < |h| && h[j].Receive? && h[j].message.Reply? && h[j].message.id == Number(id) && 1 <= id <= Sends(h[..j])
  }

  ghost predicate Answered(h: seq<Event>, id: nat) {
    exists j :: AnsweredAt(h, id, j)
  }

  ghost predicate FirstAnswer(h: seq<Event>, id: nat, j: int) {
    AnsweredAt(h, id, j) && forall k :: 0 <= k < j ==> !AnsweredAt(h, id, k)
  }

  lemma EarlierAlike(h: seq<Event>, id: nat, j: int)
    requires h != [] && 0 <= j < |h| - 1
    ensures AnsweredAt(h[..|h| - 1], id, j) <==> AnsweredAt(h, id, j)
    ensures SentAt(h[..|h| - 1], id, j) <==> SentAt(h, id, j)
  {
    assert h[..|h| - 1][..j] == h[..j];
  }

  lemma AnsweredBefore(h: seq<Event>, id: nat)
    requires h != []
    ensures Answered(h, id) <==> Answered(h[..|h| - 1], id) || AnsweredAt(h, id, |h| - 1)
  {
    var before := h[..|h| - 1];
    if j :| AnsweredAt(before, id, j) {
      EarlierAlike(h, id, j);
      assert AnsweredAt(h, id, j);
    }
    if j :| AnsweredAt(h, id, j) {
      if j < |h| - 1 { EarlierAlike(h, id, j); assert AnsweredAt(before, id, j); }
    }
  }

  /** At every point of every history the pending ids are exactly the requests made and not yet
      answered: all different, and all below the next id. */
  lemma {:induction false} PendingExactly(h: seq<Event>)
    ensures Run(h).nextId == Sends(h) + 1
    ensures forall id :: id in Run(h).pending <==> 1 <= id <= Sends(h) && !Answered(h, id)
  {
    if h != [] {
      var before := h[..|h| - 1];
      PendingExactly(before);
      forall id: nat ensures id in Run(h).pending <==> 1 <= id <= Sends(h) && !Answered(h, id) {
        AnsweredBefore(h, id);
        if id > Sends(before) { Unanswered(before, id); }
      }
    }
  }

  lemma {:induction false} SendsGrow(h: seq<Event>, i: nat)
    requires i <= |h|
    ensures Sends(h[..i]) <= Sends(h)
  {
    if i == |h| { assert h[..i] == h; } else {
      SendsGrow(h[..|h| - 1], i);
      assert h[..|h| - 1][..i] == h[..i];
    }
  }

  lemma Unanswered(h: seq<Event>, id: nat)
    requires id > Sends(h)
    ensures !Answered(h, id)
  {
    if j :| AnsweredAt(h, id, j) { SendsGrow(h, j); }
  }

  /** How a request made by event `i` stands. */
  ghost predicate StandsAs(h: seq<Event>, id: nat, i: int, o: Option<Outcome>)
    requires SentAt(h, id, i)
  {
    if !h[i].delivered then o == Some(NotSent)
    else (Answered(h, id) <==> o.Some?)
         && forall j :: FirstAnswer(h, id, j) ==> o.Some? && Settles(h[j].message, o.value)
  }

  /** A reply without an error fulfils the promise with its result; one with an error fails it with
      the error's message, and its data after a colon when there is any. */
  predicate Settles(m: Message, o: Outcome) {
    match m
    case Reply(_, None, result) => o == Fulfilled(result)
    case Reply(_, Some(Failure(text, "")), _) => o == Failed(text)
    case Reply(_, Some(Failure(text, data)), _) => o == Failed(text + ": " + data)
    case Notice(_, _) => false
  }

  lemma OutcomeSettles(m: Message)
    requires m.Reply?
    ensures Settles(m, OutcomeOf(m))
  {
  }

  /** A request that has been answered has a first answer. */
  lemma {:induction false} AnsweredHasFirst(h: seq<Event>, id: nat, j: int) returns (first: int)
    requires AnsweredAt(h, id, j)
    ensures FirstAnswer(h, id, first) && first <= j
    decreases j
  {
    first := j;
    if k :| 0 <= k < j && AnsweredAt(h, id, k) { first := AnsweredHasFirst(h, id, k); }
  }

  /** Adding an event that does not answer the request leaves the request's answers as they were. */
  lemma FirstStaysFirst(h: seq<Event>, id: nat, j: int)
    requires h != [] && j < |h| - 1
    ensures FirstAnswer(h, id, j) <==> FirstAnswer(h[..|h| - 1], id, j)
  {
    var before := h[..|h| - 1];
    forall k | 0 <= k <= j ensures AnsweredAt(before, id, k) <==> AnsweredAt(h, id, k) {
      EarlierAlike(h, id, k);
    }
    if FirstAnswer(h, id, j) { assert FirstAnswer(before, id, j); }
    if FirstAnswer(before, id, j) { assert FirstAnswer(h, id, j); }
  }

  lemma JustSent(h: seq<Event>, id: nat)
    requires h != [] && SentAt(h, id, |h| - 1)
    ensures id == Sends(h) && !Answered(h, id)
  {
    AnsweredBefore(h, id);
    Unanswered(h[..|h| - 1], id);
  }

  /** A first answer at the newest event means there was none before. */
  lemma FirstIsNew(h: seq<Event>, id: nat)
    requires h != [] && FirstAnswer(h, id, |h| - 1)
    ensures !Answered(h[..|h| - 1], id)
  {
    var before := h[..|h| - 1];
    if j :| AnsweredAt(before, id, j) { EarlierAlike(h, id, j); }
  }

  /** The newest event settles a request only when it is its first answer. */
  lemma SettlesOnFirst(h: seq<Event>, id: nat)
    requires h != [] && 1 <= id <= Sends(h[..|h| - 1])
    ensures var was, now := Run(h[..|h| - 1]).outcomes, Run(h).outcomes;
            && id <= |was| <= |now|
            && now[id - 1] == if AnsweredAt(h, id, |h| - 1) && !Answered(h[..|h| - 1], id)
                              then Settled(was[id - 1], OutcomeOf(h[|h| - 1].message)) else was[id - 1]
  {
    PendingExactly(h[..|h| - 1]);
  }

  /** Each request settles at most once and only by its own reply: in every history its outcome
      is that of the first reply with its id received after it was made, and none while there is
      no such reply. One whose message could not be sent has failed already. */
  lemma {:induction false} SettlesByFirstAnswer(h: seq<Event>, id: nat, i: int)
    requires SentAt(h, id, i)
    ensures 1 <= id <= |Run(h).outcomes| && StandsAs(h, id, i, Run(h).outcomes[id - 1])
  {
    var before := h[..|h| - 1];
    PendingExactly(h);
    PendingExactly(before);
    if i == |h| - 1 {
      JustSent(h, id);
    } else {
      EarlierAlike(h, id, i);
      SettlesByFirstAnswer(before, id, i);
      SettlesOnFirst(h, id);
      AnsweredBefore(h, id);
      forall j | FirstAnswer(h, id, j) && h[i].delivered
        ensures Run(h).outcomes[id - 1].Some? && Settles(h[j].message, Run(h).outcomes[id - 1].value)
      {
        OutcomeSettles(h[j].message);
        if j < |h| - 1 { FirstStaysFirst(h, id, j); AnsweredNotNew(h, id, j); } else { FirstIsNew(h, id); }
      }
    }
  }

  lemma AnsweredNotNew(h: seq<Event>, id: nat, j: int)
    requires h != [] && FirstAnswer(h[..|h| - 1], id, j)
    ensures Answered(h[..|h| - 1], id)
  {
  }

  lemma StepKeepsOutcome(c: Client, e: Event, id: nat)
    requires Valid(c) && 1 <= id <= |c.outcomes|
    ensures |c.outcomes| <= |Step(c, e).outcomes|
    ensures c.outcomes[id - 1].Some? ==> Step(c, e).outcomes[id - 1] == c.outcomes[id - 1]
  {
  }

  /** An outcome once given never changes. */
  lemma {:induction false} OutcomesAreFinal(h: seq<Event>, more: seq<Event>, id: nat)
    requires 1 <= id <= Sends(h)
    ensures |Run(h).outcomes| == Sends(h) <= |Run(h + more).outcomes|
    ensures Run(h).outcomes[id - 1].Some? ==> Run(h + more).outcomes[id - 1] == Run(h).outcomes[id - 1]
  {
    PendingExactly(h);
    if more == [] {
      assert h + more == h;
    } else {
      hide Step, Sends, Run;
      var front, e := more[..|more| - 1], more[|more| - 1];
      OutcomesAreFinal(h, front, id);
      assert h + more == h + front + [e];
      RunSplits(h + front, e);
      StepKeepsOutcome(Run(h + front), e, id);
    }
  }

  /** A request is pending yet settled, and so never forgotten, exactly when its message could
      not be sent and nothing has answered it. */
  lemma PendingIsUnsettledIff(h: seq<Event>, id: nat, i: int)
    requires SentAt(h, id, i)
    ensures 1 <= id <= |Run(h).outcomes|
    ensures (id in Run(h).pending <==> Run(h).outcomes[id - 1].None?) <==> h[i].delivered || Answered(h, id)
  {
    PendingExactly(h);
    SettlesByFirstAnswer(h, id, i);
  }

  /** A request whose message could not be sent has failed at once, and stays pending. */
  lemma UnsentStaysPending(name: string, params: string)
    ensures var h := [Send(name, params, false)];
            SentAt(h, 1, 0) && 1 in Run(h).pending && Run(h).outcomes == [Some(NotSent)]
  {
    var h := [Send(name, params, false)];
    assert h[..0] == [] && Run(h) == Step(Run([]), h[0]);
  }

  // ----- Interference ------------------------------------------------------------------------------

  predicate IsNotice(e: Event) {
    e.On? || (e.Receive? && e.message.Notice?)
  }

  /** A history's requests and replies, or its events and handlers. */
  function Only(h: seq<Event>, notices: bool): seq<Event> {
    if h == [] then []
    else
      var front := Only(h[..|h| - 1], notices);
      if IsNotice(h[|h| - 1]) == notices then front + [h[|h| - 1]] else front
  }

  predicate SameRequests(c: Client, d: Client) {
    c.nextId == d.nextId && c.pending == d.pending && c.outcomes == d.outcomes && c.wire == d.wire
  }

  predicate SameNotices(c: Client, d: Client) {
    c.handlers == d.handlers && c.calls == d.calls
  }

  lemma StepTakesItsHalf(c: Client, d: Client, e: Event)
    requires Valid(c) && Valid(d)
    ensures if IsNotice(e)
            then SameRequests(Step(c, e), c) && (SameNotices(c, d) ==> SameNotices(Step(c, e), Step(d, e)))
            else SameNotices(Step(c, e), c) && (SameRequests(c, d) ==> SameRequests(Step(c, e), Step(d, e)))
  {
  }

  /** Events never touch a request, and requests never touch the handlers: each half of a history
      leaves exactly what it would have left by itself. */
  lemma {:induction false} HalvesDoNotMeet(h: seq<Event>)
    ensures SameRequests(Run(h), Run(Only(h, false))) && SameNotices(Run(h), Run(Only(h, true)))
  {
    hide Step;
    if h != [] {
      var before, e := h[..|h| - 1], h[|h| - 1];
      HalvesDoNotMeet(before);
      RunSplits(Only(before, IsNotice(e)), e);
      StepTakesItsHalf(Run(before), Run(Only(before, IsNotice(e))), e);
    }
  }

  /** Replies to different requests may arrive in either order, and a second reply to the same
      one changes nothing. */
  lemma RepliesCommute(c: Client, a: Event, b: Event)
    requires Valid(c) && a.Receive? && a.message.Reply? && b.Receive? && b.message.Reply?
    ensures a.message.id != b.message.id ==> Step(Step(c, a), b) == Step(Step(c, b), a)
    ensures a.message.id == b.message.id ==> Step(Step(c, a), b) == Step(c, a)
  {
    var x, y := a.message.id, b.message.id;
    if x.Number? && y.Number? && x != y && x.n in c.pending && y.n in c.pending {
      assert c.pending - {x.n} - {y.n} == c.pending - {y.n} - {x.n};
    }
  }

  // ----- The wire and the calls ----------------------------------------------------------------------

  /** What went out is numbered strictly upwards, below the next id. */
  predicate Ascending(w: seq<Request>, nextId: nat) {
    && (forall k :: 0 <= k < |w| ==> 1 <= w[k].id < nextId)
    && (forall k, l :: 0 <= k < l < |w| ==> w[k].id < w[l].id)
  }

  lemma StepAscends(c: Client, e: Event)
    requires Valid(c) && Ascending(c.wire, c.nextId)
    ensures Ascending(Step(c, e).wire, Step(c, e).nextId)
  {
  }

  lemma {:induction false} WireAscends(h: seq<Event>)
    ensures Ascending(Run(h).wire, Run(h).nextId)
  {
    if h != [] {
      WireAscends(h[..|h| - 1]);
      StepAscends(Run(h[..|h| - 1]), h[|h| - 1]);
    }
  }

  /** What goes out is each request that can be sent, under its number and as it was made. */
  lemma WireGrows(h: seq<Event>, e: Event)
    ensures Run(h + [e]).wire
            == Run(h).wire + (match e
                              case Send(name, params, true) => [Request(Sends(h) + 1, name, params)]
                              case _ => [])
  {
    RunSplits(h, e);
    PendingExactly(h);
  }

  /** The handlers added for an event name, in the order they were added. */
  function Registered(h: seq<Event>, name: string): seq<Handler> {
    if h == [] then []
    else
      var e, earlier := h[|h| - 1], Registered(h[..|h| - 1], name);
      if e.On? && e.name == name then earlier + [e.handler] else earlier
  }

  lemma {:induction false} HandlersAreRegistered(h: seq<Event>, name: string)
    ensures HandlersFor(Run(h).handlers, name) == Registered(h, name)
  {
    if h != [] { HandlersAreRegistered(h[..|h| - 1], name); }
  }

  /** Receiving an event calls every handler added for it so far, once each and in order. */
  lemma NoticeCallsRegistered(h: seq<Event>, name: string, params: string)
    ensures var was, now := Run(h).calls, Run(h + [Receive(Notice(name, params))]).calls;
            && was <= now && |now| == |was| + |Registered(h, name)|
            && forall i :: 0 <= i < |Registered(h, name)| ==>
                 now[|was| + i] == Call(Registered(h, name)[i], params)
  {
    RunSplits(h, Receive(Notice(name, params)));
    HandlersAreRegistered(h, name);
    CallsAre(Registered(h, name), params);
  }

  lemma {:induction false} CallsAre(handlers: seq<Handler>, params: string)
    ensures |CallAll(handlers, params)| == |handlers|
    ensures forall i :: 0 <= i < |handlers| ==> CallAll(handlers, params)[i] == Call(handlers[i], params)
  {
    if handlers != [] { CallsAre(handlers[1..], params); }
  }

  /** Nothing else calls one. */
  lemma OnlyNoticesCall(h: seq<Event>, e: Event)
    requires !(e.Receive? && e.message.Notice?)
    ensures Run(h + [e]).calls == Run(h).calls
  {
    RunSplits(h, e);
  }
}
