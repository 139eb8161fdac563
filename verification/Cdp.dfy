/**
 * The script driver's DevTools client: one socket, a counter, the promises awaiting a reply and
 * the handlers waiting for events.
 *
 * A promise is an object, shared between the pending map and whoever asked for it, and every one
 * ever handed out is remembered, so that what a message settles and what it leaves alone can both
 * be stated. Each method is one step of the protocol.
 */
module Cdp {
  import opened Common
  import opened CdpProtocol

  /** A promise keeps the first outcome it is given. */
  class Promise {
    var outcome: Option<Outcome>

    constructor ()
      ensures outcome == None
    {
      outcome := None;
    }

    method Settle(o: Outcome)
      modifies this
      ensures outcome == Settled(old(outcome), o)
    {
      if outcome.None? { outcome := Some(o); }
    }
  }

  class Cdp {
    var nextId: nat
    var pending: map<nat, Promise>
    var handlers: map<string, seq<Handler>>
    /** What has gone out over the socket, and the handler calls made. */
    var wire: seq<Request>
    var calls: seq<Call>
    /** Every promise handed out, request `id`'s at `id - 1`. */
    ghost var issued: seq<Promise>

    ghost predicate Valid()
      reads this
    {
      && nextId == |issued| + 1
      && (forall i, j :: 0 <= i < j < |issued| ==> issued[i] != issued[j])
      && (forall id :: id in pending ==> 1 <= id < nextId && pending[id] == issued[id - 1])
    }

    ghost function Outcomes(): seq<Option<Outcome>>
      reads this, issued
    {
      seq(|issued|, i requires 0 <= i < |issued| reads this, issued => issued[i].outcome)
    }

    /** The client as the protocol sees it. */
    ghost function View(): Client
      reads this, issued
    {
      Client(nextId, pending.Keys, Outcomes(), handlers, wire, calls)
    }

    constructor ()
      ensures Valid() && View() == Fresh() && issued == []
    {
      nextId := 1;
      pending, handlers, wire, calls, issued := map[], map[], [], [], [];
    }

    /** Takes the next id and enters a new promise under it. */
    method Enter() returns (p: Promise)
      requires Valid()
      modifies this`nextId, this`pending, this`issued
      ensures Valid() && fresh(p) && issued == old(issued) + [p] && nextId == old(nextId) + 1
      ensures pending.Keys == old(pending.Keys) + {old(nextId)} && p.outcome == None
      ensures Outcomes() == old(Outcomes()) + [None]
    {
      p := new Promise();
      pending := pending[nextId := p];
      issued := issued + [p];
      nextId := nextId + 1;
    }

    /** Sends a request and hands out its promise. When the message cannot be sent the promise
        fails, and its entry stays. */
    method Send(name: string, params: string, delivered: bool) returns (p: Promise)
      requires Valid()
      modifies this
      ensures Valid() && fresh(p) && issued == old(issued) + [p]
      ensures CdpProtocol.Valid(old(View())) && View() == Step(old(View()), CdpProtocol.Send(name, params, delivered))
    {
      var id := nextId;
      p := Enter();
      if delivered {
        wire := wire + [Request(id, name, params)];
      } else {
        p.Settle(NotSent);
        assert Outcomes() == old(Outcomes()) + [Some(NotSent)];
      }
    }

    /** A message from the socket: a reply settles the request it names, and an event calls the
        handlers added for it. */
    method OnMessage(m: Message)
      requires Valid()
      modifies this, issued
      ensures Valid() && issued == old(issued)
      ensures CdpProtocol.Valid(old(View())) && View() == Step(old(View()), Receive(m))
    {
      match m {
        case Reply(id, error, result) =>
          if !id.Number? || id.n !in pending { return; }
          var p := pending[id.n];
          pending := pending - {id.n};
          p.Settle(if error.Some? then Failed(ErrorText(error.value)) else Fulfilled(result));
          assert pending.Keys == old(pending.Keys) - {id.n};
        case Notice(name, params) =>
          CallHandlers(if name in handlers then handlers[name] else [], params);
      }
    }

    method CallHandlers(called: seq<Handler>, params: string)
      modifies this`calls
      ensures calls == old(calls) + CallAll(called, params)
    {
      var i := 0;
      while i < |called|
        invariant 0 <= i <= |called|
        invariant calls + CallAll(called[i..], params) == old(calls) + CallAll(called, params)
      {
        assert called[i..][0] == called[i] && called[i..][1..] == called[i + 1..];
        calls := calls + [Call(called[i], params)];
        i := i + 1;
      }
      assert calls + [] == calls;
    }

    method On(name: string, handler: Handler)
      requires Valid()
      modifies this
      ensures Valid() && issued == old(issued)
      ensures CdpProtocol.Valid(old(View())) && View() == Step(old(View()), CdpProtocol.On(name, handler))
    {
      if name !in handlers { handlers := handlers[name := []]; }
      handlers := handlers[name := handlers[name] + [handler]];
    }
  }
}
