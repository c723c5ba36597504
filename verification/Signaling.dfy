/** The send queue in front of a transport that may refuse a message at any time. */
module Signaling {
  import opened Common

  /** How many of n messages in a row the transport takes; `takes` says what it would answer to each attempt. */
  function Taken(n: nat, takes: nat -> bool): (k: nat)
    ensures k <= n
    ensures forall i :: 0 <= i < k ==> takes(i)
    ensures k < n ==> !takes(k)
  {
    if n == 0 then 0
    else
      var k := Taken(n - 1, takes);
      if k == n - 1 && takes(k) then n else k
  }

  class SignalingSctpConnection {
    var pendingData: seq<Binary>
    var isReadyToSend: bool

    /** Everything handed to send, and everything the transport took, in order. */
    ghost var sent: seq<Binary>
    ghost var accepted: seq<Binary>

    ghost predicate Valid()
      reads this
    {
      && accepted + pendingData == sent
      && (isReadyToSend ==> pendingData == [])
    }

    constructor ()
      ensures Valid() && sent == [] && accepted == [] && !isReadyToSend
    {
      pendingData, isReadyToSend, sent, accepted := [], false, [], [];
    }

    /** `takes` is what the transport answers if it is asked. */
    method Send(data: Binary, takes: bool)
      requires Valid()
      modifies this
      ensures Valid() && sent == old(sent) + [data]
      ensures if old(isReadyToSend) && takes then isReadyToSend && accepted == old(accepted) + [data]
              else !isReadyToSend && accepted == old(accepted) && pendingData == old(pendingData) + [data]
    {
      sent := sent + [data];
      if isReadyToSend {
        if takes {
          accepted := accepted + [data];
        } else {
          isReadyToSend := false;
          pendingData := pendingData + [data];
        }
      } else {
        pendingData := pendingData + [data];
      }
    }

    /** Sends what was pending up to the first refusal; the rest goes on waiting in its order. */
    method OnReadyToSend(takes: nat -> bool)
      requires Valid()
      modifies this
      ensures Valid() && sent == old(sent)
      ensures var k := Taken(|old(pendingData)|, takes);
              && accepted == old(accepted) + old(pendingData)[..k]
              && pendingData == old(pendingData)[k..]
              && isReadyToSend == (k == |old(pendingData)|)
    {
      isReadyToSend := true;
      var pending := pendingData;
      pendingData := [];
      var i := 0;
      while i < |pending|
        invariant 0 <= i <= |pending|
        invariant isReadyToSend && pendingData == [] && sent == old(sent)
        invariant accepted == old(accepted) + pending[..i]
        invariant forall j :: 0 <= j < i ==> takes(j)
      {
        if !takes(i) {
          pendingData := pending[i..];
          isReadyToSend := false;
          break;
        }
        accepted := accepted + [pending[i]];
        i := i + 1;
      }
      assert pending[..i] + pending[i..] == pending;
      assert i == Taken(|pending|, takes);
    }
  }

  datatype Event = Message(data: Binary, takes: bool) | Ready(answers: nat -> bool)

  function Messages(events: seq<Event>): seq<Binary> {
    if events == [] then []
    else Messages(events[..|events| - 1]) + (if events[|events| - 1].Message? then [events[|events| - 1].data] else [])
  }

  /** What a run leaves accepted and pending. */
  datatype Link = Link(accepted: seq<Binary>, pending: seq<Binary>, ready: bool)

  function AfterEvents(events: seq<Event>): Link {
    if events == [] then Link([], [], false)
    else
      var l := AfterEvents(events[..|events| - 1]);
      match events[|events| - 1]
      case Message(data, takes) =>
        if l.ready && takes then l.(accepted := l.accepted + [data])
        else l.(pending := l.pending + [data], ready := false)
      case Ready(answers) =>
        var k := Taken(|l.pending|, answers);
        Link(l.accepted + l.pending[..k], l.pending[k..], k == |l.pending|)
  }

  /** First in, first out and nothing lost: what was taken, then what is pending, is what was sent. */
  lemma {:induction false} AcceptedThenPendingIsSent(events: seq<Event>)
    ensures var l := AfterEvents(events);
            l.accepted + l.pending == Messages(events) && (l.ready ==> l.pending == [])
    decreases |events|
  {
    if events != [] {
      AcceptedThenPendingIsSent(events[..|events| - 1]);
    }
  }

  /** However the transport behaved before, one ready event at which it takes everything delivers all that was sent. */
  lemma AllIsDeliveredInTheEnd(events: seq<Event>, answers: nat -> bool)
    requires forall i :: answers(i)
    ensures AfterEvents(events + [Ready(answers)]) == Link(Messages(events), [], true)
  {
    AcceptedThenPendingIsSent(events);
    assert (events + [Ready(answers)])[..|events|] == events;
    var l := AfterEvents(events);
    assert l.pending[..|l.pending|] == l.pending;
  }

  method Run(events: seq<Event>) returns (x: SignalingSctpConnection)
    ensures fresh(x) && x.Valid() && x.sent == Messages(events)
    ensures Link(x.accepted, x.pendingData, x.isReadyToSend) == AfterEvents(events)
  {
    x := new SignalingSctpConnection();
    for i := 0 to |events|
      invariant fresh(x) && x.Valid() && x.sent == Messages(events[..i])
      invariant Link(x.accepted, x.pendingData, x.isReadyToSend) == AfterEvents(events[..i])
    {
      assert events[..i + 1][..i] == events[..i];
      match events[i]
      case Message(data, takes) => x.Send(data, takes);
      case Ready(answers) => x.OnReadyToSend(answers);
    }
    assert events[..|events|] == events;
  }
}
