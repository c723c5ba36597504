/** Sessions whose poll replies answer their own requests: nothing else is asked of the server. */
module SessionServed {
  import opened Common
  import opened SessionSpec
  import S = Session
  import Runs = SessionRuns

  /** `log` says what is pushed; a request is answered with as many blocks as the server likes, from where it asks. */
  datatype Happening =
    | Pushed(s: int, start: nat, count: nat)
    | Answered(request: nat, count: nat)
    | RequestFinished(s: int)
    | WaitingTimer(s: int, generation: int)
    | PollTimer(s: int, generation: int)

  /** The server's main log, of which it gives blocks from `first` on, and its broadcasts. */
  datatype Server = Server(main: seq<Binary>, broadcasts: seq<Binary>, first: nat)

  function Slice(log: seq<Binary>, start: nat, count: nat): (r: seq<Binary>)
    ensures |r| <= count && (r != [] ==> start + |r| <= |log| && r == log[start..start + |r|])
  {
    if |log| <= start then []
    else if |log| < start + count then log[start..]
    else log[start..start + count]
  }

  predicate Proper(server: Server, h: Happening) {
    match h
    case Pushed(s, start, _) => S.IsSubChain(s) && (s == 0 ==> server.first <= start)
    case Answered(_, _) => true
    case RequestFinished(s) => S.IsSubChain(s)
    case WaitingTimer(s, _) => S.IsSubChain(s)
    case PollTimer(s, _) => S.IsSubChain(s)
  }

  /** What was asked for lies at or below the height, and broadcasts were asked for only with a chain. */
  ghost predicate AskedWithin(requests: seq<(int, int)>, h0: int, h1: int, hasChain: bool) {
    && 0 <= h0 && 0 <= h1
    && forall i :: 0 <= i < |requests| ==>
         0 <= requests[i].1 && ((requests[i].0 == 0 && requests[i].1 <= h0) || (requests[i].0 == 1 && requests[i].1 <= h1 && hasChain))
  }

  ghost predicate Served(x: S.Session, m: Client, server: Server)
    reads x
  {
    && x.Valid() && x.cfg == ConfigOf(m) && x.regular && !x.failed
    && |x.delivered| == |x.subs| == 2
    && FromLog(x.delivered[0], server.main) && Runs.StartsAt(x.delivered[0], server.first)
    && AskedWithin(x.requests, x.subs[0].height, x.subs[1].height, x.chain.Some?)
  }

  lemma SliceIsFromLog(server: Server, start: nat, count: nat)
    requires server.first <= start
    ensures var bs := Slice(server.main, start, count);
            FromLog(Offered(start, bs), server.main) && Runs.StartsAt(Offered(start, bs), server.first)
  {
    var bs := Slice(server.main, start, count);
    forall e | e in Offered(start, bs) ensures 0 <= e.index < |server.main| && server.main[e.index] == e.block && server.first <= e.index {
      assert bs[e.index - start] == e.block;
    }
  }

  /** A chain is there only if the height is past the server's first block. */
  lemma ChainMeansStarted(x: S.Session, first: nat)
    requires x.Valid() && !x.failed && |x.delivered| == |x.subs| == 2 && Runs.StartsAt(x.delivered[0], first)
    ensures x.chain.Some? ==> first < x.subs[0].height
  {
    hide Explains, TimersMatch, Contiguous, Fold;
    x.SettledElsewhere(0);
    if x.chain.Some? {
      assert x.log[0][0] in x.delivered[0];
    }
  }

  lemma HeightsOnlyGrow(s: int, nextOffset: int, blocks: seq<Binary>, polled: bool, hadChain: bool,
                        x: SubChain, before: seq<Entry>, y: SubChain, log: seq<Entry>)
    requires Delivers(s, nextOffset, blocks, polled, hadChain, x, before, y, log)
    ensures x.height <= y.height && before <= log && (polled ==> nextOffset <= y.height)
  {
    hide Attempts, AppliedAfter;
  }

  /** Any delivery of the server's blocks at a place it may start keeps the session served. */
  method Deliver(x: S.Session, m: Client, ghost server: Server, s: int, start: nat, blocks: seq<Binary>, polled: bool)
    requires AcceptedLog(m, server.main) && Runs.KeyedFrom(m, server.main, server.first)
    requires Served(x, m, server) && S.IsSubChain(s)
    requires s == 0 ==> FromLog(Offered(start, blocks), server.main) && Runs.StartsAt(Offered(start, blocks), server.first)
    requires S.Admissible(s, x.chain.Some?, x.subs[s].height, start + |blocks|, |blocks|, polled)
    modifies x
    ensures Served(x, m, server) && x.requests == old(x.requests)
    ensures x.chain.Some? <== old(x.chain).Some? || (s == 0 && polled && blocks != [])
    ensures polled ==> start + |blocks| <= x.subs[s].height
  {
    hide Offered, Delivers, Attempts, Explains, ChainFollows, Sourced, Ordered, TimersMatch, Contiguous, Folds, Fold, AcceptedLog, ConfigOf;
    x.SettledElsewhere(0);
    x.ApplyBlocks(s, start + |blocks|, blocks, polled);
    Runs.NeverFailsOnAnAcceptedLog(x, m, server.main, server.first);
    x.SettledElsewhere(0);
    HeightsOnlyGrow(s, start + |blocks|, blocks, polled, old(x.chain).Some?, old(x.subs)[s], old(x.log)[s], x.subs[s], x.log[s]);
  }

  /** Up to where the server's answer to a request for main blocks reaches. */
  function Reach(server: Server, asked: int, count: nat): int {
    var end := (if asked < server.first then server.first else asked) + count;
    if end < |server.main| then end else |server.main|
  }

  /** An answer that could bring a main block leaves a session that has a chain, at least as far as it reaches. */
  method Answer(x: S.Session, m: Client, server: Server, k: nat, count: nat)
    requires AcceptedLog(m, server.main) && Runs.KeyedFrom(m, server.main, server.first)
    requires Served(x, m, server) && k < |x.requests|
    modifies x
    ensures Served(x, m, server)
    ensures var (s, asked) := old(x.requests)[k];
            s == 0 && 0 < count && server.first < |server.main| ==>
              x.chain.Some? && Reach(server, asked, count) <= x.subs[0].height
  {
    hide Offered, Explains, ChainFollows, Sourced, Ordered, TimersMatch, Contiguous, Fold, AcceptedLog, ConfigOf;
    var (s, h) := x.requests[k];
    if s == 1 {
      var blocks := Slice(server.broadcasts, h, count);
      Deliver(x, m, server, 1, h, blocks, true);
    } else {
      ChainMeansStarted(x, server.first);
      var start := if h < server.first then server.first else h;
      var blocks := Slice(server.main, start, count);
      SliceIsFromLog(server, start, count);
      if blocks == [] {
        EmptyIsFromLog(h, server);
        NoChainNoHeight(x);
        Deliver(x, m, server, 0, h, [], true);
      } else {
        Deliver(x, m, server, 0, start, blocks, true);
      }
    }
  }

  lemma NoChainNoHeight(x: S.Session)
    requires x.Valid() && x.regular && !x.failed && |x.subs| == 2
    ensures x.chain.None? ==> x.subs[0].height == 0
  {
    hide Explains, TimersMatch, Fold, Sourced;
  }

  lemma EmptyIsFromLog(start: int, server: Server)
    ensures FromLog(Offered(start, []), server.main) && Runs.StartsAt(Offered(start, []), server.first)
  {
  }

  method Push(x: S.Session, m: Client, server: Server, s: int, start: nat, count: nat)
    requires AcceptedLog(m, server.main) && Runs.KeyedFrom(m, server.main, server.first)
    requires Served(x, m, server) && S.IsSubChain(s) && (s == 0 ==> server.first <= start)
    modifies x
    ensures Served(x, m, server)
  {
    hide Offered, Explains, ChainFollows, Sourced, Ordered, TimersMatch, Contiguous, Fold, AcceptedLog, ConfigOf;
    var blocks := Slice(if s == 0 then server.main else server.broadcasts, start, count);
    if s == 0 {
      SliceIsFromLog(server, start, count);
    }
    Deliver(x, m, server, s, start, blocks, false);
  }

  /** A request that came to its end. */
  method Finish(x: S.Session, m: Client, ghost server: Server, s: int)
    requires AcceptedLog(m, server.main) && Runs.KeyedFrom(m, server.main, server.first)
    requires Served(x, m, server) && S.IsSubChain(s)
    modifies x
    ensures Served(x, m, server) && x.Shaped()
    ensures x.chain.Some? == old(x.chain).Some? && old(x.subs)[s].height <= x.subs[s].height
    ensures x.chain.Some? ==> x.Rescheduled(s, false, old(x.requests))
  {
    hide Explains, ChainFollows, Sourced, Ordered, TimersMatch, Contiguous, Folds, Fold, AcceptedLog, ConfigOf, Drain, Above;
    x.SettledElsewhere(0);
    x.FinishSubchainRequest(s);
    Runs.NeverFailsOnAnAcceptedLog(x, m, server.main, server.first);
    x.SettledElsewhere(0);
  }

  method Wait(x: S.Session, m: Client, ghost server: Server, s: int, generation: int)
    requires AcceptedLog(m, server.main) && Runs.KeyedFrom(m, server.main, server.first)
    requires Served(x, m, server) && S.IsSubChain(s)
    modifies x
    ensures Served(x, m, server) && x.Shaped()
    ensures x.chain.Some? == old(x.chain).Some? && old(x.subs)[s].height <= x.subs[s].height
    ensures x.chain.Some? && !old(x.subs)[s].shortPolling && generation == old(x.subs)[s].waitingGeneration ==>
              x.Rescheduled(s, true, old(x.requests))
  {
    hide Explains, ChainFollows, Sourced, Ordered, TimersMatch, Contiguous, Folds, Fold, AcceptedLog, ConfigOf, Drain, Above;
    x.SettledElsewhere(0);
    x.WaitingTimerFires(s, generation);
    Runs.NeverFailsOnAnAcceptedLog(x, m, server.main, server.first);
    x.SettledElsewhere(0);
  }

  method Poll(x: S.Session, m: Client, ghost server: Server, s: int, generation: int)
    requires AcceptedLog(m, server.main) && Runs.KeyedFrom(m, server.main, server.first)
    requires Served(x, m, server) && S.IsSubChain(s)
    modifies x
    ensures Served(x, m, server)
    ensures x.chain == old(x.chain) && x.subs[s].height == old(x.subs)[s].height
    ensures s == 0 && generation == old(x.subs)[0].shortPollGeneration ==>
              x.requests == old(x.requests) + [(0, x.subs[0].height)]
  {
    hide Explains, ChainFollows, Sourced, Ordered, TimersMatch, Contiguous, Folds, Fold, AcceptedLog, ConfigOf, Drain, Above;
    x.SettledElsewhere(0);
    x.PollTimerFires(s, generation);
    Runs.NeverFailsOnAnAcceptedLog(x, m, server.main, server.first);
    x.SettledElsewhere(0);
  }

  /**
   * However pushes, answers to requests, and timers interleave: a session whose poll replies answer its own requests
   * out of an accepted log never fails, and holds the chain of the log at its height.
   */
  method Serve(m: Client, server: Server, happenings: seq<Happening>) returns (x: S.Session)
    requires AcceptedLog(m, server.main) && Runs.KeyedFrom(m, server.main, server.first)
    requires forall h :: h in happenings ==> Proper(server, h)
    ensures fresh(x) && Served(x, m, server)
    ensures x.chain.Some? ==>
              && 0 <= x.subs[0].height <= |server.main|
              && x.chain == ChainAt(m, server.main, x.subs[0].height)
  {
    hide AcceptedLog, ChainAt;
    x := new S.Session(ConfigOf(m));
    for i := 0 to |happenings|
      invariant fresh(x) && Served(x, m, server)
    {
      var h := happenings[i];
      assert h in happenings;
      match h
      case Pushed(s, start, count) => Push(x, m, server, s, start, count);
      case Answered(k, count) =>
        if k < |x.requests| {
          Answer(x, m, server, k, count);
        }
      case RequestFinished(s) => Finish(x, m, server, s);
      case WaitingTimer(s, generation) => Wait(x, m, server, s, generation);
      case PollTimer(s, generation) => Poll(x, m, server, s, generation);
    }
    Runs.HoldsTheChainOfTheLog(x, m, server.main);
  }

  // ---------------------------------------------------------------- catching up

  /** One answer with the rest of the log, to any request for main blocks ever made, brings a session up to date. */
  method AnswerWithTheRest(x: S.Session, m: Client, server: Server, k: nat)
    requires AcceptedLog(m, server.main) && Runs.KeyedFrom(m, server.main, server.first)
    requires Served(x, m, server) && k < |x.requests| && x.requests[k].0 == 0 && server.first < |server.main|
    modifies x
    ensures Served(x, m, server)
    ensures x.subs[0].height == |server.main| && x.chain == ChainAt(m, server.main, |server.main|)
  {
    hide AcceptedLog, ChainAt;
    Answer(x, m, server, k, |server.main|);
    Runs.HoldsTheChainOfTheLog(x, m, server.main);
  }

  /** With a chain, the events that are due lead to a request at the height: the end of a request, then posted timers. */
  method Ask(x: S.Session, m: Client, ghost server: Server)
    requires AcceptedLog(m, server.main) && Runs.KeyedFrom(m, server.main, server.first)
    requires Served(x, m, server) && x.chain.Some?
    modifies x
    ensures Served(x, m, server) && x.chain.Some? && old(x.subs)[0].height <= x.subs[0].height
    ensures x.requests != [] && x.requests[|x.requests| - 1] == (0, x.subs[0].height)
  {
    hide AcceptedLog, ChainAt, ChainFollows, Explains, Sourced, Ordered, Contiguous, TimersMatch, Fold, ConfigOf, AskedWithin;
    Runs.NeverStalls(x, 0);
    if x.subs[0].shortPolling {
      Finish(x, m, server, 0);
      Runs.NeverStalls(x, 0);
    }
    var asked := |x.requests|;
    if x.subs[0].waitingActive {
      assert x.subs[0].waitingGeneration in x.waitingTimers[0];
      Wait(x, m, server, 0, x.subs[0].waitingGeneration);
    }
    if |x.requests| == asked {
      assert x.subs[0].shortPollGeneration in x.pollTimers[0];
      Poll(x, m, server, 0, x.subs[0].shortPollGeneration);
    }
  }

  /** One request and its answer bring a session with a chain forward. */
  method Round(x: S.Session, m: Client, server: Server, count: nat)
    requires AcceptedLog(m, server.main) && Runs.KeyedFrom(m, server.main, server.first)
    requires Served(x, m, server) && x.chain.Some? && x.subs[0].height < |server.main| && 0 < count
    modifies x
    ensures Served(x, m, server) && x.chain.Some? && old(x.subs)[0].height < x.subs[0].height <= |server.main|
  {
    hide AcceptedLog, ChainAt, ChainFollows, Explains, Contiguous, Fold, Sourced, Ordered, TimersMatch;
    ChainMeansStarted(x, server.first);
    Ask(x, m, server);
    Answer(x, m, server, |x.requests| - 1, count);
    Runs.HoldsTheChainOfTheLog(x, m, server.main);
  }

  /** However few blocks each answer brings, polling goes on until a session with a chain holds the whole log. */
  method CatchUp(x: S.Session, m: Client, server: Server, count: nat)
    requires AcceptedLog(m, server.main) && Runs.KeyedFrom(m, server.main, server.first)
    requires Served(x, m, server) && x.chain.Some? && 0 < count
    modifies x
    ensures Served(x, m, server)
    ensures x.subs[0].height == |server.main| && x.chain == ChainAt(m, server.main, |server.main|)
  {
    hide AcceptedLog, ChainAt;
    Runs.HoldsTheChainOfTheLog(x, m, server.main);
    while x.subs[0].height < |server.main|
      invariant Served(x, m, server) && x.chain.Some? && x.subs[0].height <= |server.main|
      decreases |server.main| - x.subs[0].height
    {
      Round(x, m, server, count);
    }
    Runs.HoldsTheChainOfTheLog(x, m, server.main);
  }
}
