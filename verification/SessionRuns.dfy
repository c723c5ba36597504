/** Whole runs of a session: any deliveries, overlapping or repeated, and timers in any order. */
module SessionRuns {
  import opened Common
  import opened SessionSpec
  import S = Session
  import C = ChainSpec

  datatype Event =
    | Delivery(s: int, nextOffset: int, blocks: seq<Binary>, polled: bool)
    | RequestFinished(s: int)
    | WaitingTimer(s: int, generation: int)
    | PollTimer(s: int, generation: int)

  /** The poll generation of a session that has just asked for the first time. */
  const FIRST_POLL := 1

  predicate OnSubChains(events: seq<Event>) {
    forall e :: e in events ==> S.IsSubChain(e.s)
  }

  /** Everything a run hands to a subchain. */
  function HandedIn(events: seq<Event>, s: int): set<Entry> {
    if events == [] then {}
    else
      var last := events[|events| - 1];
      HandedIn(events[..|events| - 1], s)
      + if last.Delivery? && last.s == s then Offered(last.nextOffset - |last.blocks|, last.blocks) else {}
  }

  /** Every main delivery is a slice of one server log, from some index on. */
  predicate Slices(events: seq<Event>, canon: seq<Binary>, first: nat) {
    forall e :: e in events && e.Delivery? && e.s == 0 ==>
      first + |e.blocks| <= e.nextOffset <= |canon| && e.blocks == canon[e.nextOffset - |e.blocks|..e.nextOffset]
  }

  predicate StartsAt(es: set<Entry>, first: int) {
    forall e :: e in es ==> first <= e.index
  }

  lemma {:induction false} SlicesComeFromTheLog(events: seq<Event>, canon: seq<Binary>, first: nat)
    requires Slices(events, canon, first)
    ensures FromLog(HandedIn(events, 0), canon) && StartsAt(HandedIn(events, 0), first)
  {
    if events != [] {
      var front, last := events[..|events| - 1], events[|events| - 1];
      assert forall e :: e in front ==> e in events;
      SlicesComeFromTheLog(front, canon, first);
      if last.Delivery? && last.s == 0 {
        assert last in events;
        var index := last.nextOffset - |last.blocks|;
        forall e | e in Offered(index, last.blocks) ensures first <= e.index < |canon| && canon[e.index] == e.block {
          assert last.blocks[e.index - index] == e.block;
        }
      }
    }
  }

  /** The event makes a session with a chain look at what waits on the broadcast subchain y. */
  predicate LooksAtBroadcasts(e: Event, y: SubChain) {
    match e
    case Delivery(s, _, _, _) => s == 1 && !y.shortPolling
    case RequestFinished(s) => s == 1
    case WaitingTimer(s, generation) => s == 1 && !y.shortPolling && generation == y.waitingGeneration
    case PollTimer(_, _) => false
  }

  /** Any event; the broadcasts the chain found are noted as it arrives, until they are first looked at. */
  method Step(x: S.Session, e: Event)
    requires x.Valid() && S.IsSubChain(e.s)
    modifies x
    ensures x.Valid()
    ensures |x.delivered| == 2 && |old(x.delivered)| == 2
    ensures forall s :: 0 <= s < 2 ==>
              x.delivered[s] == old(x.delivered)[s] + if e.Delivery? && e.s == s then Offered(e.nextOffset - |e.blocks|, e.blocks) else {}
    ensures old(x.failed) ==> x.failed
    ensures x.regular ==> old(x.regular)
    ensures |x.subs| == 2 && |old(x.subs)| == 2
    ensures S.Session.OnlyRepolled(x.subs[1 - e.s], old(x.subs)[1 - e.s])
    ensures old(x.chain).Some? ==> x.failed || x.chain.Some?
    ensures !x.failed ==>
              x.unseen == if old(x.chain).None? && x.chain.Some? then Some(old(x.subs)[1])
                          else if old(x.chain).Some? && LooksAtBroadcasts(e, old(x.subs)[1]) then None
                          else old(x.unseen)
    ensures |x.pollTimers| == 2 && |old(x.pollTimers)| == 2
    ensures !x.failed && x.chain.None? && !(e.PollTimer? && e.s == 0 && e.generation == old(x.subs)[0].shortPollGeneration) ==>
              && x.requests == old(x.requests)
              && NotRepolled(old(x.subs)[0], old(x.pollTimers)[0], x.subs[0], x.pollTimers[0])
    ensures e.Delivery? || e.RequestFinished? ==> x.requests == old(x.requests)
    ensures !x.failed ==> Onward(old(x.subs)[0], x.subs[0]) && Onward(old(x.subs)[1], x.subs[1])
    ensures !x.failed && e.Delivery? ==> Accounted(Offered(e.nextOffset - |e.blocks|, e.blocks), x.subs[e.s])
  {
    hide NotRepolled, Delivers, Attempts, Explains, ChainFollows, Sourced, Ordered, TimersMatch, Contiguous, Folds, Drain, Above;
    hide Onward, Accounted, Offered;
    x.SettledElsewhere(0);
    ghost var y, before, had := x.subs[e.s], x.log[e.s], x.chain.Some?;
    match e {
      case Delivery(s, nextOffset, blocks, polled) =>
        x.ApplyBlocks(s, nextOffset, blocks, polled);
        if !x.failed {
          DeliveryKeeps(s, nextOffset, blocks, polled, had, y, before, x.subs[s], x.log[s]);
        }
      case RequestFinished(s) => x.FinishSubchainRequest(s);
      case WaitingTimer(s, generation) => x.WaitingTimerFires(s, generation);
      case PollTimer(s, generation) => x.PollTimerFires(s, generation);
    }
    x.SettledElsewhere(0);
    NothingHappened(old(x.subs)[1 - e.s], x.subs[1 - e.s]);
    if !e.Delivery? && !x.failed {
      TickKeeps(y, x.subs[e.s]);
    }
  }

  lemma TickKeeps(x: SubChain, y: SubChain)
    requires || (x.height == y.height && x.waiting == y.waiting)
             || (y.height == x.height + |Drain(x.waiting, x.height)| && y.waiting == Above(x.waiting, y.height))
    ensures Onward(x, y)
  {
    if x.height == y.height && x.waiting == y.waiting {
      NothingHappened(x, y);
    } else {
      DrainKeeps(x, y);
    }
  }

  /** What is in order, at most once, and accounted for in any session that has not failed, however it was fed. */
  lemma AppliedInOrderOnce(x: S.Session, s: int)
    requires x.Valid() && S.IsSubChain(s) && !x.failed
    ensures forall i, j :: 0 <= i < j < |x.log[s]| ==> x.log[s][i].index < x.log[s][j].index
    ensures forall i :: 0 <= i < |x.log[s]| ==> x.log[s][i].index < x.subs[s].height && x.log[s][i] in x.delivered[s]
    ensures x.regular && x.log[0] != [] ==>
              forall i :: 0 <= i < |x.log[0]| ==> x.log[0][i].index == x.subs[0].height - |x.log[0]| + i
    ensures x.chain.Some? && !x.subs[s].shortPolling && (s == 0 || x.unseen.None?) ==>
              forall k :: k in x.subs[s].waiting ==> x.subs[s].height < k
  {
    hide ChainFollows, Explains, TimersMatch;
    if x.regular {
      ContiguousMeansEveryIndex(x.log[0], x.subs[0].height);
    }
  }

  /**
   * With a chain and no poll under way something overdue is left waiting exactly on the broadcast subchain, if the
   * chain found something overdue there and it has not been looked at since; then its waiting timer is running.
   */
  lemma OverdueExactly(x: S.Session, s: int)
    requires x.Valid() && S.IsSubChain(s) && !x.failed
    requires x.chain.Some? && !x.subs[s].shortPolling
    ensures Overdue(x.subs[s]) <==> s == 1 && x.unseen.Some? && Overdue(x.unseen.value)
    ensures Overdue(x.subs[s]) ==> x.subs[s].waitingActive && x.subs[s].waitingGeneration in x.waitingTimers[s]
  {
    hide ChainFollows, Explains, Contiguous, Ordered, Sourced;
  }

  /**
   * Whatever happens on the main subchain of a session without a chain, by the time it has one: no broadcast poll is
   * under way, and a broadcast is overdue exactly if one was at or below the height before.
   */
  method MainEventsLeaveBroadcasts(x: S.Session, events: seq<Event>)
    requires x.Valid() && !x.failed && x.chain.None? && |x.subs| == 2
    requires forall e :: e in events ==> e.s == 0
    modifies x
    ensures x.Valid() && |x.subs| == 2
    ensures !x.failed && x.chain.Some? ==>
              !x.subs[1].shortPolling && (Overdue(x.subs[1]) <==> Overdue(old(x.subs)[1]))
  {
    NoEarlyPoll(x);
    for i := 0 to |events|
      invariant x.Valid() && |x.subs| == 2
      invariant S.Session.OnlyRepolled(x.subs[1], old(x.subs)[1])
    {
      assert events[i] in events;
      Step(x, events[i]);
    }
  }

  lemma NoEarlyPoll(x: S.Session)
    requires x.Valid() && x.chain.None? && |x.subs| == 2
    ensures !x.subs[1].shortPolling
  {
  }

  /** Such a session: the broadcast comes first, then the main block, and the broadcast is left waiting at its height. */
  method EarlyBroadcastIsOverdue(cfg: Config, main: Binary, broadcast: Binary) returns (x: S.Session)
    requires StepSucceeds(cfg, None, main)
    ensures fresh(x) && x.Valid() && x.cfg == cfg && |x.subs| == |x.log| == 2
    ensures !x.failed && x.chain.Some? && !x.subs[1].shortPolling && x.log[1] == []
    ensures x.subs[1].height == 0 && x.subs[1].waiting == map[0 := broadcast]
    ensures Overdue(x.subs[1])
  {
    hide Attempts, Delivers, Contiguous, Offered, Explains, ChainFollows, Fold, Folds, Sourced, Ordered, TimersMatch, StepSucceeds;
    x := new S.Session(cfg);
    x.ApplyBlocks(1, 1, [broadcast], false);
    x.SettledElsewhere(0);
    BroadcastIsHeldBack(broadcast, x.subs[1], x.log[1]);
    OnePushed(false, x.subs[0], 0, main);
    x.ApplyBlocks(0, 1, [main], false);
    x.SettledElsewhere(0);
    FirstFolds(cfg, main);
    assert 0 in x.subs[1].waiting;
  }

  lemma BroadcastIsHeldBack(broadcast: Binary, y: SubChain, log: seq<Entry>)
    ensures Delivers(1, 1, [broadcast], false, false, NEW_SUBCHAIN, [], y, log) ==>
              log == [] && y.height == 0 && y.waiting == map[0 := broadcast]
  {
    assert [broadcast][..0] == [] && Buffered(map[], 0, []) == map[];
  }

  lemma FirstFolds(cfg: Config, main: Binary)
    requires StepSucceeds(cfg, None, main)
    ensures Folds(cfg, [] + [Entry(0, main)])
  {
    FoldSnoc(cfg, [], Entry(0, main));
  }

  /** Its timer then applies it. */
  method TimerAppliesOverdue(x: S.Session, broadcast: Binary)
    requires x.Valid() && |x.subs| == |x.log| == 2 && !x.failed && x.chain.Some? && !x.subs[1].shortPolling
    requires x.subs[1].height == 0 && x.subs[1].waiting == map[0 := broadcast]
    modifies x
    ensures x.Valid() && |x.subs| == |x.log| == 2 && !x.failed
    ensures x.log[1] == old(x.log)[1] + [Entry(0, broadcast)] && x.subs[1].waiting == map[]
  {
    hide Drain, Above, Explains, ChainFollows, Fold, Folds, Sourced, Ordered, TimersMatch, Contiguous;
    OneLeft(0, broadcast);
    x.WaitingTimerFires(1, x.subs[1].waitingGeneration);
    x.SettledElsewhere(0);
  }

  lemma OneLeft(k: int, block: Binary)
    ensures Drain(map[k := block], k) == [Entry(k, block)] && Above(map[k := block], k + 1) == map[]
  {
    assert Drain(map[k := block] - {k}, k + 1) == [];
  }

  /**
   * With a chain, or once started, a subchain is never left without something that wakes it, and it waits exactly
   * while a posted timer is current.
   */
  lemma NeverStalls(x: S.Session, s: int)
    requires x.Valid() && S.IsSubChain(s) && !x.failed
    ensures x.subs[s].waitingActive <==> x.subs[s].waitingGeneration in x.waitingTimers[s]
    ensures !(x.subs[s].waitingGeneration in x.waitingTimers[s] && x.subs[s].shortPollGeneration in x.pollTimers[s])
    ensures x.started[s] || x.chain.Some? ==>
              || x.subs[s].shortPolling
              || x.subs[s].waitingGeneration in x.waitingTimers[s]
              || x.subs[s].shortPollGeneration in x.pollTimers[s]
  {
  }

  /** From some block of the log on, the member finds itself and its key in the chain. */
  ghost predicate KeyedFrom(m: Client, canon: seq<Binary>, first: int)
    requires AcceptedLog(m, canon)
  {
    forall n :: 0 <= n <= |canon| && first < n && ChainAt(m, canon, n).Some? ==> Keyed(m, ChainAt(m, canon, n).value)
  }

  /** With admissible deliveries out of an accepted log no session fails: each block it tries is the one the log has there. */
  lemma NeverFailsOnAnAcceptedLog(x: S.Session, m: Client, canon: seq<Binary>, first: int)
    requires x.Valid() && x.cfg == ConfigOf(m) && x.regular
    requires AcceptedLog(m, canon) && KeyedFrom(m, canon, first)
    requires FromLog(x.delivered[0], canon) && StartsAt(x.delivered[0], first)
    ensures !x.failed
  {
    match x.cause
    case Healthy =>
    case EarlyBroadcast => assert false;
    case BadBlock(applied, offered) => {
      BlameIsMisplaced(x.cause, x.delivered[0], m, canon, first);
    }
  }

  lemma BlameIsMisplaced(cause: Cause, delivered: set<Entry>, m: Client, canon: seq<Binary>, first: int)
    requires cause.BadBlock? && AcceptedLog(m, canon) && KeyedFrom(m, canon, first)
    requires FromLog(delivered, canon) && StartsAt(delivered, first)
    ensures !Explains(ConfigOf(m), cause, delivered, true)
  {
    hide AcceptedLog, ChainAt, NextChain, Keyed, Fold;
    if Explains(ConfigOf(m), cause, delivered, true) {
      var es := cause.applied + [cause.offered];
      assert es[0] in cause.applied || es[0] == cause.offered;
      InLineIsAccepted(cause.applied, cause.offered, m, canon, first);
    }
  }

  /** The entry next in line after what was applied out of an accepted log is accepted. */
  lemma InLineIsAccepted(applied: seq<Entry>, offered: Entry, m: Client, canon: seq<Binary>, first: int)
    requires AcceptedLog(m, canon) && KeyedFrom(m, canon, first)
    requires Consecutive(applied + [offered]) && FromLog(Elements(applied + [offered]), canon)
    requires first <= (applied + [offered])[0].index
    requires applied != [] ==> Fold(ConfigOf(m), applied).Some?
    ensures StepSucceeds(ConfigOf(m), Fold(ConfigOf(m), applied), offered.block)
  {
    hide AcceptedLog, ChainAt, NextChain, Keyed;
    var es := applied + [offered];
    StepIsReplay(m, canon, es);
    if applied != [] {
      assert es[..|applied|] == applied;
      FrontOf(es, canon);
      FoldIsReplay(m, canon, applied);
    }
  }

  /** A session that has not failed holds the chain of the log at its height, whatever block it joined with. */
  lemma HoldsTheChainOfTheLog(x: S.Session, m: Client, canon: seq<Binary>)
    requires x.Valid() && x.cfg == ConfigOf(m) && x.regular && !x.failed
    requires AcceptedLog(m, canon) && FromLog(x.delivered[0], canon)
    ensures x.chain.Some? ==> 0 <= x.subs[0].height <= |canon| && x.chain == ChainAt(m, canon, x.subs[0].height)
    ensures x.chain.Some? <==> x.log[0] != []
  {
    hide AcceptedLog, ChainAt, NextChain, Keyed, Fold;
    if x.chain.Some? {
      ContiguousMeansEveryIndex(x.log[0], x.subs[0].height);
      assert forall e :: e in Elements(x.log[0]) ==> e in x.delivered[0];
      FoldIsReplay(m, canon, x.log[0]);
    }
  }

  /** Two sessions fed out of one log, in whatever order, from whatever first block, agree at equal height. */
  lemma SameHeightSameChain(x: S.Session, y: S.Session, m: Client, n: Client, canon: seq<Binary>)
    requires m.env == n.env && m.parse == n.parse
    requires x.Valid() && x.cfg == ConfigOf(m) && x.regular && !x.failed && FromLog(x.delivered[0], canon)
    requires y.Valid() && y.cfg == ConfigOf(n) && y.regular && !y.failed && FromLog(y.delivered[0], canon)
    requires AcceptedLog(m, canon)
    requires x.chain.Some? && y.chain.Some? && x.subs[0].height == y.subs[0].height
    ensures x.chain == y.chain
  {
    HoldsTheChainOfTheLog(x, m, canon);
    assert ParseAll(m, canon) == ParseAll(n, canon);
    HoldsTheChainOfTheLog(y, n, canon);
  }

  /** Any run from the start keeps the invariant, and unless it fails, everything handed in is below the height or waits. */
  method Feed(cfg: Config, events: seq<Event>) returns (x: S.Session)
    requires OnSubChains(events)
    ensures fresh(x) && x.Valid() && x.cfg == cfg
    ensures x.delivered == [HandedIn(events, 0), HandedIn(events, 1)] && |x.subs| == 2
    ensures !x.failed ==> Accounted(HandedIn(events, 0), x.subs[0]) && Accounted(HandedIn(events, 1), x.subs[1])
  {
    hide Offered, NotRepolled, LooksAtBroadcasts, Explains, ChainFollows, Sourced, Contiguous, Onward, Accounted;
    x := new S.Session(cfg);
    NothingToAccountFor();
    for i := 0 to |events|
      invariant fresh(x) && x.Valid() && x.cfg == cfg
      invariant |x.delivered| == 2 && |x.subs| == 2
      invariant x.delivered[0] == HandedIn(events[..i], 0) && x.delivered[1] == HandedIn(events[..i], 1)
      invariant !x.failed ==> Accounted(x.delivered[0], x.subs[0]) && Accounted(x.delivered[1], x.subs[1])
    {
      assert events[..i + 1][..i] == events[..i];
      ghost var subs, delivered := x.subs, x.delivered;
      Step(x, events[i]);
      if !x.failed {
        MoreAccounted(events[i], 0, delivered[0], x.delivered[0], subs[0], x.subs[0]);
        MoreAccounted(events[i], 1, delivered[1], x.delivered[1], subs[1], x.subs[1]);
      }
    }
    assert events[..|events|] == events;
  }

  /** On slices of an accepted log a run of admissible deliveries ends with the chain of that log. */
  method Run(m: Client, events: seq<Event>, ghost canon: seq<Binary>, ghost first: nat) returns (x: S.Session)
    requires OnSubChains(events)
    ensures fresh(x) && x.Valid() && x.cfg == ConfigOf(m)
    ensures x.delivered == [HandedIn(events, 0), HandedIn(events, 1)] && |x.subs| == 2
    ensures !x.failed ==> Accounted(HandedIn(events, 0), x.subs[0]) && Accounted(HandedIn(events, 1), x.subs[1])
    ensures x.regular && AcceptedLog(m, canon) && KeyedFrom(m, canon, first) && Slices(events, canon, first) ==>
              && !x.failed
              && (x.chain.Some? ==> 0 <= x.subs[0].height <= |canon| && x.chain == ChainAt(m, canon, x.subs[0].height))
  {
    hide AcceptedLog, KeyedFrom, ChainAt, Offered, Explains, ChainFollows, Sourced, Contiguous, Accounted;
    x := Feed(ConfigOf(m), events);
    if x.regular && AcceptedLog(m, canon) && KeyedFrom(m, canon, first) && Slices(events, canon, first) {
      SlicesComeFromTheLog(events, canon, first);
      NeverFailsOnAnAcceptedLog(x, m, canon, first);
      HoldsTheChainOfTheLog(x, m, canon);
    }
  }

  lemma NothingToAccountFor()
    ensures Accounted({}, NEW_SUBCHAIN)
  {
  }

  lemma MoreAccounted(e: Event, s: int, before: set<Entry>, after: set<Entry>, x: SubChain, y: SubChain)
    requires Accounted(before, x) && Onward(x, y)
    requires after == before + if e.Delivery? && e.s == s then Offered(e.nextOffset - |e.blocks|, e.blocks) else {}
    requires e.Delivery? && e.s == s ==> Accounted(Offered(e.nextOffset - |e.blocks|, e.blocks), y)
    ensures Accounted(after, y)
  {
    StillAccounted(before, x, y);
  }

  /**
   * Where all handed in is accounted for, every main block from the first applied on is applied or waits, if each
   * delivery was admissible.
   */
  lemma NothingIsLost(x: S.Session, e: Entry)
    requires x.Valid() && !x.failed && x.regular && |x.subs| == 2
    requires Accounted(x.delivered[0], x.subs[0]) && e in x.delivered[0]
    requires x.log[0] != [] && x.log[0][0].index <= e.index
    ensures (exists i :: 0 <= i < |x.log[0]| && x.log[0][i].index == e.index) || e.index in x.subs[0].waiting
  {
    hide ChainFollows, Explains, TimersMatch;
    ContiguousMeansEveryIndex(x.log[0], x.subs[0].height);
    if e.index < x.subs[0].height {
      assert x.log[0][e.index - x.log[0][0].index].index == e.index;
    }
  }

  // ---------------------------------------------------------------- a poll reply meets what waits

  /**
   * A session with a poll under way is pushed the block after the next; the reply brings the next one, and the end of
   * the request applies both.
   */
  method ReplyMeetsWhatWaits(x: S.Session, next: Binary, after: Binary)
    requires x.Valid() && !x.failed && x.chain.Some? && |x.subs| == |x.log| == 2
    requires x.subs[0].shortPolling && x.subs[0].waiting == map[]
    requires Folds(x.cfg, x.log[0] + [Entry(x.subs[0].height, next), Entry(x.subs[0].height + 1, after)])
    modifies x
    ensures x.Valid() && !x.failed && |x.subs| == |x.log| == 2
    ensures x.log[0] == old(x.log)[0] + [Entry(old(x.subs)[0].height, next), Entry(old(x.subs)[0].height + 1, after)]
    ensures x.subs[0].height == old(x.subs)[0].height + 2 && x.subs[0].waiting == map[]
  {
    hide Attempts, Delivers, Explains, ChainFollows, Fold, Folds, Sourced, Ordered, TimersMatch, Contiguous, Offered, Drain, Above;
    var h := x.subs[0].height;
    ghost var y, log, cfg := x.subs[0], x.log[0], x.cfg;
    ghost var e, f := Entry(h, next), Entry(h + 1, after);
    FoldsUpTo(cfg, log, e, f);
    x.SettledElsewhere(0);
    PushedBeyond(y, after);
    x.ApplyBlocks(0, h + 2, [after], false);
    x.SettledElsewhere(0);
    PushedBeyondDelivers(y, after, log, x.subs[0], x.log[0]);
    ghost var z := x.subs[0];
    BroughtByReply(z, next);
    x.ApplyBlocks(0, h + 1, [next], true);
    x.SettledElsewhere(0);
    BroughtByReplyDelivers(z, next, after, log, x.subs[0], x.log[0]);
    OneLeft(h + 1, after);
    assert (log + [e]) + [f] == log + [e, f];
    x.FinishSubchainRequest(0);
    x.SettledElsewhere(0);
  }

  lemma FoldsUpTo(cfg: Config, log: seq<Entry>, e: Entry, f: Entry)
    requires Folds(cfg, log + [e, f])
    ensures Folds(cfg, log + []) && Folds(cfg, log + [e])
  {
    hide Folds;
    assert (log + [e]) + [f] == log + [e, f] && log + [] == log;
    FrontFolds(cfg, log + [e], [f]);
    FrontFolds(cfg, log, [e, f]);
  }

  lemma PushedBeyond(y: SubChain, after: Binary)
    requires y.shortPolling
    ensures Attempts(0, true, y, y.height + 2, [after], false) == []
  {
  }

  lemma PushedBeyondDelivers(y: SubChain, after: Binary, log: seq<Entry>, z: SubChain, log': seq<Entry>)
    requires y.shortPolling && y.waiting == map[] && Delivers(0, y.height + 2, [after], false, true, y, log, z, log')
    ensures log' == log && z.height == y.height && z.waiting == map[y.height + 1 := after]
  {
    assert [after][..0] == [] && Buffered(map[], y.height + 1, []) == map[];
  }

  lemma BroughtByReply(z: SubChain, next: Binary)
    requires z.shortPolling
    ensures Attempts(0, true, z, z.height + 1, [next], true) == [Entry(z.height, next)]
  {
    assert [next][1..] == [];
    assert Meeting(true, z.height + 1, z.height + 1, [next][1..]) == [];
    assert Meeting(true, z.height, z.height, [next]) == [Entry(z.height, next)];
  }

  lemma BroughtByReplyDelivers(z: SubChain, next: Binary, after: Binary, log: seq<Entry>, y: SubChain, log': seq<Entry>)
    requires z.shortPolling && z.waiting == map[z.height + 1 := after]
    requires Delivers(0, z.height + 1, [next], true, true, z, log, y, log')
    ensures log' == log + [Entry(z.height, next)] && y.height == z.height + 1 && y.waiting == z.waiting
  {
    BroughtByReply(z, next);
    assert From(z.waiting, z.height + 1) == z.waiting;
  }

  // ---------------------------------------------------------------- asking without a chain

  /**
   * Until there is a chain a session asks for main blocks once, when it starts: whatever is delivered and whatever timers
   * run, none that asks again is posted.
   */
  method AsksOnceWithoutChain(cfg: Config, events: seq<Event>) returns (x: S.Session)
    requires OnSubChains(events)
    requires forall e :: e in events && e.PollTimer? && e.s == 0 ==> e.generation != FIRST_POLL
    ensures fresh(x) && x.Valid() && x.cfg == cfg && |x.pollTimers| == |x.subs| == 2
    ensures !x.failed && x.chain.None? ==>
              x.requests == [(0, 0)] && x.subs[0].shortPollGeneration == FIRST_POLL && x.pollTimers[0] == {}
  {
    hide LooksAtBroadcasts, Offered, Explains, ChainFollows, Sourced, Contiguous;
    x := new S.Session(cfg);
    x.PollTimerFires(0, NEW_SUBCHAIN.shortPollGeneration);
    x.SettledElsewhere(0);
    for i := 0 to |events|
      invariant fresh(x) && x.Valid() && x.cfg == cfg && |x.pollTimers| == |x.subs| == 2
      invariant !x.failed && x.chain.None? ==>
                  x.requests == [(0, 0)] && x.subs[0].shortPollGeneration == FIRST_POLL && x.pollTimers[0] == {}
    {
      assert events[i] in events;
      Step(x, events[i]);
    }
  }

  // ---------------------------------------------------------------- losing step

  /** An empty poll reply before the first block moves the height with nothing applied, and breaks the account. */
  method EmptyReplyLosesStep(cfg: Config, n: nat) returns (x: S.Session)
    requires n > 0
    ensures fresh(x) && x.Valid() && x.cfg == cfg && |x.delivered| == 2 && |x.log| == 2 && |x.subs| == 2
    ensures !x.failed && x.chain.None? && x.log[0] == [] && x.subs[0].height == n && !Contiguous(x.log[0], x.subs[0].height)
    ensures x.subs[0].waiting == map[] && x.delivered[0] == {}
  {
    hide Attempts, Delivers, Contiguous, Offered, Explains, ChainFollows, Fold, Sourced, Ordered, TimersMatch;
    x := new S.Session(cfg);
    assert x.log[0] + [] == x.log[0];
    EmptyReplyDoesNothing(n, x.subs[0], x.log[0]);
    x.ApplyBlocks(0, n, [], true);
    x.SettledElsewhere(0);
    EmptyReplyDoesNothing(n, x.subs[0], x.log[0]);
  }

  lemma EmptyReplyDoesNothing(n: nat, y: SubChain, log: seq<Entry>)
    requires n > 0
    ensures Attempts(0, false, NEW_SUBCHAIN, n, [], true) == []
    ensures Delivers(0, n, [], true, false, NEW_SUBCHAIN, [], y, log) ==> log == [] && y.height == n && y.waiting == map[]
    ensures !Contiguous([], n) && Offered(n, []) == {}
  {
    assert From(map[], n) == map[];
  }

  lemma NothingWaits(s: int, hadChain: bool, x: SubChain, nextOffset: int, blocks: seq<Binary>, polled: bool)
    requires x.waiting == map[] && !HeldBack(s, hadChain, x.height, nextOffset - |blocks|, polled)
    ensures AppliedAfter(s, hadChain, x, nextOffset, blocks, polled) == []
  {
    assert From(x.waiting, nextOffset) == map[];
  }

  /** A single pushed block at or below the height: the first one is applied, another one only right at the height. */
  lemma OnePushed(hadChain: bool, x: SubChain, index: int, block: Binary)
    requires x.waiting == map[] && index <= x.height
    ensures Attempts(0, hadChain, x, index + 1, [block], false)
         == if !hadChain || index == x.height then [Entry(index, block)] else []
  {
    hide AppliedAfter;
    NothingWaits(0, hadChain, x, index + 1, [block], false);
    MeetingOneMore(Config((_, _) => None, _ => false), hadChain, x.height, index, [block], []);
    assert [block][1..] == [];
  }

  lemma OnePushedDelivers(hadChain: bool, x: SubChain, index: int, block: Binary, before: seq<Entry>, y: SubChain, log: seq<Entry>)
    requires Delivers(0, index + 1, [block], false, hadChain, x, before, y, log) && x.waiting == map[] && index < x.height
    ensures y.waiting == map[] && y.height == x.height
  {
    hide AppliedAtOnce, Attempts;
    NothingWaits(0, hadChain, x, index + 1, [block], false);
    assert Above(map[], y.height) == map[];
  }

  /** A later block of an accepted log does not follow a chain that ends before the block in between. */
  lemma LaterBlockDoesNotFollow(m: Client, canon: seq<Binary>, k: nat, n: nat)
    requires AcceptedLog(m, canon) && k + 1 < n < |canon|
    ensures !Folds(ConfigOf(m), [Entry(k, canon[k])] + [Entry(n, canon[n])])
  {
    hide Fold, ChainAt, AcceptedLog, NextChain;
    var cfg, one := ConfigOf(m), [Entry(k, canon[k])];
    var two := one + [Entry(n, canon[n])];
    assert two[..1] == one;
    HeightOf(m, canon, k + 1);
    HeightOf(m, canon, n + 1);
    if Folds(cfg, two) {
      FoldMore(cfg, two);
      FoldIsReplay(m, canon, one);
      OutOfLine(m, Fold(cfg, one).value, canon[n]);
    }
  }

  lemma OutOfLine(m: Client, c: C.Chain, block: Binary)
    requires m.parse(block).Some? && m.parse(block).value.height != c.lastBlock.height + 1
    ensures NextChain(m, Some(c), block) == None
  {
  }

  lemma HeightOf(m: Client, canon: seq<Binary>, n: nat)
    requires AcceptedLog(m, canon) && 0 < n <= |canon|
    ensures ChainAt(m, canon, n).Some? && ChainAt(m, canon, n).value.lastBlock.height == n - 1
    ensures m.parse(canon[n - 1]).Some? && m.parse(canon[n - 1]).value.height == n - 1
  {
    var history := ParseAll(m, canon);
    PrefixReplays(m.env, history, n);
    C.ReplayHeight(m.env, history[..n]);
    assert history[..n][n - 1] == history[n - 1];
  }

  /**
   * What that leads to: the session still joins with a pushed block, but is stranded at the announced height, and the
   * block it then takes for the next one makes it fail, although all it was given came out of an accepted log.
   */
  method EmptyReplyStrandsTheSession(m: Client, canon: seq<Binary>, k: nat, n: nat)
    returns (x: S.Session, joined: bool, strandedAt: int)
    requires AcceptedLog(m, canon) && KeyedFrom(m, canon, k) && k + 1 < n < |canon|
    ensures joined && strandedAt == n
    ensures fresh(x) && x.Valid() && x.failed && |x.delivered| == 2 && FromLog(x.delivered[0], canon)
  {
    hide *;
    x := EmptyReplyLosesStep(ConfigOf(m), n);
    var e, f := Entry(k, canon[k]), Entry(n, canon[n]);
    assert x.log[0] + [e] == [e];
    FirstIsAccepted(m, canon, k);
    PushOne(x, k, canon[k]);
    joined, strandedAt := !x.failed, x.subs[0].height;
    LaterBlockDoesNotFollow(m, canon, k, n);
    PushOne(x, n, canon[n]);
    BothFromLog(x.delivered[0], e, f, canon);
  }

  lemma BothFromLog(delivered: set<Entry>, e: Entry, f: Entry, canon: seq<Binary>)
    requires delivered == {e, f}
    requires 0 <= e.index < |canon| && canon[e.index] == e.block && 0 <= f.index < |canon| && canon[f.index] == f.block
    ensures FromLog(delivered, canon)
  {
  }

  /** One main block is pushed to a session with nothing waiting. */
  method PushOne(x: S.Session, index: nat, block: Binary)
    requires x.Valid() && !x.failed && |x.subs| == |x.log| == |x.delivered| == 2
    requires x.subs[0].waiting == map[] && index <= x.subs[0].height
    modifies x
    ensures x.Valid() && |x.subs| == |x.log| == |x.delivered| == 2
    ensures x.delivered[0] == old(x.delivered)[0] + {Entry(index, block)}
    ensures old(x.log)[0] == [] || index == old(x.subs)[0].height ==>
              && (x.failed <==> !Folds(x.cfg, old(x.log)[0] + [Entry(index, block)]))
              && (!x.failed ==> x.log[0] == old(x.log)[0] + [Entry(index, block)])
    ensures !x.failed && index < old(x.subs)[0].height ==>
              x.subs[0].waiting == map[] && x.subs[0].height == old(x.subs)[0].height
  {
    hide Folds, Attempts, Delivers, Explains, ChainFollows, Sourced, Ordered, TimersMatch, Contiguous;
    ghost var y, before, had := x.subs[0], x.log[0], x.chain.Some?;
    x.SettledElsewhere(0);
    OnePushed(had, y, index, block);
    assert Offered(index, [block]) == {Entry(index, block)} by {
      assert [block][0] == block && Entry(index + 0, [block][0]) in Offered(index, [block]);
    }
    x.ApplyBlocks(0, index + 1, [block], false);
    x.SettledElsewhere(0);
    if !x.failed {
      DeliversIntoLog(0, index + 1, [block], false, had, y, before, x.subs[0], x.log[0]);
      if index < y.height {
        OnePushedDelivers(had, y, index, block, before, x.subs[0], x.log[0]);
      }
    }
  }

  lemma FirstIsAccepted(m: Client, canon: seq<Binary>, k: nat)
    requires AcceptedLog(m, canon) && KeyedFrom(m, canon, k) && k < |canon|
    ensures Folds(ConfigOf(m), [Entry(k, canon[k])])
  {
    var es := [Entry(k, canon[k])];
    assert [] + es == es && es[..0] == [];
    hide AcceptedLog, KeyedFrom;
    InLineIsAccepted([], Entry(k, canon[k]), m, canon, k);
  }
}
