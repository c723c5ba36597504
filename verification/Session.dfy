/** The session object: deliveries in any order become in-order application, with timers that never let it stall. */
module Session {
  import opened Common
  import opened ChainSpec
  import opened SessionSpec

  predicate IsSubChain(s: int) { 0 <= s < 2 }

  /**
   * Where a delivery may start: not before the log, a polled main block no later than the height
   * unless it carries the very first block, and no polled broadcast before there is a chain.
   */
  predicate Admissible(s: int, hasChain: bool, height: int, nextOffset: int, count: nat, polled: bool) {
    var index := nextOffset - count;
    && 0 <= index
    && (polled && s == 0 ==> index <= height || (!hasChain && count > 0))
    && (polled && s == 1 ==> hasChain || count == 0)
  }

  class Session {
    const cfg: Config

    var failed: bool
    var chain: Option<Chain>
    var subs: seq<SubChain>
    var lastBlock: Option<Binary>
    var lastBlockHeight: int

    /** The requests handed to the server, as subchain and height. */
    var requests: seq<(int, int)>

    /** Per subchain, the blocks applied so far with their indices. */
    ghost var log: seq<seq<Entry>>
    /** Per subchain, everything ever handed in. */
    ghost var delivered: seq<set<Entry>>
    /** Whether every delivery so far was admissible. */
    ghost var regular: bool
    ghost var cause: Cause
    /** Per subchain, the generations of the posted timers that have not fired. */
    ghost var waitingTimers: seq<set<int>>
    ghost var pollTimers: seq<set<int>>
    ghost var started: seq<bool>
    /** The broadcast subchain as the chain found it, until it is first looked at with that chain. */
    ghost var unseen: Option<SubChain>

    // -------------------------------------------------------------- invariant

    ghost predicate Shaped()
      reads this
    {
      |subs| == |log| == |delivered| == |waitingTimers| == |pollTimers| == |started| == 2
    }

    ghost predicate TimersOk(s: int)
      requires Shaped() && IsSubChain(s)
      reads this
    {
      TimersMatch(subs[s], waitingTimers[s], pollTimers[s])
    }

    ghost predicate Part(s: int)
      requires Shaped() && IsSubChain(s)
      reads this
    {
      && TimersOk(s)
      && Sourced(log[s], subs[s].waiting, delivered[s])
      && (s == 1 && chain.None? ==> !subs[s].shortPolling)
      && (chain.None? ==> subs[s].shortPollGeneration !in pollTimers[s])
      && (!failed ==> Ordered(log[s], subs[s].height))
    }

    ghost predicate MainOk()
      requires Shaped()
      reads this
    {
      && (!failed ==>
            && ChainFollows(cfg, chain, log[0])
            && (log[1] != [] ==> chain.Some?)
            && (chain.Some? ==> started[0] && started[1])
            && (regular ==> Contiguous(log[0], subs[0].height)))
      && (chain.None? ==> unseen.None?)
      && (failed <==> cause != Healthy)
      && Explains(cfg, cause, delivered[0], regular)
    }

    /** What holds at every step, also in the middle of an event on subchain s. */
    ghost predicate Core(s: int)
      reads this
    {
      Shaped() && IsSubChain(s) && Part(s) && Part(1 - s) && MainOk()
    }

    ghost predicate Settled(s: int)
      requires Shaped() && IsSubChain(s)
      reads this
    {
      !failed ==> (started[s] ==> Awake(subs[s], pollTimers[s])) && Drained(s, chain.Some?, unseen, subs[s])
    }

    ghost predicate Valid()
      reads this
    {
      Core(0) && Settled(0) && Settled(1)
    }

    // -------------------------------------------------------------- construction

    constructor (cfg: Config)
      ensures this.cfg == cfg && Valid() && !failed && chain.None? && regular
      ensures subs == [NEW_SUBCHAIN, NEW_SUBCHAIN] && requests == []
      ensures log == [[], []] && delivered == [{}, {}] && started == [false, false] && unseen.None?
      ensures waitingTimers == [{}, {}] && pollTimers == [{}, {}]
    {
      this.cfg := cfg;
      failed, chain := false, None;
      subs := [NEW_SUBCHAIN, NEW_SUBCHAIN];
      lastBlock, lastBlockHeight := None, 0;
      log, delivered, regular, cause := [[], []], [{}, {}], true, Healthy;
      waitingTimers, pollTimers, requests, started := [{}, {}], [{}, {}], [], [false, false];
      unseen := None;
    }

    // -------------------------------------------------------------- timers

    method ScheduleWaiting(s: int)
      requires Shaped() && IsSubChain(s) && TimersOk(s) && subs[s].shortPollGeneration !in pollTimers[s]
      modifies this`subs, this`waitingTimers
      ensures Shaped() && TimersOk(s)
      ensures waitingTimers[1 - s] == old(waitingTimers)[1 - s]
      ensures subs == old(subs)[s := old(subs)[s].(waitingGeneration := old(subs)[s].waitingGeneration + 1, waitingActive := true)]
    {
      var generation := subs[s].waitingGeneration + 1;
      subs := subs[s := subs[s].(waitingGeneration := generation, waitingActive := true)];
      waitingTimers := waitingTimers[s := waitingTimers[s] + {generation}];
    }

    method CancelWaiting(s: int)
      requires Shaped() && IsSubChain(s) && TimersOk(s)
      modifies this`subs
      ensures Shaped() && TimersOk(s)
      ensures subs == old(subs)[s := old(subs)[s].(waitingGeneration := old(subs)[s].waitingGeneration + 1, waitingActive := false)]
    {
      subs := subs[s := subs[s].(waitingGeneration := subs[s].waitingGeneration + 1, waitingActive := false)];
    }

    method CancelShortPoll(s: int)
      requires Shaped() && IsSubChain(s) && TimersOk(s)
      modifies this`subs
      ensures Shaped() && TimersOk(s) && subs[s].shortPollGeneration !in pollTimers[s]
      ensures subs == old(subs)[s := old(subs)[s].(shortPollGeneration := old(subs)[s].shortPollGeneration + 1)]
    {
      subs := subs[s := subs[s].(shortPollGeneration := subs[s].shortPollGeneration + 1)];
    }

    method ScheduleShortPoll(s: int)
      requires Shaped() && IsSubChain(s) && TimersOk(s) && !subs[s].waitingActive
      modifies this`subs, this`pollTimers
      ensures Shaped() && TimersOk(s) && Awake(subs[s], pollTimers[s])
      ensures pollTimers[1 - s] == old(pollTimers)[1 - s]
      ensures subs == old(subs)[s := old(subs)[s].(shortPollGeneration := old(subs)[s].shortPollGeneration + 1)]
    {
      var generation := subs[s].shortPollGeneration + 1;
      subs := subs[s := subs[s].(shortPollGeneration := generation)];
      pollTimers := pollTimers[s := pollTimers[s] + {generation}];
    }

    /** Two subchain records agree on everything but the generation of the poll timer and, if so stated, the height. */
    static predicate OnlyRepolled(x: SubChain, y: SubChain) {
      SameQueues(x, y) && x.height == y.height
    }

    static predicate SameQueues(x: SubChain, y: SubChain) {
      && x.waitingGeneration == y.waitingGeneration
      && x.waitingActive == y.waitingActive
      && x.waiting == y.waiting
      && x.shortPolling == y.shortPolling
    }

    /** Both subchains start polling, unless a waiting timer will see to it. */
    method PollBoth()
      requires Shaped() && TimersOk(0) && TimersOk(1)
      modifies this`subs, this`pollTimers
      ensures Shaped() && TimersOk(0) && TimersOk(1)
      ensures Awake(subs[0], pollTimers[0]) && Awake(subs[1], pollTimers[1])
      ensures OnlyRepolled(subs[0], old(subs)[0]) && OnlyRepolled(subs[1], old(subs)[1])
    {
      for i := 0 to 2
        invariant Shaped() && TimersOk(0) && TimersOk(1)
        invariant OnlyRepolled(subs[0], old(subs)[0]) && OnlyRepolled(subs[1], old(subs)[1])
        invariant 0 < i ==> Awake(subs[0], pollTimers[0])
        invariant 1 < i ==> Awake(subs[1], pollTimers[1])
      {
        if !subs[i].waitingActive {
          ScheduleShortPoll(i);
        }
      }
    }

    // -------------------------------------------------------------- applying one block

    method RaiseHeight(s: int, height: int)
      requires Shaped() && IsSubChain(s) && Core(s)
      requires s == 0 && regular && !failed ==> height <= subs[0].height
      modifies this`subs
      ensures Shaped() && Core(s) && (old(Settled(1 - s)) ==> Settled(1 - s))
      ensures subs == old(subs)[s := old(subs)[s].(height := if old(subs)[s].height < height then height else old(subs)[s].height)]
    {
      subs := subs[s := subs[s].(height := if subs[s].height < height then height else subs[s].height)];
    }

    method Refuse(e: Entry)
      requires Core(0) && e in delivered[0]
      requires chain.None? || e.index == subs[0].height
      requires !StepSucceeds(cfg, chain, e.block)
      modifies this`failed, this`chain, this`cause
      ensures Core(0) && failed
      ensures old(chain).Some? ==> chain.Some?
      ensures !old(failed) ==> !Folds(cfg, log[0] + [e])
    {
      if !failed {
        RefusedDoesNotFold(cfg, chain, log[0], e);
        RejectedIsExplained(cfg, chain, log[0], subs[0].height, e, delivered[0], regular);
        cause := BadBlock(log[0], e);
      }
      var next := cfg.next(chain, e.block);
      chain := if next.None? then chain else next;
      failed := true;
    }

    method Take(e: Entry)
      requires Core(0) && e in delivered[0] && (!failed ==> started[0] && started[1])
      requires chain.None? || e.index == subs[0].height
      requires regular && chain.None? ==> 0 <= e.index
      requires StepSucceeds(cfg, chain, e.block)
      modifies this`chain, this`subs, this`log
      ensures Core(0) && chain.Some?
      ensures !failed ==> log == old(log)[0 := old(log)[0] + [e]]
      ensures failed ==> log == old(log)
      ensures subs == old(subs)[0 := old(subs)[0].(height :=
                        if !failed && old(subs)[0].height <= e.index then e.index + 1 else old(subs)[0].height)]
    {
      if !failed {
        AppliedOneMore(cfg, chain, log[0], subs[0].height, e, regular);
        log := log[0 := log[0] + [e]];
        subs := subs[0 := subs[0].(height := if subs[0].height <= e.index then e.index + 1 else subs[0].height)];
      }
      chain := cfg.next(chain, e.block);
    }

    /** One more main block, the very first or next in line: a snapshot if there is no chain yet. */
    method ApplyMain(e: Entry)
      requires Core(0) && Settled(1) && e in delivered[0]
      requires chain.None? || e.index == subs[0].height
      requires regular && chain.None? ==> 0 <= e.index
      modifies this`failed, this`chain, this`subs, this`log, this`cause, this`unseen, this`pollTimers, this`started
      ensures Core(0) && Settled(1)
      ensures old(failed) ==> failed
      ensures old(chain).Some? ==> chain.Some?
      ensures !failed ==> log == old(log)[0 := old(log)[0] + [e]] && chain.Some?
      ensures !old(failed) && failed ==> !Folds(cfg, old(log)[0] + [e])
      ensures failed ==> log == old(log)
      ensures SameQueues(subs[0], old(subs)[0])
      ensures old(chain).Some? ==> subs[0].shortPollGeneration == old(subs)[0].shortPollGeneration
      ensures subs[0].height == if !failed && old(subs)[0].height <= e.index then e.index + 1 else old(subs)[0].height
      ensures OnlyRepolled(subs[1], old(subs)[1])
      ensures old(chain).Some? ==>
                subs[1] == old(subs)[1] && pollTimers == old(pollTimers) && started == old(started) && unseen == old(unseen)
      ensures old(chain).None? && !failed ==> unseen == Some(old(subs)[1])
      ensures old(started)[0] ==> started[0]
    {
      hide ChainFollows, Explains, Contiguous, Ordered, Sourced, StepSucceeds, TimersMatch, Awake, Folds;
      var first := chain.None?;
      if StepSucceeds(cfg, chain, e.block) {
        started := if first then [true, true] else started;
        Take(e);
        if first {
          unseen := Some(subs[1]);
          PollBoth();
        }
      } else {
        Refuse(e);
      }
    }

    /** A broadcast is handed on to the fingerprint protocol, which cannot fail the session. */
    method ApplyBroadcast(e: Entry)
      requires Core(1) && Settled(0) && e in delivered[1]
      requires chain.Some? && e.index == subs[1].height
      modifies this`subs, this`log
      ensures Core(1) && Settled(0)
      ensures log == if failed then old(log) else old(log)[1 := old(log)[1] + [e]]
      ensures subs == old(subs)[1 := old(subs)[1].(height := if failed then old(subs)[1].height else e.index + 1)]
    {
      if !failed {
        OrderedSnoc(log[1], subs[1].height, e, e.index + 1);
        log := log[1 := log[1] + [e]];
        subs := subs[1 := subs[1].(height := e.index + 1)];
      }
    }

    /** Applies the block that is next in line, or the very first one, and accounts for it. */
    method Apply(s: int, e: Entry)
      requires Core(s) && IsSubChain(s) && Settled(1 - s) && e in delivered[s]
      requires (s == 0 && chain.None?) || (chain.Some? && e.index == subs[s].height)
      requires regular && chain.None? ==> 0 <= e.index
      modifies this`failed, this`chain, this`subs, this`log, this`cause, this`unseen, this`pollTimers, this`started
      ensures Core(s) && Settled(1 - s)
      ensures old(failed) ==> failed
      ensures old(chain).Some? ==> chain.Some?
      ensures !failed ==> log[s] == old(log)[s] + [e] && log[1 - s] == old(log)[1 - s] && chain.Some?
      ensures !old(failed) && failed ==> s == 0 && !Folds(cfg, old(log)[0] + [e])
      ensures failed ==> log == old(log)
      ensures old(chain).Some? ==> subs[s].shortPollGeneration == old(subs)[s].shortPollGeneration
      ensures SameQueues(subs[s], old(subs)[s])
      ensures subs[s].height == if !failed && old(subs)[s].height <= e.index then e.index + 1 else old(subs)[s].height
      ensures OnlyRepolled(subs[1 - s], old(subs)[1 - s])
      ensures old(chain).Some? ==>
                subs[1 - s] == old(subs)[1 - s] && pollTimers == old(pollTimers) && started == old(started) && unseen == old(unseen)
      ensures old(chain).None? && !failed ==> unseen == Some(old(subs)[1])
      ensures old(started)[s] ==> started[s]
    {
      if s == 1 {
        ApplyBroadcast(e);
      } else {
        ApplyMain(e);
      }
    }

    // -------------------------------------------------------------- polling and waiting

    /** Asks the server for more from the current height on; a broadcast subchain first waits for a chain. */
    method ShortPoll(s: int)
      requires Core(s) && IsSubChain(s) && Settled(1 - s)
      modifies this`subs, this`waitingTimers, this`requests, this`started
      ensures Valid()
      ensures subs[1 - s] == old(subs)[1 - s] && started == old(started)[s := true]
      ensures subs[s].height == old(subs)[s].height && subs[s].waiting == old(subs)[s].waiting
      ensures subs[s].shortPollGeneration == old(subs)[s].shortPollGeneration + 1
      ensures subs[s].shortPollGeneration !in pollTimers[s]
      ensures if s == 1 && chain.None? then requests == old(requests) && subs[s].waitingActive
              else requests == old(requests) + [(s, subs[s].height)] && subs[s].shortPolling && !subs[s].waitingActive
    {
      hide Ordered, Sourced, ChainFollows, Contiguous, Explains;
      CancelWaiting(s);
      CancelShortPoll(s);
      started := started[s := true];
      if s == 1 && chain.None? {
        ScheduleWaiting(s);
        return;
      }
      subs := subs[s := subs[s].(shortPolling := true)];
      requests := requests + [(s, subs[s].height)];
    }

    /** The blocks this subchain can apply right now without asking anyone. */
    ghost function Ready(s: int): seq<Entry>
      requires Shaped() && IsSubChain(s)
      reads this
    {
      if chain.None? || subs[s].shortPolling then [] else Drain(subs[s].waiting, subs[s].height)
    }

    static predicate OnlyDrained(x: SubChain, y: SubChain) {
      x == y.(height := x.height, waiting := x.waiting)
    }

    /** Applies the waiting block of the next one in line, and drops it. */
    method ApplyWaiting(s: int)
      requires Core(s) && !failed && IsSubChain(s) && Settled(1 - s)
      requires chain.Some? && subs[s].height in subs[s].waiting
      modifies this`failed, this`chain, this`subs, this`log, this`cause, this`unseen, this`pollTimers, this`started
      ensures Core(s) && Settled(1 - s) && chain.Some?
      ensures subs[1 - s] == old(subs)[1 - s] && pollTimers == old(pollTimers) && started == old(started) && unseen == old(unseen)
      ensures OnlyDrained(subs[s], old(subs)[s])
      ensures failed ==>
                s == 0 && !Folds(cfg, old(log)[0] + [Entry(old(subs)[0].height, old(subs)[0].waiting[old(subs)[0].height])])
      ensures failed ==> log == old(log)
      ensures !failed ==>
                var h := old(subs)[s].height;
                && log[s] == old(log)[s] + [Entry(h, old(subs)[s].waiting[h])] && log[1 - s] == old(log)[1 - s]
                && subs[s].height == h + 1
                && subs[s].waiting == old(subs)[s].waiting - {h}
    {
      var h := subs[s].height;
      Apply(s, Entry(h, subs[s].waiting[h]));
      if !failed {
        subs := subs[s := subs[s].(waiting := subs[s].waiting - {h})];
      }
    }

    /** Drops a waiting block that was applied already. */
    method DropOldest(s: int, index: int)
      requires Core(s) && IsSubChain(s) && index in subs[s].waiting
      modifies this`subs
      ensures Shaped() && Core(s) && (old(Settled(1 - s)) ==> Settled(1 - s))
      ensures subs == old(subs)[s := old(subs)[s].(waiting := old(subs)[s].waiting - {index})]
    {
      subs := subs[s := subs[s].(waiting := subs[s].waiting - {index})];
    }

    /** One round: drops the oldest waiting block, after applying it if it is next in line. */
    method DrainStep(s: int) returns (applied: bool)
      requires Core(s) && !failed && Settled(1 - s) && chain.Some?
      requires subs[s].waiting != map[] && Min(subs[s].waiting.Keys) <= subs[s].height
      modifies this`failed, this`chain, this`subs, this`log, this`cause, this`unseen, this`pollTimers, this`started
      ensures Shaped() && Core(s) && Settled(1 - s) && chain.Some?
      ensures subs[1 - s] == old(subs)[1 - s] && pollTimers == old(pollTimers) && started == old(started) && unseen == old(unseen)
      ensures OnlyDrained(subs[s], old(subs)[s])
      ensures failed ==> applied
      ensures applied ==> Min(old(subs)[s].waiting.Keys) == old(subs)[s].height
      ensures failed ==>
                s == 0 && !Folds(cfg, old(log)[0] + [Entry(old(subs)[0].height, old(subs)[0].waiting[old(subs)[0].height])])
      ensures failed ==> log == old(log)
      ensures !failed ==>
                var h, w := old(subs)[s].height, old(subs)[s].waiting;
                && subs[s].waiting == w - {Min(w.Keys)}
                && (if applied then
                      && Min(w.Keys) == h && subs[s].height == h + 1
                      && log[s] == old(log)[s] + [Entry(h, w[h])] && log[1 - s] == old(log)[1 - s]
                    else Min(w.Keys) < h && subs[s].height == h && log == old(log))
    {
      var index := Min(subs[s].waiting.Keys);
      applied := index == subs[s].height;
      if applied {
        ApplyWaiting(s);
      } else {
        DropOldest(s, index);
      }
    }

    /** Applies waiting blocks in order up to the first gap. */
    method DrainWaiting(s: int)
      requires Shaped() && IsSubChain(s) && Core(s) && !failed && Settled(1 - s) && chain.Some?
      modifies this`failed, this`chain, this`subs, this`log, this`cause, this`unseen, this`pollTimers, this`started
      ensures Shaped() && Core(s) && Settled(1 - s) && chain.Some?
      ensures subs[1 - s] == old(subs)[1 - s] && pollTimers == old(pollTimers) && started == old(started) && unseen == old(unseen)
      ensures OnlyDrained(subs[s], old(subs)[s])
      ensures failed ==> s == 0 && !Folds(cfg, old(log)[0] + Drain(old(subs)[0].waiting, old(subs)[0].height))
      ensures !failed ==>
                var ready := Drain(old(subs)[s].waiting, old(subs)[s].height);
                && log[s] == old(log)[s] + ready && log[1 - s] == old(log)[1 - s]
                && subs[s].height == old(subs)[s].height + |ready|
                && subs[s].waiting == Above(old(subs)[s].waiting, subs[s].height)
      ensures !failed ==> forall k :: k in subs[s].waiting ==> subs[s].height < k
    {
      hide Core, Settled, Drain, Remaining, Above, Consecutive, Min, Elements, Folds;
      ghost var w, h, l := subs[s].waiting, subs[s].height, log[s];
      ghost var ready, n := Drain(w, h), 0;
      AllRemains(w, h);
      while subs[s].waiting != map[] && Min(subs[s].waiting.Keys) <= subs[s].height
        invariant Shaped() && Core(s) && !failed && Settled(1 - s) && chain.Some?
        invariant subs[1 - s] == old(subs)[1 - s] && pollTimers == old(pollTimers) && started == old(started) && unseen == old(unseen)
        invariant OnlyDrained(subs[s], old(subs)[s])
        invariant 0 <= n <= |ready|
        invariant log[s] == l + ready[..n] && log[1 - s] == old(log)[1 - s]
        invariant subs[s].height == h + n && Drain(subs[s].waiting, subs[s].height) == ready[n..]
        invariant Remaining(w, subs[s].waiting, h + n)
        decreases |subs[s].waiting|
      {
        DrainOneMore(w, subs[s].waiting, subs[s].height);
        var applied := DrainStep(s);
        if applied {
          OneMoreReady(l, ready, n);
        }
        if failed {
          NoFoldInTheMiddle(cfg, l, ready, n);
          return;
        }
        if applied {
          n := n + 1;
        }
      }
      NothingRemains(w, subs[s].waiting, h + n);
      assert ready[..n] == ready;
    }

    lemma OneMoreReady(l: seq<Entry>, ready: seq<Entry>, n: nat)
      requires n < |ready|
      ensures ready[n..][0] == ready[n] && ready[n..][1..] == ready[n + 1..]
      ensures l + ready[..n + 1] == (l + ready[..n]) + [ready[n]]
    {
    }

    /** What runs next on a drained subchain: a later poll if nothing waits, else a timer, or a poll at once if that was in vain. */
    ghost predicate Rescheduled(s: int, waited: bool, asked: seq<(int, int)>)
      requires Shaped() && IsSubChain(s)
      reads this
    {
      var x := subs[s];
      if x.waiting == map[] then !x.waitingActive && !x.shortPolling && x.shortPollGeneration in pollTimers[s] && requests == asked
      else
        && x.shortPollGeneration !in pollTimers[s]
        && (if waited then x.shortPolling && !x.waitingActive && requests == asked + [(s, x.height)]
            else x.waitingActive && !x.shortPolling && requests == asked)
    }

    /** Sets the timers after a drain: poll if waiting for a gap was in vain, else wait for it, or poll later. */
    method SetTimers(s: int, waited: bool)
      requires Core(s) && !failed && Settled(1 - s) && chain.Some? && !subs[s].shortPolling
      requires forall k :: k in subs[s].waiting ==> subs[s].height < k
      requires subs[s].shortPollGeneration !in pollTimers[s] && (s == 1 ==> unseen.None?)
      modifies this`subs, this`waitingTimers, this`pollTimers, this`requests, this`started
      ensures Shaped() && Valid()
      ensures subs[1 - s] == old(subs)[1 - s]
      ensures subs[s].height == old(subs)[s].height && subs[s].waiting == old(subs)[s].waiting
      ensures !waited ==> !subs[s].shortPolling
      ensures started == old(started)[s := true]
      ensures Rescheduled(s, waited, old(requests))
    {
      if subs[s].waiting != map[] {
        if waited {
          ShortPoll(s);
        } else {
          started := started[s := true];
          ScheduleWaiting(s);
        }
        return;
      }
      started := started[s := true];
      CancelWaiting(s);
      ScheduleShortPoll(s);
    }

    /** The part of the check for a subchain with a chain to apply to and no poll under way. */
    method DrainAndReschedule(s: int, waited: bool)
      requires Shaped() && IsSubChain(s) && Core(s) && !failed && Settled(1 - s) && chain.Some? && !subs[s].shortPolling
      modifies this`failed, this`chain, this`subs, this`log, this`cause, this`unseen
      modifies this`waitingTimers, this`pollTimers, this`requests, this`started
      ensures Shaped() && Valid() && chain.Some?
      ensures subs[1 - s] == old(subs)[1 - s]
      ensures failed ==>
                s == 0 && requests == old(requests) && !Folds(cfg, old(log)[0] + Drain(old(subs)[0].waiting, old(subs)[0].height))
      ensures !failed ==>
                var ready := Drain(old(subs)[s].waiting, old(subs)[s].height);
                && log[s] == old(log)[s] + ready && log[1 - s] == old(log)[1 - s]
                && subs[s].height == old(subs)[s].height + |ready|
                && subs[s].waiting == Above(old(subs)[s].waiting, subs[s].height)
      ensures !failed ==> started == old(started)[s := true] && Rescheduled(s, waited, old(requests))
      ensures !failed && !waited ==> !subs[s].shortPolling
      ensures unseen == if s == 1 then None else old(unseen)
    {
      hide Drain, Above, Ordered, Sourced, ChainFollows, Contiguous, Explains, TimersMatch, Consecutive, Folds, Rescheduled;
      unseen := if s == 1 then None else unseen;
      CancelShortPoll(s);
      DrainWaiting(s);
      if failed {
        FailedIsSettled(s);
        return;
      }
      SetTimers(s, waited);
    }

    method CheckWaitingBlocks(s: int, waited: bool)
      requires Core(s) && IsSubChain(s) && Settled(1 - s)
      modifies this`failed, this`chain, this`subs, this`log, this`cause, this`unseen
      modifies this`waitingTimers, this`pollTimers, this`requests, this`started
      ensures Shaped() && Valid()
      ensures old(failed) ==> failed && log == old(log)
      ensures !old(failed) && failed ==> s == 0 && old(chain).Some? && !Folds(cfg, old(log)[0] + old(Ready(s)))
      ensures subs[1 - s] == old(subs)[1 - s]
      ensures !failed ==> chain.Some? == old(chain).Some?
      ensures !failed ==>
                && log[s] == old(log)[s] + old(Ready(s)) && log[1 - s] == old(log)[1 - s]
                && subs[s].height == old(subs)[s].height + |old(Ready(s))|
                && subs[s].waiting == (if old(chain).None? || old(subs)[s].shortPolling then old(subs)[s].waiting
                                       else Above(old(subs)[s].waiting, subs[s].height))
      ensures !failed ==> started == old(started)[s := true]
      ensures !failed && chain.Some? && !old(subs)[s].shortPolling ==> Rescheduled(s, waited, old(requests))
      ensures failed || chain.None? || old(subs)[s].shortPolling ==> requests == old(requests)
      ensures !failed && chain.None? ==> subs[s].waitingActive
      ensures !failed && !waited ==> subs[s].shortPolling == old(subs)[s].shortPolling
      ensures !failed ==> unseen == UnseenAfter(s, old(chain).Some?, chain.Some?, old(unseen), old(subs)[1])
      ensures !failed && chain.None? ==> NotRepolled(old(subs)[0], old(pollTimers)[0], subs[0], pollTimers[0])
    {
      hide Drain, Above, Ordered, Sourced, ChainFollows, Contiguous, Explains, TimersMatch, Consecutive, Folds, Rescheduled;
      if failed {
        return;
      }
      started := started[s := true];
      if chain.None? {
        ScheduleWaiting(s);
        return;
      }
      if subs[s].shortPolling {
        return;
      }
      DrainAndReschedule(s, waited);
    }

    method FinishSubchainRequest(s: int)
      requires Valid() && IsSubChain(s)
      modifies this`failed, this`chain, this`subs, this`log, this`cause, this`unseen
      modifies this`waitingTimers, this`pollTimers, this`requests, this`started
      ensures Valid()
      ensures old(failed) ==> failed && log == old(log) && subs == old(subs)
      ensures !failed ==>
                var x := old(subs)[s];
                var ready := if chain.None? then [] else Drain(x.waiting, x.height);
                && log[s] == old(log)[s] + ready && log[1 - s] == old(log)[1 - s]
                && subs[s].height == x.height + |ready|
                && subs[s].waiting == (if chain.None? then x.waiting else Above(x.waiting, subs[s].height))
      ensures !old(failed) && failed ==>
                s == 0 && old(chain).Some? && !Folds(cfg, old(log)[0] + Drain(old(subs)[0].waiting, old(subs)[0].height))
      ensures subs[1 - s] == old(subs)[1 - s]
      ensures !failed && chain.Some? ==> Rescheduled(s, false, old(requests))
      ensures failed || chain.None? ==> requests == old(requests)
      ensures !failed ==> chain.Some? == old(chain).Some?
      ensures !failed ==> !subs[s].shortPolling && unseen == if s == 1 && chain.Some? then None else old(unseen)
      ensures !failed && chain.None? ==> NotRepolled(old(subs)[0], old(pollTimers)[0], subs[0], pollTimers[0])
    {
      hide Drain, Above, Folds;
      if failed {
        return;
      }
      subs := subs[s := subs[s].(shortPolling := false)];
      CheckWaitingBlocks(s, false);
    }

    /** A waiting timer runs; only the one of the current generation does anything. */
    method WaitingTimerFires(s: int, generation: int)
      requires Valid() && IsSubChain(s)
      modifies this`failed, this`chain, this`subs, this`log, this`cause, this`unseen
      modifies this`waitingTimers, this`pollTimers, this`requests, this`started
      ensures Valid()
      ensures generation != old(subs)[s].waitingGeneration ==> subs == old(subs) && log == old(log) && requests == old(requests)
      ensures old(failed) ==> failed && log == old(log) && requests == old(requests)
      ensures !old(failed) && failed ==>
                && s == 0 && old(chain).Some? && generation == old(subs)[0].waitingGeneration
                && !Folds(cfg, old(log)[0] + old(Ready(0)))
      ensures subs[1 - s] == old(subs)[1 - s]
      ensures generation == old(subs)[s].waitingGeneration && !failed ==>
                var x := old(subs)[s];
                var ready := if chain.None? || x.shortPolling then [] else Drain(x.waiting, x.height);
                && log[s] == old(log)[s] + ready && log[1 - s] == old(log)[1 - s]
                && subs[s].height == x.height + |ready|
                && (if chain.None? || x.shortPolling then subs[s].waiting == x.waiting && requests == old(requests)
                    else subs[s].waiting == Above(x.waiting, subs[s].height) && Rescheduled(s, true, old(requests)))
      ensures !failed ==> chain.Some? == old(chain).Some?
      ensures !failed ==>
                unseen == if generation != old(subs)[s].waitingGeneration then old(unseen)
                          else UnseenAfter(s, old(chain).Some?, chain.Some?, old(unseen), old(subs)[1])
      ensures !failed && chain.None? ==> NotRepolled(old(subs)[0], old(pollTimers)[0], subs[0], pollTimers[0])
    {
      waitingTimers := waitingTimers[s := waitingTimers[s] - {generation}];
      if subs[s].waitingGeneration != generation {
        return;
      }
      subs := subs[s := subs[s].(waitingActive := false)];
      CheckWaitingBlocks(s, true);
    }

    method PollTimerFires(s: int, generation: int)
      requires Valid() && IsSubChain(s)
      modifies this`subs, this`waitingTimers, this`pollTimers, this`requests, this`started
      ensures Valid()
      ensures generation != old(subs)[s].shortPollGeneration ==> subs == old(subs) && requests == old(requests)
      ensures generation == old(subs)[s].shortPollGeneration ==>
                && subs[1 - s] == old(subs)[1 - s]
                && subs[s].height == old(subs)[s].height && subs[s].waiting == old(subs)[s].waiting
                && subs[s].shortPollGeneration == generation + 1
                && (if s == 1 && chain.None? then requests == old(requests) && subs[s].waitingActive
                    else requests == old(requests) + [(s, subs[s].height)] && subs[s].shortPolling)
      ensures pollTimers == old(pollTimers)[s := old(pollTimers)[s] - {generation}]
      ensures s == 1 || generation != old(subs)[0].shortPollGeneration ==> NotRepolled(old(subs)[0], old(pollTimers)[0], subs[0], pollTimers[0])
    {
      pollTimers := pollTimers[s := pollTimers[s] - {generation}];
      if subs[s].shortPollGeneration != generation {
        return;
      }
      ShortPoll(s);
    }

    // -------------------------------------------------------------- deliveries

    method DropOlder(s: int, offset: int)
      requires Shaped() && IsSubChain(s) && Core(s)
      modifies this`subs
      ensures Shaped() && Core(s) && (old(Settled(1 - s)) ==> Settled(1 - s))
      ensures subs == old(subs)[s := old(subs)[s].(waiting := From(old(subs)[s].waiting, offset))]
      ensures subs[s].waiting == From(subs[s].waiting, offset)
    {
      hide Core, Settled;
      ghost var w := subs[s].waiting;
      while subs[s].waiting != map[] && Min(subs[s].waiting.Keys) < offset
        invariant Shaped() && Core(s) && (old(Settled(1 - s)) ==> Settled(1 - s))
        invariant subs == old(subs)[s := old(subs)[s].(waiting := subs[s].waiting)]
        invariant Remaining(w, subs[s].waiting, offset)
        decreases |subs[s].waiting|
      {
        DropOldest(s, Min(subs[s].waiting.Keys));
      }
      assert subs[s].waiting == From(w, offset);
    }

    method HoldBack(s: int, index: int, blocks: seq<Binary>)
      requires Shaped() && IsSubChain(s) && Core(s) && Offered(index, blocks) <= delivered[s]
      modifies this`subs
      ensures Shaped() && Core(s) && (old(Settled(1 - s)) ==> Settled(1 - s))
      ensures subs == old(subs)[s := old(subs)[s].(waiting := Buffered(old(subs)[s].waiting, index, blocks))]
    {
      var w := subs[s].waiting;
      for i := 0 to |blocks|
        invariant w == Buffered(subs[s].waiting, index, blocks[..i])
      {
        assert blocks[..i + 1][..i] == blocks[..i];
        if index + i !in w {
          w := w[index + i := blocks[i]];
        }
      }
      assert blocks[..|blocks|] == blocks;
      BufferedIsSourced(subs[s].waiting, index, blocks, log[s], delivered[s]);
      subs := subs[s := subs[s].(waiting := w)];
    }

    /** Applies one delivered block if it is next in line or the very first, and moves past it in any case. */
    method ApplyIfNext(s: int, e: Entry)
      requires Shaped() && Core(s) && Settled(1 - s) && e in delivered[s]
      requires IsSubChain(s) && (s == 1 ==> chain.Some? && e.index <= subs[1].height)
      requires regular ==> 0 <= e.index && (s == 0 ==> chain.None? || e.index <= subs[0].height)
      modifies this`failed, this`chain, this`subs, this`log, this`cause, this`unseen, this`pollTimers, this`started
      ensures Shaped() && Core(s) && Settled(1 - s)
      ensures old(failed) ==> failed
      ensures old(chain).Some? ==> chain.Some?
      ensures SameQueues(subs[s], old(subs)[s]) && OnlyRepolled(subs[1 - s], old(subs)[1 - s])
      ensures subs[s].height == if old(subs)[s].height <= e.index then e.index + 1 else old(subs)[s].height
      ensures !old(failed) && failed ==>
                s == 0 && (old(chain).None? || e.index == old(subs)[0].height) && !Folds(cfg, old(log)[0] + [e])
      ensures !failed ==>
                && chain.Some?
                && log[1 - s] == old(log)[1 - s]
                && log[s] == (if old(chain).None? || e.index == old(subs)[s].height then old(log)[s] + [e] else old(log)[s])
                && unseen == if old(chain).None? then Some(old(subs)[1]) else old(unseen)
    {
      hide Core, Settled, Folds;
      if chain.None? || subs[s].height == e.index {
        Apply(s, e);
      }
      RaiseHeight(s, e.index + 1);
    }

    /** Applies a delivery block by block where it meets the height, or from its start if it brings the first block. */
    method ApplyDirectly(s: int, index: int, blocks: seq<Binary>)
      requires Shaped() && Core(s) && Settled(1 - s) && !failed && Offered(index, blocks) <= delivered[s]
      requires IsSubChain(s) && (s == 1 ==> (chain.Some? || blocks == []) && index <= subs[1].height)
      requires regular ==> 0 <= index && (s == 0 ==> index <= subs[0].height || (chain.None? && blocks != []))
      requires chain.None? ==> log[0] == []
      modifies this`failed, this`chain, this`subs, this`log, this`cause, this`unseen, this`pollTimers, this`started
      ensures Shaped() && Core(s) && Settled(1 - s)
      ensures old(chain).Some? ==> chain.Some?
      ensures SameQueues(subs[s], old(subs)[s]) && OnlyRepolled(subs[1 - s], old(subs)[1 - s])
      ensures !failed ==>
                && log[1 - s] == old(log)[1 - s]
                && log[s] == old(log)[s] + Meeting(old(chain).Some?, old(subs)[s].height, index, blocks)
                && (chain.Some? <==> old(chain).Some? || blocks != [])
                && subs[s].height == (if blocks == [] || index + |blocks| < old(subs)[s].height then old(subs)[s].height
                                      else index + |blocks|)
                && unseen == (if old(chain).None? && chain.Some? then Some(old(subs)[1]) else old(unseen))
                && (chain.None? ==> NotRepolled(old(subs)[0], old(pollTimers)[0], subs[0], pollTimers[0]))
      ensures failed ==> s == 0 && !Folds(cfg, old(log)[0] + Meeting(old(chain).Some?, old(subs)[0].height, index, blocks))
    {
      hide Core, Settled, Folds, Meeting;
      ghost var hadChain, h, l := chain.Some?, subs[s].height, log[s];
      ghost var all := Meeting(hadChain, h, index, blocks);
      assert blocks[0..] == blocks;
      for i := 0 to |blocks|
        invariant Shaped() && Core(s) && Settled(1 - s)
        invariant hadChain ==> chain.Some?
        invariant i == 0 ==> chain == old(chain) && subs == old(subs) && pollTimers == old(pollTimers)
        invariant !failed ==> unseen == if old(chain).None? && i > 0 then Some(old(subs)[1]) else old(unseen)
        invariant SameQueues(subs[s], old(subs)[s]) && OnlyRepolled(subs[1 - s], old(subs)[1 - s])
        invariant subs[s].height == if i == 0 || index + i < h then h else index + i
        invariant !failed ==> log[1 - s] == old(log)[1 - s]
        invariant !failed ==> (chain.Some? <==> hadChain || i > 0)
        invariant !failed ==> log[s] + Meeting(chain.Some?, subs[s].height, index + i, blocks[i..]) == l + all
        invariant failed ==> s == 0 && !Folds(cfg, l + all)
      {
        var e := Entry(index + i, blocks[i]);
        assert e in Offered(index, blocks);
        assert blocks[i..][0] == blocks[i] && blocks[i..][1..] == blocks[i + 1..];
        MeetingOneMore(cfg, chain.Some?, subs[s].height, index + i, blocks[i..], log[s]);
        ApplyIfNext(s, e);
      }
      assert blocks[|blocks|..] == [];
      NothingMeets(chain.Some?, subs[s].height, index + |blocks|, log[s]);
    }

    /** Remembers the newest main block seen, which a later join starts from. */
    method NoteLastBlock(s: int, nextOffset: int, blocks: seq<Binary>)
      requires Valid()
      modifies this`lastBlock, this`lastBlockHeight
      ensures Valid()
      ensures if s == 0 && blocks != [] && nextOffset > old(lastBlockHeight)
              then lastBlock == Some(blocks[|blocks| - 1]) && lastBlockHeight == nextOffset
              else lastBlock == old(lastBlock) && lastBlockHeight == old(lastBlockHeight)
    {
      if s == 0 && blocks != [] && nextOffset > lastBlockHeight {
        lastBlock := Some(blocks[|blocks| - 1]);
        lastBlockHeight := nextOffset;
      }
    }

    /** Books a delivery in the ghost history. */
    ghost method Record(s: int, nextOffset: int, blocks: seq<Binary>, polled: bool)
      requires Valid() && IsSubChain(s)
      modifies this`delivered, this`regular
      ensures Valid()
      ensures delivered == old(delivered)[s := old(delivered)[s] + Offered(nextOffset - |blocks|, blocks)]
      ensures Offered(nextOffset - |blocks|, blocks) <= delivered[s]
      ensures regular == (old(regular) && Admissible(s, chain.Some?, subs[s].height, nextOffset, |blocks|, polled))
    {
      delivered := delivered[s := delivered[s] + Offered(nextOffset - |blocks|, blocks)];
      regular := regular && Admissible(s, chain.Some?, subs[s].height, nextOffset, |blocks|, polled);
    }

    /** A polled broadcast before there is a chain to check it against. */
    method RefuseEarlyBroadcast(nextOffset: int, count: nat)
      requires Core(1) && count > 0
      requires regular ==> Admissible(1, false, subs[1].height, nextOffset, count, true)
      modifies this`failed, this`cause
      ensures Valid() && failed
    {
      if !failed {
        cause := EarlyBroadcast;
      }
      failed := true;
    }

    lemma FailedIsSettled(s: int)
      requires Core(s) && failed
      ensures Valid()
    {
    }

    /** A polled broadcast delivery passes over what it does not bring. */
    method SkipMissing(s: int, index: int, polled: bool)
      requires Shaped() && IsSubChain(s) && Core(s) && Settled(1 - s)
      modifies this`subs
      ensures Shaped() && Core(s) && Settled(1 - s)
      ensures subs == old(subs)[s := old(subs)[s].(height := if polled && s == 1 && old(subs)[s].height < index then index
                                                             else old(subs)[s].height)]
    {
      if polled && s == 1 && index > subs[s].height {
        RaiseHeight(s, index);
      }
    }

    /** A delivery that does not have to wait is applied where it meets the height. */
    method TakeAtOnce(s: int, nextOffset: int, blocks: seq<Binary>, polled: bool)
      requires Shaped() && Core(s) && Settled(1 - s) && !failed && IsSubChain(s)
      requires Offered(nextOffset - |blocks|, blocks) <= delivered[s]
      requires regular ==> Admissible(s, chain.Some?, subs[s].height, nextOffset, |blocks|, polled)
      requires !HeldBack(s, chain.Some?, subs[s].height, nextOffset - |blocks|, polled)
      requires polled && s == 1 && chain.None? ==> blocks == []
      requires chain.None? <==> log[0] == []
      modifies this`failed, this`chain, this`subs, this`log, this`cause, this`unseen, this`pollTimers, this`started
      ensures Shaped() && Core(s) && Settled(1 - s)
      ensures SameQueues(subs[s], old(subs)[s]) && OnlyRepolled(subs[1 - s], old(subs)[1 - s])
      ensures !failed ==>
                var h := old(subs)[s].height;
                && log[1 - s] == old(log)[1 - s]
                && log[s] == old(log)[s] + AppliedAtOnce(s, old(chain).Some?, h, nextOffset, blocks, polled)
                && (chain.Some? <==> HasChainAfter(s, old(chain).Some?, h, nextOffset, blocks, polled))
                && subs[s].height == HeightAfter(s, old(chain).Some?, h, nextOffset, |blocks|, polled)
                && unseen == (if old(chain).None? && chain.Some? then Some(old(subs)[1]) else old(unseen))
                && (chain.None? ==> NotRepolled(old(subs)[0], old(pollTimers)[0], subs[0], pollTimers[0]))
      ensures failed ==>
                s == 0 && !Folds(cfg, old(log)[0] + AppliedAtOnce(0, old(chain).Some?, old(subs)[0].height, nextOffset, blocks, polled))
    {
      hide Core, Settled, Offered, Contiguous, Folds, Meeting, AppliedAtOnce, HasChainAfter, HeightAfter;
      NotHeldBack(s, chain.Some?, subs[s].height, nextOffset, blocks, polled);
      var index := nextOffset - |blocks|;
      SkipMissing(s, index, polled);
      ApplyDirectly(s, index, blocks);
      RaiseHeight(s, nextOffset);
    }

    /** The part of a delivery before the waiting blocks are looked at. */
    method TakeIn(s: int, nextOffset: int, blocks: seq<Binary>, polled: bool)
      requires Shaped() && Core(s) && Settled(1 - s) && !failed && IsSubChain(s)
      requires Offered(nextOffset - |blocks|, blocks) <= delivered[s]
      requires regular ==> Admissible(s, chain.Some?, subs[s].height, nextOffset, |blocks|, polled)
      requires polled && s == 1 && chain.None? ==> blocks == []
      requires chain.None? <==> log[0] == []
      modifies this`failed, this`chain, this`subs, this`log, this`cause, this`unseen, this`pollTimers, this`started
      ensures Shaped() && Core(s) && Settled(1 - s)
      ensures OnlyRepolled(subs[1 - s], old(subs)[1 - s])
      ensures !failed ==>
                var index, x, hadChain := nextOffset - |blocks|, old(subs)[s], old(chain).Some?;
                && log[1 - s] == old(log)[1 - s]
                && log[s] == old(log)[s] + AppliedAtOnce(s, hadChain, x.height, nextOffset, blocks, polled)
                && (chain.Some? <==> HasChainAfter(s, hadChain, x.height, nextOffset, blocks, polled))
                && subs[s].shortPolling == x.shortPolling
                && (s == 1 ==> chain.Some? == hadChain)
                && subs[s].height == HeightAfter(s, hadChain, x.height, nextOffset, |blocks|, polled)
                && subs[s].waiting == (if HeldBack(s, hadChain, x.height, index, polled) then Buffered(x.waiting, index, blocks)
                                       else x.waiting)
                && unseen == (if old(chain).None? && chain.Some? then Some(old(subs)[1]) else old(unseen))
                && (chain.None? ==> NotRepolled(old(subs)[0], old(pollTimers)[0], subs[0], pollTimers[0]))
      ensures failed ==>
                s == 0 && !Folds(cfg, old(log)[0] + AppliedAtOnce(0, old(chain).Some?, old(subs)[0].height, nextOffset, blocks, polled))
    {
      hide Core, Settled, Offered, Buffered, Contiguous, Folds, Meeting, Admissible;
      if !polled && (nextOffset - |blocks| > subs[s].height || (chain.None? && s == 1)) {
        HoldBack(s, nextOffset - |blocks|, blocks);
        assert log[s] + [] == log[s];
      } else {
        TakeAtOnce(s, nextOffset, blocks, polled);
      }
    }

    /** Takes a delivery in, then applies whatever waited for it. */
    method TakeInAndCheck(s: int, nextOffset: int, blocks: seq<Binary>, polled: bool)
      requires Shaped() && Core(s) && Settled(1 - s) && !failed && IsSubChain(s)
      requires Offered(nextOffset - |blocks|, blocks) <= delivered[s]
      requires regular ==> Admissible(s, chain.Some?, subs[s].height, nextOffset, |blocks|, polled)
      requires polled && s == 1 && chain.None? ==> blocks == []
      requires polled ==> subs[s].waiting == From(subs[s].waiting, nextOffset)
      requires chain.None? <==> log[0] == []
      modifies this`failed, this`chain, this`subs, this`log, this`cause, this`unseen
      modifies this`waitingTimers, this`pollTimers, this`requests, this`started
      ensures Shaped() && Valid()
      ensures requests == old(requests)
      ensures OnlyRepolled(subs[1 - s], old(subs)[1 - s])
      ensures !failed ==>
                && log[1 - s] == old(log)[1 - s]
                && Delivers(s, nextOffset, blocks, polled, old(chain).Some?, old(subs)[s], old(log)[s], subs[s], log[s])
                && (s == 1 ==> chain.Some? == old(chain).Some?)
                && (chain.Some? <==> HasChainAfter(s, old(chain).Some?, old(subs)[s].height, nextOffset, blocks, polled))
                && subs[s].shortPolling == old(subs)[s].shortPolling
                && unseen == UnseenAfter(s, old(chain).Some?, chain.Some?, old(unseen), old(subs)[1])
                && (chain.None? ==> NotRepolled(old(subs)[0], old(pollTimers)[0], subs[0], pollTimers[0]))
      ensures failed ==>
                s == 0 && !Folds(cfg, old(log)[0] + Attempts(0, old(chain).Some?, old(subs)[0], nextOffset, blocks, polled))
    {
      hide Core, Settled, Offered, Buffered, From, Drain, Above, Contiguous, Consecutive, Admissible;
      hide AppliedAtOnce, HasChainAfter, HeightAfter, Folds, Delivers, Attempts;
      TakeIn(s, nextOffset, blocks, polled);
      ghost var part := log[s];
      CheckWaitingBlocks(s, false);
      if failed {
        FailsInEitherPart(cfg, 0, nextOffset, blocks, polled, old(chain).Some?, old(subs)[0], old(log)[0]);
      } else {
        DeliversInTwo(s, nextOffset, blocks, polled, old(chain).Some?, old(subs)[s], old(log)[s], subs[s], log[s]);
      }
    }

    /** A delivery that has been booked. */
    method Deliver(s: int, nextOffset: int, blocks: seq<Binary>, polled: bool)
      requires Shaped() && Core(s) && Settled(1 - s) && IsSubChain(s)
      requires Offered(nextOffset - |blocks|, blocks) <= delivered[s]
      requires regular ==> Admissible(s, chain.Some?, subs[s].height, nextOffset, |blocks|, polled)
      requires !failed ==> (chain.None? <==> log[0] == [])
      modifies this`failed, this`chain, this`subs, this`log, this`cause, this`unseen
      modifies this`waitingTimers, this`pollTimers, this`requests, this`started
      ensures Shaped() && Valid()
      ensures old(failed) ==> failed && log == old(log)
      ensures requests == old(requests)
      ensures OnlyRepolled(subs[1 - s], old(subs)[1 - s])
      ensures !failed ==>
                && log[1 - s] == old(log)[1 - s]
                && Delivers(s, nextOffset, blocks, polled, old(chain).Some?, old(subs)[s], old(log)[s], subs[s], log[s])
                && (s == 1 ==> chain.Some? == old(chain).Some?)
                && (chain.Some? <==> HasChainAfter(s, old(chain).Some?, old(subs)[s].height, nextOffset, blocks, polled))
                && subs[s].shortPolling == old(subs)[s].shortPolling
                && unseen == UnseenAfter(s, old(chain).Some?, chain.Some?, old(unseen), old(subs)[1])
                && (chain.None? ==> NotRepolled(old(subs)[0], old(pollTimers)[0], subs[0], pollTimers[0]))
      ensures !old(failed) ==>
                (failed <==> Refused(s, polled && blocks != [], old(chain).Some?, old(log)[0],
                                     Attempts(s, old(chain).Some?, old(subs)[s], nextOffset, blocks, polled)))
    {
      hide Core, Settled, Offered, Delivers, Attempts, Admissible, From, Folds;
      if polled {
        DropOlder(s, nextOffset);
        DroppingFirstChangesNothing(s, nextOffset, blocks, chain.Some?, old(subs)[s], log[s], old(subs)[s], log[s]);
        if s == 1 && chain.None? && blocks != [] {
          RefuseEarlyBroadcast(nextOffset, |blocks|);
          return;
        }
      }
      if failed {
        FailedIsSettled(s);
        return;
      }
      TakeInAndCheck(s, nextOffset, blocks, polled);
      if polled {
        DroppingFirstChangesNothing(s, nextOffset, blocks, old(chain).Some?, old(subs)[s], old(log)[s], subs[s], log[s]);
      }
      if !failed {
        DeliversIntoLog(s, nextOffset, blocks, polled, old(chain).Some?, old(subs)[s], old(log)[s], subs[s], log[s]);
        NotRefused(s, polled && blocks != [], old(chain).Some?, old(log)[0],
                   Attempts(s, old(chain).Some?, old(subs)[s], nextOffset, blocks, polled));
      }
    }

    /** Why a delivery makes a session fail: a polled broadcast without a chain, or main blocks that cannot all be applied. */
    predicate Refused(s: int, polledBlocks: bool, hadChain: bool, before: seq<Entry>, attempts: seq<Entry>) {
      if s == 1 then polledBlocks && !hadChain else !Folds(cfg, before + attempts)
    }

    /** What is noted of a delivery before anything is done with it. */
    method Book(s: int, nextOffset: int, blocks: seq<Binary>, polled: bool)
      requires Valid() && IsSubChain(s)
      modifies this`lastBlock, this`lastBlockHeight, this`delivered, this`regular
      ensures Shaped() && Core(s) && Settled(1 - s)
      ensures !failed ==> (chain.None? <==> log[0] == [])
      ensures if s == 0 && blocks != [] && nextOffset > old(lastBlockHeight)
              then lastBlock == Some(blocks[|blocks| - 1]) && lastBlockHeight == nextOffset
              else lastBlock == old(lastBlock) && lastBlockHeight == old(lastBlockHeight)
      ensures delivered == old(delivered)[s := old(delivered)[s] + Offered(nextOffset - |blocks|, blocks)]
      ensures Offered(nextOffset - |blocks|, blocks) <= delivered[s]
      ensures regular == (old(regular) && Admissible(s, chain.Some?, subs[s].height, nextOffset, |blocks|, polled))
    {
      hide Offered, Admissible;
      NoteLastBlock(s, nextOffset, blocks);
      Record(s, nextOffset, blocks, polled);
      SettledElsewhere(s);
    }

    /**
     * A delivery, pushed or polled: what is too early waits; the rest goes in, and with it what waited for it. It fails
     * the session exactly if it is a polled broadcast without a chain, or if the main blocks cannot all be applied.
     */
    method ApplyBlocks(s: int, nextOffset: int, blocks: seq<Binary>, polled: bool)
      requires Valid() && IsSubChain(s)
      modifies this
      ensures Valid()
      ensures if s == 0 && blocks != [] && nextOffset > old(lastBlockHeight)
              then lastBlock == Some(blocks[|blocks| - 1]) && lastBlockHeight == nextOffset
              else lastBlock == old(lastBlock) && lastBlockHeight == old(lastBlockHeight)
      ensures old(failed) ==> failed && log == old(log)
      ensures delivered == old(delivered)[s := old(delivered)[s] + Offered(nextOffset - |blocks|, blocks)]
      ensures regular == (old(regular) && Admissible(s, old(chain).Some?, old(subs)[s].height, nextOffset, |blocks|, polled))
      ensures requests == old(requests)
      ensures OnlyRepolled(subs[1 - s], old(subs)[1 - s])
      ensures !old(failed) ==>
                (failed <==> Refused(s, polled && blocks != [], old(chain).Some?, old(log)[0],
                                     Attempts(s, old(chain).Some?, old(subs)[s], nextOffset, blocks, polled)))
      ensures !failed ==>
                && log[1 - s] == old(log)[1 - s]
                && Delivers(s, nextOffset, blocks, polled, old(chain).Some?, old(subs)[s], old(log)[s], subs[s], log[s])
                && (chain.Some? <==> HasChainAfter(s, old(chain).Some?, old(subs)[s].height, nextOffset, blocks, polled))
                && subs[s].shortPolling == old(subs)[s].shortPolling
                && unseen == UnseenAfter(s, old(chain).Some?, chain.Some?, old(unseen), old(subs)[1])
                && (chain.None? ==> NotRepolled(old(subs)[0], old(pollTimers)[0], subs[0], pollTimers[0]))
    {
      hide *;
      Book(s, nextOffset, blocks, polled);
      Deliver(s, nextOffset, blocks, polled);
    }

    lemma SettledElsewhere(s: int)
      requires Valid() && IsSubChain(s)
      ensures Shaped() && Core(s) && Settled(1 - s)
      ensures !failed ==> (chain.None? <==> log[0] == [])
    {
    }

    lemma NotRefused(s: int, polledBlocks: bool, hadChain: bool, before: seq<Entry>, attempts: seq<Entry>)
      requires Valid() && !failed
      requires if s == 1 then !polledBlocks || hadChain else log[0] == before + attempts
      ensures !Refused(s, polledBlocks, hadChain, before, attempts)
    {
      hide Explains;
    }
  }
}
