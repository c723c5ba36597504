/** What a session is fed, what it has applied, and what any two sessions fed alike have in common. */
module SessionSpec {
  import opened Common
  import opened ChainSpec
  import opened ChainAgreement
  import opened GroupKey

  /**
   * What a session asks of the layers below: the chain after one more server block, and whether the
   * member finds itself and its group key in a chain.
   */
  datatype Config = Config(next: (Option<Chain>, Binary) -> Option<Chain>, keyed: Chain -> bool)

  /** The member with a user id and a private key; `parse` turns a server block into a block, or refuses it. */
  datatype Client = Client(env: Env, parse: Binary -> Option<Block>, userId: int64, privateKey: Bytes32)

  /** A block together with its position on its subchain. */
  datatype Entry = Entry(index: int, block: Binary)

  datatype SubChain = SubChain(
    shortPollGeneration: int, waitingGeneration: int, waitingActive: bool,
    waiting: map<int, Binary>, shortPolling: bool, height: int)

  const NEW_SUBCHAIN := SubChain(0, 0, false, map[], false, 0)

  // ---------------------------------------------------------------- the main chain

  predicate Keyed(m: Client, c: Chain) {
    && |c.ledger.sharedKey.destUserId| == |c.ledger.sharedKey.destHeader|
    && EpochSecret(m.env.p, c, m.userId, m.privateKey).Some?
  }

  /** The chain after one more block: the first block is a snapshot, every later one is applied. */
  function NextChain(m: Client, c: Option<Chain>, block: Binary): Option<Chain> {
    var parsed := m.parse(block);
    if parsed.None? then None
    else if c.None? then CreateFromBlock(m.env, parsed.value)
    else
      match Receive(m.env, c.value, parsed.value)
      case Accepted(c') => Some(c')
      case _ => None
  }

  function ConfigOf(m: Client): Config {
    Config((c: Option<Chain>, b: Binary) => NextChain(m, c, b), (c: Chain) => Keyed(m, c))
  }

  predicate StepSucceeds(cfg: Config, c: Option<Chain>, block: Binary) {
    cfg.next(c, block).Some? && cfg.keyed(cfg.next(c, block).value)
  }

  function Fold(cfg: Config, es: seq<Entry>): Option<Chain> {
    if es == [] then None
    else
      var before := Fold(cfg, es[..|es| - 1]);
      if |es| > 1 && before.None? then None
      else if !StepSucceeds(cfg, before, es[|es| - 1].block) then None
      else cfg.next(before, es[|es| - 1].block)
  }

  /** A run of main blocks that can be applied one after the other, the first as a snapshot. */
  predicate Folds(cfg: Config, es: seq<Entry>) { es == [] || Fold(cfg, es).Some? }

  lemma {:induction false} FrontFolds(cfg: Config, a: seq<Entry>, b: seq<Entry>)
    requires Folds(cfg, a + b)
    ensures Folds(cfg, a)
    decreases |b|
  {
    if b == [] {
      assert a + b == a;
    } else if a != [] {
      assert (a + b)[..|a + b| - 1] == a + b[..|b| - 1];
      FrontFolds(cfg, a, b[..|b| - 1]);
    }
  }

  /** What cannot be applied cannot be made up for by what comes after it. */
  lemma NoFoldNoMore(cfg: Config, a: seq<Entry>, b: seq<Entry>, c: seq<Entry>)
    requires !Folds(cfg, a + b)
    ensures !Folds(cfg, a + (b + c))
  {
    assert a + (b + c) == (a + b) + c;
    if Folds(cfg, a + (b + c)) {
      FrontFolds(cfg, a + b, c);
    }
  }

  lemma NoFoldInTheMiddle(cfg: Config, log: seq<Entry>, ready: seq<Entry>, n: nat)
    requires n < |ready| && !Folds(cfg, (log + ready[..n]) + [ready[n]])
    ensures !Folds(cfg, log + ready)
  {
    hide Folds;
    NoFoldNoMore(cfg, log + ready[..n], [ready[n]], ready[n + 1..]);
    assert (log + ready[..n]) + ([ready[n]] + ready[n + 1..]) == log + ready;
  }

  lemma RefusedDoesNotFold(cfg: Config, chain: Option<Chain>, log: seq<Entry>, e: Entry)
    requires ChainFollows(cfg, chain, log) && !StepSucceeds(cfg, chain, e.block)
    ensures !Folds(cfg, log + [e])
  {
    assert (log + [e])[..|log|] == log;
  }

  // ---------------------------------------------------------------- logs

  /** Applied at most once each, in increasing order, and all below the height. */
  predicate Ordered(log: seq<Entry>, height: int) {
    && (forall i, j :: 0 <= i < j < |log| ==> log[i].index < log[j].index)
    && (forall i :: 0 <= i < |log| ==> log[i].index < height)
  }

  /** The height accounts for exactly the applied entries. */
  predicate Contiguous(log: seq<Entry>, height: int) {
    if log == [] then height == 0 else log[0].index == height - |log|
  }

  predicate Consecutive(es: seq<Entry>) {
    forall i :: 0 <= i < |es| ==> es[i].index == es[0].index + i
  }

  lemma {:induction false} OrderedLeavesNoRoom(log: seq<Entry>, height: int, i: nat)
    requires Ordered(log, height) && i < |log|
    ensures log[0].index + i <= log[i].index <= height - |log| + i
    decreases |log| - i
  {
    LowerBound(log, height, i);
    if i + 1 < |log| {
      OrderedLeavesNoRoom(log, height, i + 1);
    }
  }

  lemma {:induction false} LowerBound(log: seq<Entry>, height: int, i: nat)
    requires Ordered(log, height) && i < |log|
    ensures log[0].index + i <= log[i].index
  {
    if i > 0 {
      LowerBound(log, height, i - 1);
    }
  }

  /** In order, at most once and as many as the height says leaves one possibility: every index from the first to the height. */
  lemma ContiguousMeansEveryIndex(log: seq<Entry>, height: int)
    requires Ordered(log, height)
    ensures Contiguous(log, height) && log != [] ==>
              forall i :: 0 <= i < |log| ==> log[i].index == height - |log| + i
    ensures log != [] && (forall i :: 0 <= i < |log| ==> log[i].index == height - |log| + i) ==>
              Contiguous(log, height)
  {
    forall i | 0 <= i < |log|
      ensures log[0].index + i <= log[i].index <= height - |log| + i
    {
      OrderedLeavesNoRoom(log, height, i);
    }
  }

  lemma OrderedSnoc(log: seq<Entry>, height: int, e: Entry, height': int)
    requires Ordered(log, height) && (log == [] || height <= e.index) && e.index < height' && height <= height'
    ensures Ordered(log + [e], height')
  {
  }

  // ---------------------------------------------------------------- waiting blocks

  /** The blocks that can be applied one after the other from a height on. */
  function Drain(w: map<int, Binary>, h: int): (es: seq<Entry>)
    ensures Consecutive(es)
    ensures es != [] ==> es[0].index == h
    decreases |w|
  {
    if h in w then
      var rest := Drain(w - {h}, h + 1);
      [Entry(h, w[h])] + rest
    else []
  }

  lemma {:induction false} DrainIgnoresOlder(w: map<int, Binary>, k: int, h: int)
    requires k < h
    ensures Drain(w - {k}, h) == Drain(w, h)
    decreases |w|
  {
    if h in w {
      DrainIgnoresOlder(w - {h}, k, h + 1);
      assert (w - {h}) - {k} == (w - {k}) - {h};
    }
  }

  lemma {:induction false} DrainStopsAtGap(w: map<int, Binary>, h: int)
    ensures h + |Drain(w, h)| !in w
    ensures forall i :: h <= i < h + |Drain(w, h)| ==> i in w && Drain(w, h)[i - h] == Entry(i, w[i])
    decreases |w|
  {
    if h in w {
      var w', es := w - {h}, Drain(w - {h}, h + 1);
      DrainStopsAtGap(w', h + 1);
      assert Drain(w, h) == [Entry(h, w[h])] + es;
      assert h + |Drain(w, h)| == h + 1 + |es|;
      forall i | h <= i < h + |Drain(w, h)| ensures i in w && Drain(w, h)[i - h] == Entry(i, w[i]) {
        if i > h {
          assert es[i - (h + 1)] == Entry(i, w'[i]);
        }
      }
    }
  }

  /** What is left of a waiting table once the blocks below a height are out of it, or on their way out. */
  predicate Remaining(w: map<int, Binary>, left: map<int, Binary>, h: int) {
    && (forall k :: k in left ==> k in w && w[k] == left[k])
    && (forall k :: k in w && h <= k ==> k in left)
  }

  lemma DrainOneMore(w: map<int, Binary>, left: map<int, Binary>, h: int)
    requires left != map[] && Min(left.Keys) <= h && Remaining(w, left, h)
    ensures var k := Min(left.Keys);
            && Remaining(w, left - {k}, if k == h then h + 1 else h)
            && Drain(left, h) == if k == h then [Entry(h, left[h])] + Drain(left - {k}, h + 1) else Drain(left - {k}, h)
  {
    var k := Min(left.Keys);
    if k < h {
      DrainIgnoresOlder(left, k, h);
    }
  }

  lemma AllRemains(w: map<int, Binary>, h: int)
    ensures Remaining(w, w, h)
  {
  }

  lemma NothingRemains(w: map<int, Binary>, left: map<int, Binary>, h: int)
    requires Remaining(w, left, h) && (left != map[] ==> h < Min(left.Keys))
    ensures left == Above(w, h) && Drain(left, h) == []
    ensures forall k :: k in left ==> h < k
  {
    assert h !in left;
  }

  /** Pushed blocks wait under their index unless one waits there already. */
  function Buffered(w: map<int, Binary>, index: int, blocks: seq<Binary>): map<int, Binary> {
    if blocks == [] then w
    else
      var m := Buffered(w, index, blocks[..|blocks| - 1]);
      var k := index + |blocks| - 1;
      if k in m then m else m[k := blocks[|blocks| - 1]]
  }

  function From(w: map<int, Binary>, h: int): map<int, Binary> { map k | k in w && h <= k :: w[k] }

  function Above(w: map<int, Binary>, h: int): map<int, Binary> { map k | k in w && h < k :: w[k] }

  function Offered(index: int, blocks: seq<Binary>): set<Entry> {
    set i | 0 <= i < |blocks| :: Entry(index + i, blocks[i])
  }

  lemma {:induction false} BufferedComesFrom(w: map<int, Binary>, index: int, blocks: seq<Binary>)
    ensures forall k :: k in w ==> k in Buffered(w, index, blocks) && Buffered(w, index, blocks)[k] == w[k]
    ensures forall k :: k in Buffered(w, index, blocks) && k !in w ==>
              0 <= k - index < |blocks| && Buffered(w, index, blocks)[k] == blocks[k - index]
    ensures forall k :: index <= k < index + |blocks| ==> k in Buffered(w, index, blocks)
    decreases |blocks|
  {
    if blocks != [] {
      BufferedComesFrom(w, index, blocks[..|blocks| - 1]);
    }
  }

  lemma FoldSnoc(cfg: Config, log: seq<Entry>, e: Entry)
    requires log != [] ==> Fold(cfg, log).Some?
    requires StepSucceeds(cfg, Fold(cfg, log), e.block)
    ensures Fold(cfg, log + [e]) == cfg.next(Fold(cfg, log), e.block)
  {
    assert (log + [e])[..|log|] == log;
  }

  lemma ConsecutiveSnoc(log: seq<Entry>, height: int, e: Entry)
    requires Ordered(log, height) && Contiguous(log, height) && (log == [] || e.index == height)
    ensures Consecutive(log + [e])
  {
    ContiguousMeansEveryIndex(log, height);
  }

  // ---------------------------------------------------------------- what a session keeps

  /** Why a session failed, with what it had applied until then. */
  datatype Cause =
    | Healthy
    | EarlyBroadcast
    | BadBlock(applied: seq<Entry>, offered: Entry)

  /** A subchain is waiting exactly when a posted timer carries its current generation, and then no poll timer is current. */
  predicate TimersMatch(x: SubChain, waitingTimers: set<int>, pollTimers: set<int>) {
    && (x.waitingActive <==> x.waitingGeneration in waitingTimers)
    && (x.waitingActive ==> x.shortPollGeneration !in pollTimers)
    && (forall g :: g in waitingTimers ==> g <= x.waitingGeneration)
    && (forall g :: g in pollTimers ==> g <= x.shortPollGeneration)
  }

  /** Something will wake a subchain up: a poll in flight, a live waiting timer or a live poll timer. */
  predicate Awake(x: SubChain, pollTimers: set<int>) {
    x.shortPolling || x.waitingActive || x.shortPollGeneration in pollTimers
  }

  /**
   * Between polls nothing applicable is left waiting, except on the broadcast subchain as the chain found it, until it
   * is looked at: a timer is running for what waits there.
   */
  predicate Drained(s: int, hasChain: bool, unseen: Option<SubChain>, x: SubChain) {
    !x.shortPolling ==>
      if !hasChain then s == 0 || x.waiting == map[] || x.waitingActive
      else if s == 1 && unseen.Some? then
        && x.waiting == unseen.value.waiting && x.height == unseen.value.height
        && (x.waiting == map[] || x.waitingActive)
      else forall k :: k in x.waiting ==> x.height < k
  }

  /** No poll timer was posted since the subchain y was x, and the same generation is current. */
  predicate NotRepolled(x: SubChain, timers: set<int>, y: SubChain, timersLeft: set<int>) {
    y.shortPollGeneration == x.shortPollGeneration && timersLeft <= timers
  }

  /** Something waits that could be applied or dropped right away. */
  predicate Overdue(x: SubChain) {
    exists k :: k in x.waiting && k <= x.height
  }

  /** The broadcast subchain x is noted when the chain arrives, and no longer once it is looked at between polls. */
  function UnseenAfter(s: int, hadChain: bool, hasChain: bool, unseen: Option<SubChain>, x: SubChain): Option<SubChain> {
    if !hadChain && hasChain then Some(x)
    else if s == 1 && hadChain && !x.shortPolling then None
    else unseen
  }

  /** Neither the log nor the waiting table holds anything that was not delivered there. */
  predicate Sourced(log: seq<Entry>, waiting: map<int, Binary>, delivered: set<Entry>) {
    && (forall e :: e in log ==> e in delivered)
    && (forall k :: k in waiting ==> Entry(k, waiting[k]) in delivered)
  }

  /** The chain is what the applied main blocks make of it. */
  predicate ChainFollows(cfg: Config, chain: Option<Chain>, log: seq<Entry>) {
    chain == Fold(cfg, log) && (log == [] <==> chain.None?)
  }

  /** The failure is accounted for: a block that no step accepts after what had been applied. */
  predicate Explains(cfg: Config, cause: Cause, delivered: set<Entry>, regular: bool) {
    match cause
    case Healthy => true
    case EarlyBroadcast => !regular
    case BadBlock(applied, offered) =>
      && (applied != [] ==> Fold(cfg, applied).Some?)
      && !StepSucceeds(cfg, Fold(cfg, applied), offered.block)
      && offered in delivered
      && (forall e :: e in applied ==> e in delivered)
      && (regular ==> Consecutive(applied + [offered]))
  }

  lemma BufferedIsSourced(w: map<int, Binary>, index: int, blocks: seq<Binary>, log: seq<Entry>, delivered: set<Entry>)
    requires Sourced(log, w, delivered) && Offered(index, blocks) <= delivered
    ensures Sourced(log, Buffered(w, index, blocks), delivered)
  {
    var m := Buffered(w, index, blocks);
    BufferedComesFrom(w, index, blocks);
    forall k | k in m && k !in w ensures Entry(k, m[k]) in delivered {
      assert Entry(index + (k - index), blocks[k - index]) in Offered(index, blocks);
    }
  }

  lemma AppliedOneMore(cfg: Config, chain: Option<Chain>, log: seq<Entry>, height: int, e: Entry, regular: bool)
    requires ChainFollows(cfg, chain, log) && Ordered(log, height)
    requires chain.None? || e.index == height
    requires regular ==> Contiguous(log, height) && (chain.None? ==> 0 <= e.index)
    requires StepSucceeds(cfg, chain, e.block)
    ensures var height' := if height <= e.index then e.index + 1 else height;
            && ChainFollows(cfg, cfg.next(chain, e.block), log + [e])
            && Ordered(log + [e], height')
            && (regular ==> Contiguous(log + [e], height'))
  {
    FoldSnoc(cfg, log, e);
  }

  lemma RejectedIsExplained(cfg: Config, chain: Option<Chain>, log: seq<Entry>, height: int, e: Entry,
                            delivered: set<Entry>, regular: bool)
    requires ChainFollows(cfg, chain, log) && Ordered(log, height)
    requires chain.None? || e.index == height
    requires regular ==> Contiguous(log, height)
    requires !StepSucceeds(cfg, chain, e.block)
    requires e in delivered && forall d :: d in log ==> d in delivered
    ensures Explains(cfg, BadBlock(log, e), delivered, regular)
  {
    if regular {
      ConsecutiveSnoc(log, height, e);
    }
  }

  // ---------------------------------------------------------------- keeping step

  /**
   * The height moves in step with the applied blocks; a polled broadcast skips what it does not bring, and a polled
   * main delivery beyond the height loses step. The first main block sets the step.
   */
  predicate Balanced(s: int, index: int, count: nat, polled: bool, before: seq<Entry>, h: int, log: seq<Entry>, height: int) {
    var gap := if polled && index > h then index - h else 0;
    var slack, slack' := h - |before|, height - |log|;
    if s == 1 then slack' == slack + gap
    else if before != [] then (if gap == 0 then slack' == slack else slack' > slack)
    else if log == [] then height == if polled && count == 0 then h + gap else h
    else count > 0 && log[0].index == index && (h <= index ==> slack' == index)
  }

  lemma BalancedDrains(s: int, index: int, count: nat, polled: bool, before: seq<Entry>, h: int, log: seq<Entry>, height: int,
                       ready: seq<Entry>)
    requires 0 <= s < 2 && Balanced(s, index, count, polled, before, h, log, height)
    requires s == 0 && log == [] ==> ready == []
    ensures Balanced(s, index, count, polled, before, h, log + ready, height + |ready|)
  {
    if s == 0 && before == [] {
      assert log == [] ==> log + ready == [];
      assert log != [] ==> (log + ready)[0] == log[0];
    }
  }

  /** On the main chain the log stays contiguous exactly if the delivery did not poll past the height, save with the first block. */
  lemma BalanceDecidesContiguity(index: int, count: nat, polled: bool, before: seq<Entry>, h: int, log: seq<Entry>, height: int)
    requires Contiguous(before, h) && before <= log && 0 <= index
    requires Balanced(0, index, count, polled, before, h, log, height)
    requires before == [] && log == [] ==> count == 0 || (!polled && index > h)
    ensures Contiguous(log, height) <==> (polled ==> index <= h || (before == [] && count > 0))
  {
    if before != [] {
      assert log[0] == before[0];
    }
  }

  // ---------------------------------------------------------------- deliveries

  /** A pushed delivery that starts beyond the height, or a pushed broadcast before there is a chain, has to wait. */
  predicate HeldBack(s: int, hadChain: bool, height: int, index: int, polled: bool) {
    !polled && (index > height || (!hadChain && s == 1))
  }

  /** The height once a delivery is in, before anything that waited is applied. */
  function HeightAfter(s: int, hadChain: bool, height: int, nextOffset: int, count: nat, polled: bool): int {
    if HeldBack(s, hadChain, height, nextOffset - count, polled) || nextOffset < height then height else nextOffset
  }

  /** The waiting blocks once a delivery is held back; a polled one makes those it reaches past pointless. */
  function WaitingAfter(s: int, hadChain: bool, x: SubChain, nextOffset: int, blocks: seq<Binary>, polled: bool): map<int, Binary> {
    var index := nextOffset - |blocks|;
    if polled then From(x.waiting, nextOffset)
    else if HeldBack(s, hadChain, x.height, index, polled) then Buffered(x.waiting, index, blocks)
    else x.waiting
  }

  /** The blocks of a delivery that meet the height as it moves along, or the first block of all. */
  function Meeting(hadChain: bool, height: int, index: int, blocks: seq<Binary>): seq<Entry>
    decreases |blocks|
  {
    if blocks == [] then []
    else
      var h := if height <= index then index + 1 else height;
      if !hadChain || height == index then [Entry(index, blocks[0])] + Meeting(true, h, index + 1, blocks[1..])
      else Meeting(hadChain, h, index + 1, blocks[1..])
  }

  lemma MeetingOneMore(cfg: Config, hadChain: bool, h: int, index: int, blocks: seq<Binary>, log: seq<Entry>)
    requires blocks != []
    ensures var e := Entry(index, blocks[0]);
            var rest := Meeting(true, if h <= index then index + 1 else h, index + 1, blocks[1..]);
            var meets := !hadChain || h == index;
            && log + Meeting(hadChain, h, index, blocks) == (if meets then log + [e] else log) + rest
            && (meets && !Folds(cfg, log + [e]) ==> !Folds(cfg, log + Meeting(hadChain, h, index, blocks)))
  {
    hide Folds;
    var e := Entry(index, blocks[0]);
    var rest := Meeting(true, if h <= index then index + 1 else h, index + 1, blocks[1..]);
    if !hadChain || h == index {
      assert log + ([e] + rest) == (log + [e]) + rest;
      if !Folds(cfg, log + [e]) {
        NoFoldNoMore(cfg, log, [e], rest);
      }
    }
  }

  lemma NothingMeets(hadChain: bool, h: int, index: int, log: seq<Entry>)
    ensures log + Meeting(hadChain, h, index, []) == log
  {
  }

  lemma NotHeldBack(s: int, hadChain: bool, h: int, nextOffset: int, blocks: seq<Binary>, polled: bool)
    requires 0 <= s < 2 && !HeldBack(s, hadChain, h, nextOffset - |blocks|, polled)
    ensures var index := nextOffset - |blocks|;
            AppliedAtOnce(s, hadChain, h, nextOffset, blocks, polled)
            == Meeting(hadChain, if s == 1 && polled && h < index then index else h, index, blocks)
    ensures HasChainAfter(s, hadChain, h, nextOffset, blocks, polled) <==> hadChain || (s == 0 && blocks != [])
    ensures HeightAfter(s, hadChain, h, nextOffset, |blocks|, polled) == if nextOffset < h then h else nextOffset
  {
  }

  /** A delivery in its two parts. */
  lemma DeliversInTwo(s: int, nextOffset: int, blocks: seq<Binary>, polled: bool, hadChain: bool,
                      x: SubChain, before: seq<Entry>, y: SubChain, log: seq<Entry>)
    requires polled ==> x.waiting == From(x.waiting, nextOffset)
    requires var index := nextOffset - |blocks|;
             var w := if HeldBack(s, hadChain, x.height, index, polled) then Buffered(x.waiting, index, blocks) else x.waiting;
             var later := AppliedAfter(s, hadChain, x, nextOffset, blocks, polled);
             && log == (before + AppliedAtOnce(s, hadChain, x.height, nextOffset, blocks, polled)) + later
             && y.height == HeightAfter(s, hadChain, x.height, nextOffset, |blocks|, polled) + |later|
             && y.waiting == (if x.shortPolling || !HasChainAfter(s, hadChain, x.height, nextOffset, blocks, polled) then w
                              else Above(w, y.height))
    ensures Delivers(s, nextOffset, blocks, polled, hadChain, x, before, y, log)
  {
    hide AppliedAfter, AppliedAtOnce, HeightAfter, HasChainAfter, From, Buffered, Above;
    var now, later := AppliedAtOnce(s, hadChain, x.height, nextOffset, blocks, polled),
                      AppliedAfter(s, hadChain, x, nextOffset, blocks, polled);
    assert (before + now) + later == before + (now + later);
  }

  lemma FailsInEitherPart(cfg: Config, s: int, nextOffset: int, blocks: seq<Binary>, polled: bool, hadChain: bool,
                          x: SubChain, before: seq<Entry>)
    requires var now, later := AppliedAtOnce(s, hadChain, x.height, nextOffset, blocks, polled),
                               AppliedAfter(s, hadChain, x, nextOffset, blocks, polled);
             !Folds(cfg, before + now) || !Folds(cfg, (before + now) + later)
    ensures !Folds(cfg, before + Attempts(s, hadChain, x, nextOffset, blocks, polled))
  {
    hide AppliedAfter, AppliedAtOnce, Folds;
    var now, later := AppliedAtOnce(s, hadChain, x.height, nextOffset, blocks, polled),
                      AppliedAfter(s, hadChain, x, nextOffset, blocks, polled);
    assert (before + now) + later == before + (now + later);
    if !Folds(cfg, before + now) {
      NoFoldNoMore(cfg, before, now, later);
    }
  }

  lemma DeliversIntoLog(s: int, nextOffset: int, blocks: seq<Binary>, polled: bool, hadChain: bool,
                        x: SubChain, before: seq<Entry>, y: SubChain, log: seq<Entry>)
    requires Delivers(s, nextOffset, blocks, polled, hadChain, x, before, y, log)
    ensures log == before + Attempts(s, hadChain, x, nextOffset, blocks, polled)
  {
  }

  /** What a delivery applies by itself; a polled broadcast first skips what it does not bring. */
  function AppliedAtOnce(s: int, hadChain: bool, height: int, nextOffset: int, blocks: seq<Binary>, polled: bool): seq<Entry> {
    var index := nextOffset - |blocks|;
    if HeldBack(s, hadChain, height, index, polled) then []
    else Meeting(hadChain, if s == 1 && polled && height < index then index else height, index, blocks)
  }

  /** What waited and is next in line once a delivery is in, unless a poll is under way or there is still no chain. */
  function AppliedAfter(s: int, hadChain: bool, x: SubChain, nextOffset: int, blocks: seq<Binary>, polled: bool): seq<Entry> {
    if x.shortPolling || !HasChainAfter(s, hadChain, x.height, nextOffset, blocks, polled) then []
    else
      Drain(WaitingAfter(s, hadChain, x, nextOffset, blocks, polled),
            HeightAfter(s, hadChain, x.height, nextOffset, |blocks|, polled))
  }

  predicate HasChainAfter(s: int, hadChain: bool, height: int, nextOffset: int, blocks: seq<Binary>, polled: bool) {
    hadChain || (s == 0 && blocks != [] && !HeldBack(0, hadChain, height, nextOffset - |blocks|, polled))
  }

  /** Every block a delivery makes a session apply, in order. */
  function Attempts(s: int, hadChain: bool, x: SubChain, nextOffset: int, blocks: seq<Binary>, polled: bool): seq<Entry> {
    AppliedAtOnce(s, hadChain, x.height, nextOffset, blocks, polled)
    + AppliedAfter(s, hadChain, x, nextOffset, blocks, polled)
  }

  /** What one delivery does to a subchain x with a log: everything attempted is in the log of the subchain y it leaves. */
  ghost predicate Delivers(s: int, nextOffset: int, blocks: seq<Binary>, polled: bool, hadChain: bool,
                           x: SubChain, before: seq<Entry>, y: SubChain, log: seq<Entry>)
  {
    var w := WaitingAfter(s, hadChain, x, nextOffset, blocks, polled);
    var h := HeightAfter(s, hadChain, x.height, nextOffset, |blocks|, polled);
    && log == before + Attempts(s, hadChain, x, nextOffset, blocks, polled)
    && y.height == h + |AppliedAfter(s, hadChain, x, nextOffset, blocks, polled)|
    && y.waiting == (if x.shortPolling || !HasChainAfter(s, hadChain, x.height, nextOffset, blocks, polled) then w
                     else Above(w, y.height))
  }

  lemma DroppingFirstChangesNothing(s: int, nextOffset: int, blocks: seq<Binary>, hadChain: bool,
                                    x: SubChain, before: seq<Entry>, y: SubChain, log: seq<Entry>)
    ensures var x' := x.(waiting := From(x.waiting, nextOffset));
            && Attempts(s, hadChain, x', nextOffset, blocks, true) == Attempts(s, hadChain, x, nextOffset, blocks, true)
            && (Delivers(s, nextOffset, blocks, true, hadChain, x', before, y, log) ==>
                  Delivers(s, nextOffset, blocks, true, hadChain, x, before, y, log))
  {
    assert From(From(x.waiting, nextOffset), nextOffset) == From(x.waiting, nextOffset);
  }

  /** How many blocks a delivery applies to an existing chain, counted by the heights it passes. */
  lemma {:induction false} MeetingCount(h: int, index: int, blocks: seq<Binary>)
    ensures |Meeting(true, h, index, blocks)| ==
            if blocks == [] then 0
            else if h < index then |blocks| - 1
            else if h < index + |blocks| then index + |blocks| - h
            else 0
    decreases |blocks|
  {
    if blocks != [] {
      MeetingCount(if h <= index then index + 1 else h, index + 1, blocks[1..]);
    }
  }

  lemma AtOnceBalances(s: int, hadChain: bool, h: int, nextOffset: int, blocks: seq<Binary>, polled: bool, before: seq<Entry>)
    requires 0 <= s < 2
    requires if s == 0 then hadChain <==> before != []
             else hadChain || blocks == [] || HeldBack(1, hadChain, h, nextOffset - |blocks|, polled)
    ensures Balanced(s, nextOffset - |blocks|, |blocks|, polled, before, h,
                     before + AppliedAtOnce(s, hadChain, h, nextOffset, blocks, polled),
                     HeightAfter(s, hadChain, h, nextOffset, |blocks|, polled))
  {
    var index := nextOffset - |blocks|;
    var start := if s == 1 && polled && h < index then index else h;
    MeetingCount(start, index, blocks);
    if blocks != [] {
      MeetingCount(if h <= index then index + 1 else h, index + 1, blocks[1..]);
    }
  }

  /**
   * A main chain whose log is contiguous stays so exactly unless a poll reply begins past the height without bringing
   * the first block.
   */
  lemma DeliveryDecidesContiguity(nextOffset: int, blocks: seq<Binary>, polled: bool, hadChain: bool,
                                  x: SubChain, before: seq<Entry>, y: SubChain, log: seq<Entry>)
    requires Delivers(0, nextOffset, blocks, polled, hadChain, x, before, y, log)
    requires Contiguous(before, x.height) && |blocks| <= nextOffset && (hadChain <==> before != [])
    ensures Contiguous(log, y.height) <==>
              (polled ==> nextOffset - |blocks| <= x.height || (before == [] && blocks != []))
  {
    hide Balanced, Meeting, Contiguous;
    var index := nextOffset - |blocks|;
    var now, later := AppliedAtOnce(0, hadChain, x.height, nextOffset, blocks, polled),
                      AppliedAfter(0, hadChain, x, nextOffset, blocks, polled);
    var h := HeightAfter(0, hadChain, x.height, nextOffset, |blocks|, polled);
    AtOnceBalances(0, hadChain, x.height, nextOffset, blocks, polled, before);
    if !hadChain && blocks != [] {
      FirstBlockIsApplied(hadChain, x.height, index, blocks);
    }
    BalancedDrains(0, index, |blocks|, polled, before, x.height, before + now, h, later);
    assert log == (before + now) + later;
    BalanceDecidesContiguity(index, |blocks|, polled, before, x.height, log, y.height);
  }

  lemma FirstBlockIsApplied(hadChain: bool, h: int, index: int, blocks: seq<Binary>)
    requires !hadChain && blocks != []
    ensures Meeting(hadChain, h, index, blocks) != [] && Meeting(hadChain, h, index, blocks)[0] == Entry(index, blocks[0])
  {
  }

  // ---------------------------------------------------------------- one canonical history

  /** A server log whose blocks parse to a history accepted from the start. */
  ghost predicate AcceptedLog(m: Client, canon: seq<Binary>) {
    && (forall b :: b in canon ==> m.parse(b).Some?)
    && Replay(m.env, ParseAll(m, canon)).Some?
  }

  function ParseAll(m: Client, canon: seq<Binary>): (r: seq<Block>)
    requires forall b :: b in canon ==> m.parse(b).Some?
    ensures |r| == |canon|
  {
    seq(|canon|, i requires 0 <= i < |canon| => m.parse(canon[i]).value)
  }

  /** The chain after the first n blocks of the log. */
  function ChainAt(m: Client, canon: seq<Binary>, n: int): Option<Chain>
    requires (forall b :: b in canon ==> m.parse(b).Some?) && 0 <= n <= |canon|
  {
    Replay(m.env, ParseAll(m, canon)[..n])
  }

  /** Everything delivered sits where the log has it. */
  predicate FromLog(es: set<Entry>, canon: seq<Binary>) {
    forall e :: e in es ==> 0 <= e.index < |canon| && canon[e.index] == e.block
  }

  lemma {:induction false} PrefixReplays(env: Env, blocks: seq<Block>, n: nat)
    requires n <= |blocks| && Replay(env, blocks).Some?
    ensures Replay(env, blocks[..n]).Some?
    decreases |blocks|
  {
    if n == |blocks| {
      assert blocks[..n] == blocks;
    } else {
      assert blocks[..|blocks| - 1][..n] == blocks[..n];
      PrefixReplays(env, blocks[..|blocks| - 1], n);
    }
  }

  /** The chain after a consecutive run of log entries is the chain of the whole log up to there, wherever the run began. */
  lemma {:induction false} FoldIsReplay(m: Client, canon: seq<Binary>, es: seq<Entry>)
    requires AcceptedLog(m, canon) && es != [] && Consecutive(es)
    requires FromLog(Elements(es), canon)
    requires Fold(ConfigOf(m), es).Some?
    ensures es[0].index + |es| <= |canon|
    ensures Fold(ConfigOf(m), es) == ChainAt(m, canon, es[0].index + |es|)
    decreases |es|
  {
    hide Fold, ChainAt, NextChain, AcceptedLog, FromLog;
    StepIsReplay(m, canon, es);
    if |es| == 1 {
      FoldOne(ConfigOf(m), es);
    } else {
      FrontOf(es, canon);
      FoldMore(ConfigOf(m), es);
      FoldIsReplay(m, canon, es[..|es| - 1]);
    }
  }

  lemma FoldOne(cfg: Config, es: seq<Entry>)
    requires |es| == 1 && Fold(cfg, es).Some?
    ensures Fold(cfg, es) == cfg.next(None, es[0].block)
  {
    assert es[..0] == [];
  }

  lemma FoldMore(cfg: Config, es: seq<Entry>)
    requires |es| > 1 && Fold(cfg, es).Some?
    ensures Fold(cfg, es[..|es| - 1]).Some?
    ensures Fold(cfg, es) == cfg.next(Fold(cfg, es[..|es| - 1]), es[|es| - 1].block)
  {
  }

  lemma FrontOf(es: seq<Entry>, canon: seq<Binary>)
    requires |es| > 1 && Consecutive(es) && FromLog(Elements(es), canon)
    ensures var front := es[..|es| - 1];
            Consecutive(front) && front[0] == es[0] && FromLog(Elements(front), canon)
  {
    assert forall e :: e in es[..|es| - 1] ==> e in es;
  }

  /** On an accepted log the next block in line always yields the next chain of the log. */
  lemma StepIsReplay(m: Client, canon: seq<Binary>, es: seq<Entry>)
    requires AcceptedLog(m, canon) && es != [] && Consecutive(es)
    requires FromLog(Elements(es), canon)
    ensures es[0].index + |es| <= |canon|
    ensures es[0].index + |es| >= 1
    ensures ChainAt(m, canon, es[0].index + |es|).Some?
    ensures ChainAt(m, canon, es[0].index + |es|)
         == NextChain(m, if |es| == 1 then None else ChainAt(m, canon, es[0].index + |es| - 1), es[|es| - 1].block)
  {
    var history := ParseAll(m, canon);
    var last := es[|es| - 1];
    var n := last.index + 1;
    assert es[0] in es && last in es;
    assert last in Elements(es) && es[0] in Elements(es);
    assert history[n - 1] == m.parse(last.block).value;
    PrefixReplays(m.env, history, n);
    PrefixReplays(m.env, history, n - 1);
    assert history[..n][..n - 1] == history[..n - 1];
    assert history[..n][n - 1] == history[n - 1];
    if |es| == 1 {
      SnapshotEqualsReplay(m.env, history[..n]);
    }
  }

  // ---------------------------------------------------------------- nothing is lost

  /** The subchain x has become y: its height has not gone back, and what waited is below the height or waits still. */
  predicate Onward(x: SubChain, y: SubChain) {
    && x.height <= y.height
    && forall k :: k in x.waiting ==> k < y.height || (k in y.waiting && y.waiting[k] == x.waiting[k])
  }

  /** Everything handed in is below the height or waits. */
  ghost predicate Accounted(delivered: set<Entry>, y: SubChain) {
    forall e :: e in delivered ==> e.index < y.height || e.index in y.waiting
  }

  /** Draining drops exactly what the height passes; it never ends on a block that waits. */
  lemma DrainKeeps(x: SubChain, y: SubChain)
    requires y.height == x.height + |Drain(x.waiting, x.height)| && y.waiting == Above(x.waiting, y.height)
    ensures Onward(x, y)
  {
    DrainStopsAtGap(x.waiting, x.height);
  }

  lemma NothingHappened(x: SubChain, y: SubChain)
    requires x.height == y.height && x.waiting == y.waiting
    ensures Onward(x, y)
  {
  }

  /** A block that is held back is kept until the height passes it, and so is every block of a delivery. */
  lemma DeliveryKeeps(s: int, nextOffset: int, blocks: seq<Binary>, polled: bool, hadChain: bool,
                      x: SubChain, before: seq<Entry>, y: SubChain, log: seq<Entry>)
    requires Delivers(s, nextOffset, blocks, polled, hadChain, x, before, y, log)
    ensures Onward(x, y) && Accounted(Offered(nextOffset - |blocks|, blocks), y)
  {
    hide AppliedAtOnce, HasChainAfter, Buffered, Drain;
    var index := nextOffset - |blocks|;
    BufferedComesFrom(x.waiting, index, blocks);
    DrainStopsAtGap(WaitingAfter(s, hadChain, x, nextOffset, blocks, polled),
                    HeightAfter(s, hadChain, x.height, nextOffset, |blocks|, polled));
  }

  lemma StillAccounted(delivered: set<Entry>, x: SubChain, y: SubChain)
    requires Accounted(delivered, x) && Onward(x, y)
    ensures Accounted(delivered, y)
  {
  }

  lemma AccountedTogether(a: set<Entry>, b: set<Entry>, y: SubChain)
    requires Accounted(a, y) && Accounted(b, y)
    ensures Accounted(a + b, y)
  {
  }

  // ---------------------------------------------------------------- who goes on

  /** A step only succeeds for a member that the chain lists under its own id and key, and that can open the group key. */
  lemma OnlyMembersGoOn(m: Client, c: Option<Chain>, block: Binary)
    requires StepSucceeds(ConfigOf(m), c, block)
    ensures m.parse(block).Some? && NextChain(m, c, block).Some?
    ensures c.Some? ==> Receive(m.env, c.value, m.parse(block).value) == Accepted(NextChain(m, c, block).value)
    ensures c.None? ==> CreateFromBlock(m.env, m.parse(block).value) == NextChain(m, c, block)
    ensures var l := NextChain(m, c, block).value.ledger;
            && (exists p :: p in l.groupState.participants && p.userId == m.userId && p.publicKey == m.env.p.publicKey(m.privateKey))
            && |l.sharedKey.destUserId| == |l.sharedKey.destHeader|
            && DecryptSharedKey(m.env.p, l.sharedKey, m.userId, m.privateKey).Some?
  {
    var l := NextChain(m, c, block).value.ledger;
    var me := FindByKey(l.groupState.participants, m.env.p.publicKey(m.privateKey)).value;
    assert me in l.groupState.participants && me.userId == m.userId;
  }

  // ---------------------------------------------------------------- what is taken at once

  /** During a poll, or without a chain, what waits goes on waiting, save what a reply reaches past. */
  lemma WaitsDuringPoll(s: int, nextOffset: int, blocks: seq<Binary>, polled: bool, hadChain: bool,
                        x: SubChain, before: seq<Entry>, y: SubChain, log: seq<Entry>, k: int)
    requires Delivers(s, nextOffset, blocks, polled, hadChain, x, before, y, log)
    requires x.shortPolling && k in x.waiting && (polled ==> nextOffset <= k)
    ensures k in y.waiting && y.waiting[k] == x.waiting[k]
  {
    BufferedComesFrom(x.waiting, nextOffset - |blocks|, blocks);
  }

  /**
   * A delivery during a poll reaches its end exactly if the height was there, or if it need not wait: it is polled, or
   * starts no later than the height and is no broadcast before the chain. Otherwise it leaves height and log alone.
   */
  lemma TakenAtOnceExactly(s: int, nextOffset: int, blocks: seq<Binary>, polled: bool, hadChain: bool,
                           x: SubChain, before: seq<Entry>, y: SubChain, log: seq<Entry>)
    requires Delivers(s, nextOffset, blocks, polled, hadChain, x, before, y, log) && x.shortPolling
    ensures nextOffset <= y.height <==>
            nextOffset <= x.height || polled || (nextOffset - |blocks| <= x.height && (s != 1 || hadChain))
    ensures nextOffset <= y.height || (y.height == x.height && log == before)
  {
  }
}
