/** The table of active epochs, its index by hash, and the queue of epochs to be forgotten. */
module Epochs {
  import opened Common
  import opened ChainSpec

  const MAX_ACTIVE := 15
  const FORGET_DELAY := 10000

  datatype EpochInfo = EpochInfo(epoch: int, hash: Bytes32, userId: int64, secret: Binary, groupState: GroupState)

  /** The queue holds the time an epoch is due and the epoch. */
  datatype Epochs = Epochs(table: map<int, EpochInfo>, byHash: map<Bytes32, int>, queue: seq<(int, int)>)

  const NO_EPOCHS := Epochs(map[], map[], [])

  /** Takes the first epoch off the queue, and out of the table if it is still there. */
  function DropFirst(e: Epochs): Epochs
    requires e.queue != []
  {
    var k, rest := e.queue[0].1, e.(queue := e.queue[1..]);
    if k in e.table then rest.(byHash := e.byHash - {e.table[k].hash}, table := e.table - {k}) else rest
  }

  /** Forgets what is due, and more while too many are active. */
  function Synced(e: Epochs, now: int): Epochs
    decreases |e.queue|
  {
    if e.queue != [] && (e.queue[0].0 <= now || |e.table| > MAX_ACTIVE) then Synced(DropFirst(e), now) else e
  }

  function Superseded(e: Epochs, now: int, epoch: int): Epochs {
    e.(queue := e.queue + [(now + FORGET_DELAY, epoch)])
  }

  /** Whether the member finds its own id under its own key. */
  predicate Belongs(gs: GroupState, userId: int64, publicKey: Bytes32) {
    var me := FindByKey(gs.participants, publicKey);
    me.Some? && me.value.userId == userId
  }

  function Entered(e: Epochs, info: EpochInfo): Epochs {
    e.(byHash := e.byHash[info.hash := info.epoch], table := e.table[info.epoch := info])
  }

  // ---------------------------------------------------------------- invariant

  /** Table and index are inverse to each other. */
  predicate Inverse(e: Epochs) {
    && (forall k :: k in e.table ==> e.table[k].epoch == k && e.table[k].hash in e.byHash && e.byHash[e.table[k].hash] == k)
    && (forall h :: h in e.byHash ==> e.byHash[h] in e.table && e.table[e.byHash[h]].hash == h)
  }

  predicate Queued(queue: seq<(int, int)>, k: int) {
    exists i :: 0 <= i < |queue| && queue[i].1 == k
  }

  /** The queue is in the order it falls due, and nothing in it lies further ahead than the delay. */
  predicate InOrder(queue: seq<(int, int)>, clock: int) {
    && (forall i, j :: 0 <= i < j < |queue| ==> queue[i].0 <= queue[j].0)
    && (forall i :: 0 <= i < |queue| ==> queue[i].0 <= clock + FORGET_DELAY)
  }

  /** Everything active but the newest epoch is on its way out, and the newest is not. */
  predicate Tidy(e: Epochs, newest: int, clock: int) {
    && Inverse(e)
    && InOrder(e.queue, clock)
    && (forall k :: k in e.table && k != newest ==> Queued(e.queue, k))
    && (forall i :: 0 <= i < |e.queue| ==> e.queue[i].1 < newest)
  }

  lemma DropKeepsTidy(e: Epochs, newest: int, clock: int)
    requires Tidy(e, newest, clock) && e.queue != []
    ensures Tidy(DropFirst(e), newest, clock)
    ensures newest in DropFirst(e).table <==> newest in e.table
  {
    var d := DropFirst(e);
    forall k | k in d.table && k != newest ensures Queued(d.queue, k) {
      var i :| 0 <= i < |e.queue| && e.queue[i].1 == k;
      assert i > 0 && d.queue[i - 1].1 == k;
    }
  }

  /**
   * Synchronising keeps the table in order and its newest epoch, brings it within the limit and leaves nothing due
   * behind.
   */
  lemma {:induction false} SyncKeepsTidy(e: Epochs, newest: int, clock: int, now: int)
    requires Tidy(e, newest, clock) && clock <= now
    ensures Tidy(Synced(e, now), newest, now)
    ensures newest in Synced(e, now).table <==> newest in e.table
    ensures |Synced(e, now).table| <= MAX_ACTIVE
    ensures forall i :: 0 <= i < |Synced(e, now).queue| ==> now < Synced(e, now).queue[i].0
    decreases |e.queue|
  {
    if e.queue != [] && (e.queue[0].0 <= now || |e.table| > MAX_ACTIVE) {
      DropKeepsTidy(e, newest, clock);
      SyncKeepsTidy(DropFirst(e), newest, clock, now);
    } else if e.queue == [] {
      OnlyNewest(e.table, newest);
    }
  }

  lemma OnlyNewest(table: map<int, EpochInfo>, newest: int)
    requires forall k :: k in table ==> k == newest
    ensures |table| <= 1
  {
    forall k | k in table.Keys ensures k in {newest} {
      assert k in table;
    }
    SubsetIsSmaller(table.Keys, {newest});
    assert |table| == |table.Keys|;
  }

  /** Synchronising only ever takes epochs out. */
  lemma {:induction false} SyncOnlyForgets(e: Epochs, now: int)
    ensures forall k :: k in Synced(e, now).table ==> k in e.table && Synced(e, now).table[k] == e.table[k]
    ensures forall h :: h in Synced(e, now).byHash ==> h in e.byHash && Synced(e, now).byHash[h] == e.byHash[h]
    decreases |e.queue|
  {
    if e.queue != [] && (e.queue[0].0 <= now || |e.table| > MAX_ACTIVE) {
      SyncOnlyForgets(DropFirst(e), now);
    }
  }

  predicate DueBy(e: Epochs, k: int, now: int) {
    exists i :: 0 <= i < |e.queue| && e.queue[i].1 == k && e.queue[i].0 <= now
  }

  /** An epoch goes before it is due only to make room, and then exactly the limit stays. */
  lemma {:induction false} ForgottenEarlyOnlyIfCrowded(e: Epochs, newest: int, clock: int, now: int, k: int)
    requires Tidy(e, newest, clock) && clock <= now
    requires k in e.table && k !in Synced(e, now).table && !DueBy(e, k, now)
    ensures |Synced(e, now).table| == MAX_ACTIVE < |e.table|
    decreases |e.queue|
  {
    SyncKeepsTidy(e, newest, clock, now);
    var d := DropFirst(e);
    DropKeepsTidy(e, newest, clock);
    if e.queue[0].0 <= now {
      assert k in d.table by { assert e.queue[0].1 != k; }
      assert !DueBy(d, k, now) by {
        assert forall i :: 0 <= i < |d.queue| ==> d.queue[i] == e.queue[i + 1];
      }
      ForgottenEarlyOnlyIfCrowded(d, newest, clock, now, k);
    } else {
      CrowdingStopsAtTheLimit(d, now);
    }
  }

  lemma {:induction false} CrowdingStopsAtTheLimit(e: Epochs, now: int)
    requires forall i :: 0 <= i < |e.queue| ==> now < e.queue[i].0
    requires |e.table| >= MAX_ACTIVE
    ensures |Synced(e, now).table| >= MAX_ACTIVE
    decreases |e.queue|
  {
    if e.queue != [] && |e.table| > MAX_ACTIVE {
      var d := DropFirst(e);
      assert forall i :: 0 <= i < |d.queue| ==> d.queue[i] == e.queue[i + 1];
      assert |d.table| >= |e.table| - 1;
      CrowdingStopsAtTheLimit(d, now);
    }
  }

  // ---------------------------------------------------------------- runs

  /** One new key: the previous epoch is superseded and the next one entered, with the clock read three times. */
  function Rekeyed(e: Epochs, t1: int, t2: int, t3: int, info: EpochInfo): Epochs {
    Entered(Synced(Superseded(Synced(e, t1), t2, info.epoch - 1), t3), info)
  }

  lemma RekeyKeepsTidy(e: Epochs, newest: int, clock: int, t1: int, t2: int, t3: int, info: EpochInfo)
    requires Tidy(e, newest, clock) && clock <= t1 <= t2 <= t3
    requires info.epoch == newest + 1 && info.hash !in e.byHash
    ensures Tidy(Rekeyed(e, t1, t2, t3, info), newest + 1, t3) && newest + 1 in Rekeyed(e, t1, t2, t3, info).table
    ensures Rekeyed(e, t1, t2, t3, info).table[newest + 1] == info
    ensures Rekeyed(e, t1, t2, t3, info).byHash.Keys <= e.byHash.Keys + {info.hash}
  {
    var s := Synced(e, t1);
    SyncKeepsTidy(e, newest, clock, t1);
    SyncOnlyForgets(e, t1);
    var u := Superseded(s, t2, newest);
    SupersedeKeepsTidy(s, newest, t1, t2);
    var w := Synced(u, t3);
    SyncKeepsTidy(u, newest + 1, t2, t3);
    SyncOnlyForgets(u, t3);
    EnterKeepsTidy(w, t3, info);
  }

  lemma SupersedeKeepsTidy(e: Epochs, newest: int, clock: int, now: int)
    requires Tidy(e, newest, clock) && clock <= now
    ensures Tidy(Superseded(e, now, newest), newest + 1, now)
  {
    var u := Superseded(e, now, newest);
    assert u.queue[|e.queue|].1 == newest;
    forall k | k in u.table ensures Queued(u.queue, k) {
      if k != newest {
        var i :| 0 <= i < |e.queue| && e.queue[i].1 == k;
        assert u.queue[i].1 == k;
      }
    }
  }

  lemma EnterKeepsTidy(e: Epochs, clock: int, info: EpochInfo)
    requires Tidy(e, info.epoch, clock) && info.epoch !in e.table && info.hash !in e.byHash
    ensures Tidy(Entered(e, info), info.epoch, clock)
  {
  }

  datatype Use =
    | Rekey(t1: int, t2: int, t3: int, info: EpochInfo)
    | Sync(t: int)

  function LastTime(u: Use): int { if u.Rekey? then u.t3 else u.t }

  function AfterUses(uses: seq<Use>): Epochs {
    if uses == [] then NO_EPOCHS
    else
      var e, u := AfterUses(uses[..|uses| - 1]), uses[|uses| - 1];
      match u
      case Rekey(t1, t2, t3, info) => Rekeyed(e, t1, t2, t3, info)
      case Sync(t) => Synced(e, t)
  }

  function Clock(uses: seq<Use>): int { if uses == [] then 0 else LastTime(uses[|uses| - 1]) }

  function Newest(first: int, uses: seq<Use>): int {
    if uses == [] then first - 1
    else Newest(first, uses[..|uses| - 1]) + if uses[|uses| - 1].Rekey? then 1 else 0
  }

  function HashesIn(uses: seq<Use>): set<Bytes32> {
    set u | u in uses && u.Rekey? :: u.info.hash
  }

  /** Successive epochs with fresh hashes under a clock that does not go back. */
  predicate Orderly(first: int, uses: seq<Use>) {
    uses == [] ||
    var front, u := uses[..|uses| - 1], uses[|uses| - 1];
    && Orderly(first, front)
    && match u
       case Rekey(t1, t2, t3, info) =>
         Clock(front) <= t1 <= t2 <= t3 && info.epoch == Newest(first, front) + 1 && info.hash !in HashesIn(front)
       case Sync(t) => Clock(front) <= t
  }

  /** In every orderly run table and index are inverse, and the newest epoch is there and never on its way out. */
  lemma {:induction false} EveryRunStaysTidy(first: int, uses: seq<Use>)
    requires Orderly(first, uses)
    ensures Tidy(AfterUses(uses), Newest(first, uses), Clock(uses))
    ensures AfterUses(uses).byHash.Keys <= HashesIn(uses)
    ensures Newest(first, uses) >= first ==> Newest(first, uses) in AfterUses(uses).table
    ensures Newest(first, uses) >= first - 1
    decreases |uses|
  {
    if uses != [] {
      var front, u := uses[..|uses| - 1], uses[|uses| - 1];
      EveryRunStaysTidy(first, front);
      HashesGrow(uses);
      match u
      case Rekey(t1, t2, t3, info) =>
        RekeyKeepsTidy(AfterUses(front), Newest(first, front), Clock(front), t1, t2, t3, info);
      case Sync(t) =>
        SyncKeepsTidy(AfterUses(front), Newest(first, front), Clock(front), t);
        SyncOnlyForgets(AfterUses(front), t);
    }
  }

  lemma HashesGrow(uses: seq<Use>)
    requires uses != []
    ensures var front, u := uses[..|uses| - 1], uses[|uses| - 1];
            HashesIn(uses) == HashesIn(front) + if u.Rekey? then {u.info.hash} else {}
  {
    var front, u := uses[..|uses| - 1], uses[|uses| - 1];
    assert forall x :: x in uses <==> x in front || x == u;
  }

  // ---------------------------------------------------------------- how long a superseded epoch lasts

  lemma {:induction false} QueueOnlyShrinks(e: Epochs, now: int)
    ensures forall x :: x in Synced(e, now).queue ==> x in e.queue
    decreases |e.queue|
  {
    if e.queue != [] && (e.queue[0].0 <= now || |e.table| > MAX_ACTIVE) {
      assert forall x :: x in e.queue[1..] ==> x in e.queue;
      QueueOnlyShrinks(DropFirst(e), now);
    }
  }

  lemma NotDueBefore(e: Epochs, k: int, due: int, now: int)
    requires now < due && forall x :: x in e.queue && x.1 == k ==> due <= x.0
    ensures !DueBy(e, k, now)
  {
    forall i | 0 <= i < |e.queue| && e.queue[i].1 == k ensures now < e.queue[i].0 {
      assert e.queue[i] in e.queue;
    }
  }

  /**
   * The epoch that a new key supersedes can still be used for ten seconds from then, unless more than fifteen are active,
   * and then exactly fifteen stay.
   */
  lemma SupersededStays(e: Epochs, newest: int, clock: int, t1: int, t2: int, t3: int, info: EpochInfo, now: int)
    requires Tidy(e, newest, clock) && newest in e.table && clock <= t1 <= t2 <= t3 <= now < t2 + 10000
    requires info.epoch == newest + 1 && info.hash !in e.byHash
    ensures var r := Rekeyed(e, t1, t2, t3, info);
            && newest in r.table
            && (newest in Synced(r, now).table || |Synced(r, now).table| == 15 < |r.table|)
  {
    hide Tidy, Synced;
    var s := Synced(e, t1);
    SyncKeepsTidy(e, newest, clock, t1);
    SyncOnlyForgets(e, t1);
    var u := Superseded(s, t2, newest);
    SupersedeKeepsTidy(s, newest, t1, t2);
    OnlyNowQueued(s, newest, t1, t2);
    NotDueBefore(u, newest, t2 + 10000, t3);
    if newest !in Synced(u, t3).table {
      ForgottenEarlyOnlyIfCrowded(u, newest + 1, t2, t3, newest);
    }
    QueueOnlyShrinks(u, t3);
    RekeyKeepsTidy(e, newest, clock, t1, t2, t3, info);
    var r := Rekeyed(e, t1, t2, t3, info);
    NotDueBefore(r, newest, t2 + 10000, now);
    if newest !in Synced(r, now).table {
      ForgottenEarlyOnlyIfCrowded(r, newest + 1, t3, now, newest);
    }
  }

  lemma OnlyNowQueued(e: Epochs, newest: int, clock: int, now: int)
    requires Tidy(e, newest, clock)
    ensures forall x :: x in Superseded(e, now, newest).queue && x.1 == newest ==> now + 10000 <= x.0
  {
    forall x | x in e.queue ensures x.1 < newest {
      var i :| 0 <= i < |e.queue| && e.queue[i] == x;
    }
  }
}
