/** All layers together: in a call made of joins no session fails, and any two members can talk. */
module Conference {
  import opened Common
  import opened Crypto
  import opened ChainSpec
  import ChainAgreement
  import opened GroupKey
  import opened Join
  import opened SessionSpec
  import Runs = SessionRuns
  import Net = SessionServed
  import S = Session
  import opened Epochs
  import opened Packets
  import SE = SessionEncryption
  import Window = ReplayWindow

  // ---------------------------------------------------------------- the log of a call

  /** The blocks of a run of joins, in order. */
  function JoinBlocks(env: Env, js: seq<Joiner>): seq<Block> {
    if js == [] || JoinRun(env, js).None? then []
    else JoinBlocks(env, js[..|js| - 1]) + [JoinRun(env, js).value.lastBlock]
  }

  predicate Call(env: Env, js: seq<Joiner>) { FreshKeys(env.p, js) && |js| <= INT32_MAX + 1 }

  lemma PrefixIsCall(env: Env, js: seq<Joiner>, n: nat)
    requires Call(env, js) && n <= |js|
    ensures Call(env, js[..n])
  {
    assert forall i :: 0 <= i < n ==> js[..n][i] == js[i];
  }

  lemma JoinRunSome(env: Env, js: seq<Joiner>)
    requires SignaturesVerify(env.p) && Call(env, js)
    ensures JoinRun(env, js).Some?
    ensures js != [] ==> JoinedGroup(env, js, JoinRun(env, js).value)
  {
    if js != [] {
      JoinsAlwaysSucceed(env, js);
    }
  }

  /** Replaying the blocks of a run of joins gives the chain of the run, after every one of them. */
  lemma {:induction false} JoinBlocksReplay(env: Env, js: seq<Joiner>)
    requires SignaturesVerify(env.p) && Call(env, js)
    ensures |JoinBlocks(env, js)| == |js| && Replay(env, JoinBlocks(env, js)) == JoinRun(env, js)
    decreases |js|
  {
    JoinRunSome(env, js);
    if js != [] {
      var front := js[..|js| - 1];
      PrefixIsCall(env, js, |js| - 1);
      JoinBlocksReplay(env, front);
      JoinRunSome(env, front);
      assert JoinBlocks(env, js)[..|js| - 1] == JoinBlocks(env, front);
      LastBlockIsReceived(env, js);
    }
  }

  lemma LastBlockIsReceived(env: Env, js: seq<Joiner>)
    requires js != [] && JoinRun(env, js).Some?
    ensures JoinRun(env, js[..|js| - 1]).Some?
    ensures Receive(env, JoinRun(env, js[..|js| - 1]).value, JoinRun(env, js).value.lastBlock) == Accepted(JoinRun(env, js).value)
  {
    hide ApplyBlock, MakeJoinBlock;
  }

  lemma {:induction false} BlocksOfPrefix(env: Env, js: seq<Joiner>, n: nat)
    requires SignaturesVerify(env.p) && Call(env, js) && n <= |js|
    ensures |JoinBlocks(env, js)| == |js| && JoinBlocks(env, js)[..n] == JoinBlocks(env, js[..n])
    decreases |js|
  {
    hide JoinRun, Replay, Call;
    JoinBlocksReplay(env, js);
    if n < |js| {
      var front := js[..|js| - 1];
      PrefixIsCall(env, js, |js| - 1);
      JoinRunSome(env, js);
      BlocksOfPrefix(env, front, n);
      assert front[..n] == js[..n];
      assert JoinBlocks(env, js)[..n] == JoinBlocks(env, front)[..n];
    } else {
      assert js[..n] == js;
    }
  }

  /** A server log that a client parses to the blocks of the call. */
  predicate IsLogOf(m: Client, canon: seq<Binary>, js: seq<Joiner>) {
    && |canon| == |JoinBlocks(m.env, js)|
    && forall i :: 0 <= i < |canon| ==> m.parse(canon[i]) == Some(JoinBlocks(m.env, js)[i])
  }

  lemma LogParses(m: Client, canon: seq<Binary>, js: seq<Joiner>)
    requires IsLogOf(m, canon, js)
    ensures (forall b :: b in canon ==> m.parse(b).Some?) && ParseAll(m, canon) == JoinBlocks(m.env, js)
  {
    hide JoinBlocks;
    forall b | b in canon ensures m.parse(b).Some? {
      var i :| 0 <= i < |canon| && canon[i] == b;
      assert m.parse(canon[i]) == Some(JoinBlocks(m.env, js)[i]);
    }
  }

  lemma CallIsAcceptedLog(m: Client, canon: seq<Binary>, js: seq<Joiner>)
    requires SignaturesVerify(m.env.p) && Call(m.env, js) && IsLogOf(m, canon, js)
    ensures AcceptedLog(m, canon) && |canon| == |js|
    ensures ParseAll(m, canon) == JoinBlocks(m.env, js)
  {
    hide JoinBlocks, JoinRun, Replay, Call;
    JoinBlocksReplay(m.env, js);
    JoinRunSome(m.env, js);
    LogParses(m, canon, js);
  }

  /** Joiner k, as a client of the session. */
  predicate IsClientOf(m: Client, j: Joiner) { m.userId == j.userId && m.privateKey == j.privateKey }

  /** A member that is still in the call is in every chain from its own block on, with the key of that block. */
  lemma MemberIsKeyed(m: Client, canon: seq<Binary>, js: seq<Joiner>, k: nat)
    requires Ideal(m.env.p) && Call(m.env, js) && IsLogOf(m, canon, js)
    requires k < |js| && IsCurrent(js, k) && IsClientOf(m, js[k])
    ensures AcceptedLog(m, canon) && Runs.KeyedFrom(m, canon, k)
  {
    hide EpochSecret, JoinRun, JoinBlocks, Replay, ChainAt, Call, IsLogOf;
    CallIsAcceptedLog(m, canon, js);
    forall n | 0 <= n <= |canon| && k < n ensures ChainAt(m, canon, n).Some? && Keyed(m, ChainAt(m, canon, n).value) {
      MemberIsKeyedAt(m, canon, js, k, n);
    }
  }

  lemma MemberIsKeyedAt(m: Client, canon: seq<Binary>, js: seq<Joiner>, k: nat, n: nat)
    requires Ideal(m.env.p) && Call(m.env, js) && IsLogOf(m, canon, js) && AcceptedLog(m, canon)
    requires k < n <= |canon| && |canon| == |js| && IsCurrent(js, k) && IsClientOf(m, js[k])
    ensures ChainAt(m, canon, n).Some? && Keyed(m, ChainAt(m, canon, n).value)
  {
    hide EpochSecret, JoinRun, JoinBlocks, Replay, JoinedGroup, AcceptedLog;
    var front := js[..n];
    CallIsAcceptedLog(m, canon, js);
    PrefixIsCall(m.env, js, n);
    BlocksOfPrefix(m.env, js, n);
    JoinBlocksReplay(m.env, front);
    assert front[k] == js[k] && forall j :: 0 <= j < n ==> front[j] == js[j];
    EveryoneHoldsTheLastKey(m.env, front, k);
  }

  /**
   * In a call made of joins, a member's session that is given the blocks from its own on, by pushes and answers to its
   * requests in any order and with any repetitions and timers, never fails and holds the chain of the call at its height.
   */
  method AttendCall(m: Client, ghost js: seq<Joiner>, k: nat, server: Net.Server, happenings: seq<Net.Happening>)
    returns (x: S.Session)
    requires Ideal(m.env.p) && Call(m.env, js) && IsLogOf(m, server.main, js)
    requires k < |js| && IsCurrent(js, k) && IsClientOf(m, js[k]) && server.first == k
    requires forall h :: h in happenings ==> Net.Proper(server, h)
    ensures fresh(x) && x.Valid() && !x.failed
    ensures x.chain.Some? ==> 0 <= x.subs[0].height <= |js| && x.chain == JoinRun(m.env, js[..x.subs[0].height])
  {
    hide Ideal, Call, IsLogOf, JoinRun, JoinBlocks, AcceptedLog, ChainAt;
    MemberIsKeyed(m, server.main, js, k);
    x := Net.Serve(m, server, happenings);
    CallIsAcceptedLog(m, server.main, js) by { assert SignaturesVerify(m.env.p) by { IdealSigns(m.env.p); } }
    if x.chain.Some? {
      ChainOfCall(m, server.main, js, x.subs[0].height);
    }
  }

  lemma IdealSigns(p: Primitives)
    requires Ideal(p)
    ensures SignaturesVerify(p)
  {
  }

  lemma ChainOfCall(m: Client, canon: seq<Binary>, js: seq<Joiner>, n: nat)
    requires Ideal(m.env.p) && Call(m.env, js) && IsLogOf(m, canon, js) && AcceptedLog(m, canon) && n <= |canon| == |js|
    ensures ChainAt(m, canon, n) == JoinRun(m.env, js[..n])
  {
    hide JoinRun, JoinBlocks, Replay, AcceptedLog;
    CallIsAcceptedLog(m, canon, js);
    PrefixIsCall(m.env, js, n);
    BlocksOfPrefix(m.env, js, n);
    JoinBlocksReplay(m.env, js[..n]);
  }

  // ---------------------------------------------------------------- talking

  /** An epoch as the members of the call enter it for the block of joiner k. */
  ghost predicate IsEpochOf(env: Env, js: seq<Joiner>, k: int, info: EpochInfo) {
    && 0 <= k < |js|
    && JoinRun(env, js[..k + 1]).Some?
    && var c := JoinRun(env, js[..k + 1]).value;
    && info.epoch == k && info.hash == c.lastHash && info.groupState == c.ledger.groupState
    && info.secret == js[k].material.groupKey
  }

  /** A table that holds nothing but epochs of the call. */
  ghost predicate Fed(env: Env, js: seq<Joiner>, table: map<int, EpochInfo>) {
    forall k :: k in table ==> IsEpochOf(env, js, k, table[k])
  }

  lemma StillFed(env: Env, js: seq<Joiner>, e: Epochs, now: int)
    requires Fed(env, js, e.table)
    ensures Fed(env, js, Synced(e, now).table)
  {
    hide IsEpochOf;
    SyncOnlyForgets(e, now);
  }

  lemma FedOneMore(env: Env, js: seq<Joiner>, e: Epochs, t1: int, t2: int, t3: int, info: EpochInfo)
    requires Fed(env, js, e.table) && IsEpochOf(env, js, info.epoch, info)
    ensures Fed(env, js, Rekeyed(e, t1, t2, t3, info).table)
  {
    hide IsEpochOf, Synced;
    StillFed(env, js, e, t1);
    StillFed(env, js, Superseded(Synced(e, t1), t2, info.epoch - 1), t3);
  }

  /** What a current member of the call finds in the chain after the block of joiner k. */
  lemma MemberFindsEpoch(env: Env, js: seq<Joiner>, i: nat, k: nat)
    requires Ideal(env.p) && Call(env, js) && i <= k < |js| && IsCurrent(js[..k + 1], i)
    ensures JoinRun(env, js[..k + 1]).Some?
    ensures var c := JoinRun(env, js[..k + 1]).value;
            && |c.ledger.sharedKey.destUserId| == |c.ledger.sharedKey.destHeader|
            && EpochSecret(env.p, c, js[i].userId, js[i].privateKey) == Some(js[k].material.groupKey)
            && Belongs(c.ledger.groupState, js[i].userId, env.p.publicKey(js[i].privateKey))
            && c.lastBlock.height == k
  {
    hide EpochSecret, JoinRun, Ideal, Call, JoinedGroup, IsCurrent, Belongs;
    var front := js[..k + 1];
    assert front[i] == js[i] && front[k] == js[k];
    PrefixIsCall(env, js, k + 1);
    CallHasFreshKeys(env, front);
    EveryoneHoldsTheLastKey(env, front, i);
    IdealSigns(env.p);
    JoinRunSome(env, front);
    JoinedBelongs(env, front, JoinRun(env, front).value, i);
  }

  lemma CallHasFreshKeys(env: Env, js: seq<Joiner>)
    requires Call(env, js)
    ensures FreshKeys(env.p, js) && |js| <= INT32_MAX + 1
  {
  }

  lemma JoinedBelongs(env: Env, js: seq<Joiner>, c: Chain, i: nat)
    requires JoinedGroup(env, js, c) && i < |js| && IsCurrent(js, i)
    ensures Belongs(c.ledger.groupState, js[i].userId, env.p.publicKey(js[i].privateKey))
    ensures c.lastBlock.height == |js| - 1
  {
    assert Present(env.p, c.ledger.groupState.participants, js[i]);
    FindSelf(c.ledger.groupState.participants, Self(env.p, js[i].userId, js[i].privateKey));
  }

  /** A member's encryption layer takes in the chain after the block of joiner k. */
  method EnterChain(x: SE.SessionEncryption, env: Env, ghost js: seq<Joiner>, ghost i: nat, ghost k: nat, c: Chain,
                    t1: int, t2: int, t3: int)
    requires Ideal(env.p) && Call(env, js) && i <= k < |js| && IsCurrent(js[..k + 1], i)
    requires JoinRun(env, js[..k + 1]) == Some(c)
    requires x.Valid() && x.p == env.p && x.selfUserId == js[i].userId && x.privateKey == js[i].privateKey
    requires Fed(env, js, x.epochs)
    modifies x`epochs, x`epochByHash, x`epochsToForget
    ensures x.Valid() && Fed(env, js, x.epochs) && x.Table().table == x.epochs
    ensures x.Table() == Rekeyed(old(x.Table()), t1, t2, t3,
                                 EpochInfo(k, c.lastHash, x.selfUserId, js[k].material.groupKey, c.ledger.groupState))
  {
    hide JoinRun, EpochSecret, Belongs, Ideal, Call, Rekeyed, IsCurrent;
    MemberFindsEpoch(env, js, i, k);
    var secret := EpochSecret(env.p, c, x.selfUserId, x.privateKey);
    ghost var info := EpochInfo(k, c.lastHash, x.selfUserId, js[k].material.groupKey, c.ledger.groupState);
    FedOneMore(env, js, x.Table(), t1, t2, t3, info);
    var done := SE.UpdateGroupSharedKey(x, c.lastBlock.height, c.lastHash, secret.value, c.ledger.groupState, t1, t2, t3);
  }

  /** Two different blocks of the call have one hash. */
  ghost predicate BlocksCollide(env: Env, js: seq<Joiner>) {
    exists a, b :: 0 <= a < b < |js| && SameHash(env, js, a, b)
  }

  predicate SameHash(env: Env, js: seq<Joiner>, a: nat, b: nat)
    requires a < |js| && b < |js|
  {
    && JoinRun(env, js[..a + 1]).Some? && JoinRun(env, js[..b + 1]).Some?
    && var one, other := JoinRun(env, js[..a + 1]).value.lastBlock, JoinRun(env, js[..b + 1]).value.lastBlock;
    && ChainAgreement.OneDigest(env, one, other)
  }

  lemma HashIsOfLastBlock(env: Env, js: seq<Joiner>, k: nat)
    requires SignaturesVerify(env.p) && Call(env, js) && k < |js|
    ensures JoinRun(env, js[..k + 1]).Some?
    ensures var c := JoinRun(env, js[..k + 1]).value;
            c.lastHash == CalcHash(env, c.lastBlock) && c.lastBlock.height == k && DistinctIds(c.ledger.groupState.participants)
  {
    hide JoinRun;
    var front := js[..k + 1];
    PrefixIsCall(env, js, k + 1);
    JoinRunSome(env, front);
    LastBlockIsReceived(env, front);
  }

  lemma EqualHashMeansEqualEpoch(env: Env, js: seq<Joiner>, k: nat, l: nat, a: EpochInfo, b: EpochInfo)
    requires SignaturesVerify(env.p) && Call(env, js) && IsEpochOf(env, js, k, a) && IsEpochOf(env, js, l, b)
    requires a.hash == b.hash
    ensures BlocksCollide(env, js) || (a.secret == b.secret && a.groupState == b.groupState)
    ensures DistinctIds(b.groupState.participants)
  {
    hide JoinRun;
    HashIsOfLastBlock(env, js, k);
    HashIsOfLastBlock(env, js, l);
    if k < l {
      assert SameHash(env, js, k, l);
    } else if l < k {
      assert SameHash(env, js, l, k);
    }
  }

  /** Entering the next block keeps a table of the call in order, unless two of its blocks have one hash. */
  lemma NextEpochKeepsTidy(env: Env, js: seq<Joiner>, e: Epochs, k: nat, clock: int, t1: int, t2: int, t3: int, info: EpochInfo)
    requires SignaturesVerify(env.p) && Call(env, js) && Fed(env, js, e.table) && IsEpochOf(env, js, k, info)
    requires Tidy(e, k - 1, clock) && clock <= t1 <= t2 <= t3
    ensures || BlocksCollide(env, js)
            || (Tidy(Rekeyed(e, t1, t2, t3, info), k, t3) && k in Rekeyed(e, t1, t2, t3, info).table)
  {
    hide JoinRun, Rekeyed, Call;
    if info.hash in e.byHash {
      var l := e.byHash[info.hash];
      assert IsEpochOf(env, js, l, e.table[l]);
      HashIsOfLastBlock(env, js, l);
      HashIsOfLastBlock(env, js, k);
      assert SameHash(env, js, l, k);
    } else {
      RekeyKeepsTidy(e, k - 1, clock, t1, t2, t3, info);
    }
  }

  // ---------------------------------------------------------------- following a call

  /** What comes to a member's encryption layer: the chain after the next block, or a use that forgets what is due. */
  datatype Turn =
    | NewBlock(c: Chain, t1: int, t2: int, t3: int)
    | Used(now: int)

  function NextBlock(first: nat, turns: seq<Turn>): nat {
    if turns == [] then first
    else NextBlock(first, turns[..|turns| - 1]) + if turns[|turns| - 1].NewBlock? then 1 else 0
  }

  function ClockAfter(turns: seq<Turn>): int {
    if turns == [] then 0
    else
      match turns[|turns| - 1]
      case NewBlock(_, _, _, t3) => t3
      case Used(now) => now
  }

  /** The chains of the call after successive blocks, from some block on, under a clock that does not go back. */
  predicate InTurn(env: Env, js: seq<Joiner>, first: nat, turns: seq<Turn>) {
    turns == [] ||
    var front := turns[..|turns| - 1];
    && InTurn(env, js, first, front)
    && IsNext(env, js, NextBlock(first, front), ClockAfter(front), turns[|turns| - 1])
  }

  predicate IsNext(env: Env, js: seq<Joiner>, k: nat, clock: int, u: Turn) {
    match u
    case NewBlock(c, t1, t2, t3) => k < |js| && JoinRun(env, js[..k + 1]) == Some(c) && clock <= t1 <= t2 <= t3
    case Used(now) => clock <= now
  }

  /** No later joiner up to block n takes the place of joiner i. */
  predicate StaysUntil(js: seq<Joiner>, i: nat, n: nat) {
    i < |js| && forall j :: i < j < n && j < |js| ==> js[j].userId != js[i].userId
  }

  lemma {:induction false} TurnsBefore(env: Env, js: seq<Joiner>, first: nat, turns: seq<Turn>, n: nat)
    requires InTurn(env, js, first, turns) && n <= |turns|
    ensures InTurn(env, js, first, turns[..n]) && first <= NextBlock(first, turns[..n]) <= NextBlock(first, turns)
    decreases |turns|
  {
    hide JoinRun;
    if n < |turns| {
      var front := turns[..|turns| - 1];
      assert front[..n] == turns[..n];
      TurnsBefore(env, js, first, front, n);
    } else {
      assert turns[..n] == turns;
      if turns != [] {
        var front := turns[..|turns| - 1];
        assert front[..|front|] == front;
        TurnsBefore(env, js, first, front, |front|);
      }
    }
  }

  /** The epochs of a member that followed the call from one block up to another: its table is in order, with the last. */
  ghost predicate UpToDate(env: Env, js: seq<Joiner>, first: int, n: int, clock: int, e: Epochs) {
    && Fed(env, js, e.table)
    && (BlocksCollide(env, js) || (Tidy(e, n - 1, clock) && (first < n ==> n - 1 in e.table)))
  }

  /** One turn of a member that is in the call. */
  method TakeTurn(x: SE.SessionEncryption, env: Env, ghost js: seq<Joiner>, ghost i: nat, ghost first: nat, ghost k: nat,
                  ghost clock: int, u: Turn)
    requires Ideal(env.p) && Call(env, js) && i <= first <= k && IsNext(env, js, k, clock, u)
    requires StaysUntil(js, i, if u.NewBlock? then k + 1 else k)
    requires x.Valid() && x.p == env.p && x.selfUserId == js[i].userId && x.privateKey == js[i].privateKey
    requires UpToDate(env, js, first, k, clock, x.Table())
    modifies x`epochs, x`epochByHash, x`epochsToForget
    ensures x.Valid()
    ensures UpToDate(env, js, first, if u.NewBlock? then k + 1 else k, if u.NewBlock? then u.t3 else u.now, x.Table())
  {
    hide JoinRun, BlocksCollide, Ideal, Call, Fed, Tidy, Rekeyed, Synced;
    ghost var e := x.Table();
    match u {
      case NewBlock(c, t1, t2, t3) =>
        EnterChain(x, env, js, i, k, c, t1, t2, t3);
        ghost var info := EpochInfo(k, c.lastHash, x.selfUserId, js[k].material.groupKey, c.ledger.groupState);
        IdealSigns(env.p);
        if !BlocksCollide(env, js) {
          NextEpochKeepsTidy(env, js, e, k, clock, t1, t2, t3, info);
        }
      case Used(now) =>
        x.Sync(now);
        StillFed(env, js, e, now);
        if !BlocksCollide(env, js) {
          SyncKeepsTidy(e, k - 1, clock, now);
        }
    }
  }

  /** An object that takes in the chains of the call from some block on holds nothing but its epochs, in order, with the last. */
  method FollowCall(x: SE.SessionEncryption, env: Env, ghost js: seq<Joiner>, ghost i: nat, ghost first: nat, turns: seq<Turn>)
    requires Ideal(env.p) && Call(env, js) && i <= first && InTurn(env, js, first, turns)
    requires StaysUntil(js, i, NextBlock(first, turns))
    requires x.Valid() && x.p == env.p && x.selfUserId == js[i].userId && x.privateKey == js[i].privateKey
    requires x.Table() == NO_EPOCHS
    modifies x`epochs, x`epochByHash, x`epochsToForget
    ensures x.Valid() && UpToDate(env, js, first, NextBlock(first, turns), ClockAfter(turns), x.Table())
  {
    hide JoinRun, Ideal, Call, IsNext, UpToDate;
    StartsUpToDate(env, js, first);
    for t := 0 to |turns|
      invariant x.Valid() && UpToDate(env, js, first, NextBlock(first, turns[..t]), ClockAfter(turns[..t]), x.Table())
    {
      TurnsBefore(env, js, first, turns, t + 1);
      assert turns[..t + 1][..t] == turns[..t];
      TurnsBefore(env, js, first, turns[..t + 1], t);
      TakeTurn(x, env, js, i, first, NextBlock(first, turns[..t]), ClockAfter(turns[..t]), turns[t]);
    }
    assert turns[..|turns|] == turns;
  }

  lemma StartsUpToDate(env: Env, js: seq<Joiner>, first: nat)
    ensures UpToDate(env, js, first, first, 0, NO_EPOCHS)
  {
  }

  /** Members of one call know every shared epoch alike, unless two of its blocks have one hash. */
  lemma MembersKnowAlike(env: Env, js: seq<Joiner>, table: map<int, EpochInfo>, e: Epochs)
    requires SignaturesVerify(env.p) && Call(env, js) && Fed(env, js, table) && Fed(env, js, e.table) && Inverse(e)
    ensures BlocksCollide(env, js) || SE.KnownAlike(table, e)
  {
    hide IsEpochOf, BlocksCollide;
    forall k | k in table && Lookup(e, table[k].hash).Some?
      ensures var known := Lookup(e, table[k].hash).value;
              && (BlocksCollide(env, js) || (known.secret == table[k].secret && known.groupState == table[k].groupState))
              && DistinctIds(known.groupState.participants)
    {
      var l := e.byHash[table[k].hash];
      InRange(env, js, k, table[k]);
      InRange(env, js, l, e.table[l]);
      EqualHashMeansEqualEpoch(env, js, k, l, table[k], e.table[l]);
    }
  }

  lemma InRange(env: Env, js: seq<Joiner>, k: int, info: EpochInfo)
    requires IsEpochOf(env, js, k, info)
    ensures 0 <= k < |js|
  {
  }

  /** An epoch both have entered is one they share. */
  lemma CommonEpochIsShared(env: Env, js: seq<Joiner>, table: map<int, EpochInfo>, e: Epochs, k: int)
    requires Fed(env, js, table) && Fed(env, js, e.table) && Inverse(e) && k in table && k in e.table
    ensures Shares(Active(table), e)
  {
    hide JoinRun;
    assert IsEpochOf(env, js, k, table[k]) && IsEpochOf(env, js, k, e.table[k]);
    assert table[k] in Active(table);
    var i :| 0 <= i < |Active(table)| && Active(table)[i] == table[k];
  }

  /**
   * Whatever epochs two members of a call have entered and forgotten: what one sends under all its active epochs opens
   * for the other if they have one in common, unless two blocks of the call have one hash.
   */
  lemma AnyTwoMembersCanTalk(env: Env, js: seq<Joiner>, a: SE.SessionEncryption, e: Epochs, selfId: int64, k: int,
                             channel: int32, seqno: uint32, data: Binary, prefixLength: nat, oneTime: Bytes32, random: nat -> byte)
    requires Ideal(env.p) && Call(env, js) && a.Valid() && a.p == env.p && a.selfUserId != selfId
    requires Fed(env, js, a.epochs) && Fed(env, js, e.table) && Inverse(e) && |a.epochs| <= MAX_ACTIVE
    requires k in a.epochs && k in e.table
    requires ValidChannel(channel) && prefixLength <= |data| && prefixLength < PREFIX_LIMIT
    ensures || BlocksCollide(env, js)
            || (var packet := Seal(env.p, a.privateKey, Active(a.epochs), channel, seqno, data, prefixLength, oneTime, random);
                && packet.Some?
                && Open(env.p, e, selfId, a.selfUserId, packet.value)
                == Some(Opened(env.p.publicKey(a.privateKey), channel, seqno, data)))
  {
    hide Fed, Inverse, Shares, Agrees, BlocksCollide, Open, Seal, Call, JoinRun, Active;
    MembersKnowAlike(env, js, a.epochs, e);
    if SE.KnownAlike(a.epochs, e) {
      SE.AlikeMeansAgreed(a, e);
      CommonEpochIsShared(env, js, a.epochs, e, k);
      PacketRoundTrip(env.p, a.privateKey, Active(a.epochs), channel, seqno, data, prefixLength, oneTime, random, e, selfId, a.selfUserId);
    }
  }

  /** One member of the call sends to another, which has some epoch in common with it: the data arrives, and once only. */
  method Converse(env: Env, ghost js: seq<Joiner>, a: SE.SessionEncryption, b: SE.SessionEncryption, channel: int32, data: Binary,
                  prefixLength: nat, oneTime: Bytes32, random: nat -> byte, sent: int, received: int, again: int,
                  ghost newest: int, ghost clock: int, ghost theirNewest: int, ghost theirClock: int, ghost k: int)
    returns (first: Option<Binary>, second: Option<Binary>)
    requires Ideal(env.p) && Call(env, js) && !BlocksCollide(env, js)
    requires a != b && a.Valid() && b.Valid() && a.p == b.p == env.p && a.selfUserId != b.selfUserId
    requires Fed(env, js, a.epochs) && Fed(env, js, b.epochs)
    requires Tidy(a.Table(), newest, clock) && clock <= sent && Tidy(b.Table(), theirNewest, theirClock) && theirClock <= received
    requires k in Synced(a.Table(), sent).table && k in Synced(b.Table(), received).table
    requires ValidChannel(channel) && prefixLength <= |data| && prefixLength < PREFIX_LIMIT
    requires a.LastSeqno(channel) < TWO_TO_THE_32 - 1
    requires Window.NotSeen(b.SeenAt(a.p.publicKey(a.privateKey), channel), a.LastSeqno(channel) + 1)
    modifies a, b
    ensures first == Some(data)
    ensures old(a.LastSeqno(channel)) < Window.LAST_SAFE ==> second == None
  {
    hide Fed, Shares, BlocksCollide, Call, JoinRun, Active, Synced;
    var table, e := Synced(a.Table(), sent).table, Synced(b.Table(), received);
    StillFed(env, js, a.Table(), sent);
    StillFed(env, js, b.Table(), received);
    SyncKeepsTidy(b.Table(), theirNewest, theirClock, received);
    MembersKnowAlike(env, js, table, e);
    CommonEpochIsShared(env, js, table, e, k);
    first, second := SE.SendAndReceiveTwice(a, b, channel, data, prefixLength, oneTime, random, sent, received, again, newest, clock);
  }

  /**
   * Two members join a call, wherever each begins to follow it, and use its epochs meanwhile; once both have come to one
   * block, what the first one sends arrives, and its copy does not.
   */
  method FollowAndTalk(env: Env, ghost js: seq<Joiner>, i: nat, j: nat, sender: Joiner, receiver: Joiner,
                       ghost from: nat, ghost theirFrom: nat, turns: seq<Turn>, theirTurns: seq<Turn>,
                       channel: int32, data: Binary, prefixLength: nat, oneTime: Bytes32, random: nat -> byte,
                       sent: int, received: int, again: int)
    returns (first: Option<Binary>, second: Option<Binary>)
    requires Ideal(env.p) && Call(env, js) && !BlocksCollide(env, js)
    requires i <= from && j <= theirFrom && InTurn(env, js, from, turns) && InTurn(env, js, theirFrom, theirTurns)
    requires NextBlock(from, turns) == NextBlock(theirFrom, theirTurns) > from && NextBlock(from, turns) > theirFrom
    requires StaysUntil(js, i, NextBlock(from, turns)) && StaysUntil(js, j, NextBlock(from, turns))
    requires sender == js[i] && receiver == js[j] && sender.userId != receiver.userId
    requires ClockAfter(turns) <= sent && ClockAfter(theirTurns) <= received
    requires ValidChannel(channel) && prefixLength <= |data| && prefixLength < PREFIX_LIMIT
    ensures first == Some(data) && second == None
  {
    hide BlocksCollide, Ideal, Call, JoinRun, InTurn, Synced, UpToDate, Fed, Tidy, NextBlock, ClockAfter, StaysUntil;
    var a := new SE.SessionEncryption(env.p, sender.userId, sender.privateKey);
    var b := new SE.SessionEncryption(env.p, receiver.userId, receiver.privateKey);
    assert a.LastSeqno(channel) == 0 && b.SeenAt(env.p.publicKey(sender.privateKey), channel) == {};
    FollowCall(a, env, js, i, from, turns);
    FollowCall(b, env, js, j, theirFrom, theirTurns);
    ghost var n, clock, theirs := NextBlock(from, turns), ClockAfter(turns), ClockAfter(theirTurns);
    LastEpochIsKept(env, js, from, n, clock, a.Table(), sent);
    LastEpochIsKept(env, js, theirFrom, n, theirs, b.Table(), received);
    first, second := Converse(env, js, a, b, channel, data, prefixLength, oneTime, random, sent, received, again,
                              n - 1, clock, n - 1, theirs, n - 1);
  }

  lemma LastEpochIsKept(env: Env, js: seq<Joiner>, first: int, n: int, clock: int, e: Epochs, now: int)
    requires UpToDate(env, js, first, n, clock, e) && !BlocksCollide(env, js) && first < n && clock <= now
    ensures Fed(env, js, e.table) && Tidy(e, n - 1, clock) && n - 1 in Synced(e, now).table
  {
    hide Fed, Tidy, Synced;
    SyncKeepsTidy(e, n - 1, clock, now);
  }
}
