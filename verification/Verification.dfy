/** The member's side of the fingerprint protocol, block after block. */
module Verification {
  import opened Common
  import opened Crypto
  import opened ChainSpec
  import opened VerificationSpec

  function Signed(c: Codec, privateKey: Bytes32, m: Broadcast): Broadcast {
    m.(signature := c.p.sign(privateKey, BroadcastToSign(c, m)))
  }

  /** What replaying the delayed messages makes of a round: those that parse cleanly are passed over. */
  function Replayed(c: Codec, r: Round, messages: seq<Binary>): Round {
    if messages == [] then r
    else
      var before, (m, clean) := Replayed(c, r, messages[..|messages| - 1]), c.decode(messages[|messages| - 1]);
      if clean then before else Process(c, before, m).0
  }

  class SessionVerification {
    const c: Codec
    const selfUserId: int64
    const privateKey: Bytes32

    var height: int32
    var selfNonce: Bytes32
    var sentReveal: bool
    var lastBlockHash: Bytes32
    var phase: Phase
    var revealed: map<int64, Bytes32>
    var committed: map<int64, Bytes32>
    var pendingOutbound: seq<Binary>
    var emojiHash: Option<Bytes64>
    var participantKeys: map<int64, Bytes32>
    var delayed: map<int32, seq<Binary>>

    /** Everything queued since the last main block. */
    ghost var queued: seq<Broadcast>

    ghost function Current(): Round
      reads this
    {
      Round(lastBlockHash, participantKeys, phase, committed, revealed, emojiHash)
    }

    function OwnCommit(): Broadcast
      reads this`height, this`lastBlockHash, this`selfNonce
    {
      Signed(c, privateKey, NonceCommit(selfUserId, height, lastBlockHash, c.p.sha256(selfNonce), Zeros(64)))
    }

    function OwnReveal(): Broadcast
      reads this`height, this`lastBlockHash, this`selfNonce
    {
      Signed(c, privateKey, NonceReveal(selfUserId, height, lastBlockHash, selfNonce, Zeros(64)))
    }

    /** Only messages that parse cleanly are put aside, under the height they name. */
    ghost predicate DelayedOk()
      reads this`delayed
    {
      forall h, i :: h in delayed && 0 <= i < |delayed[h]| ==>
        c.decode(delayed[h][i]).1 && c.decode(delayed[h][i]).0.chainHeight == h
    }

    /**
     * Per block the own commitment is queued once at its start, and the own nonce once, when and only when everybody
     * has committed.
     */
    ghost predicate Valid()
      reads this
    {
      && Sound(c, Current())
      && DelayedOk()
      && (sentReveal <==> phase != Commit)
      && (if queued == [] then participantKeys == map[]
          else queued == if sentReveal then [OwnCommit(), OwnReveal()] else [OwnCommit()])
    }

    /** Nothing is put aside for a height that has passed. */
    ghost predicate OnlyAhead()
      reads this`delayed, this`height
    {
      forall h :: h in delayed ==> height < h
    }

    constructor (c: Codec, selfUserId: int64, privateKey: Bytes32)
      ensures Valid() && OnlyAhead() && height == -1 && queued == [] && pendingOutbound == [] && delayed == map[]
      ensures this.c == c && this.selfUserId == selfUserId && this.privateKey == privateKey
    {
      this.c, this.selfUserId, this.privateKey := c, selfUserId, privateKey;
      height, selfNonce, sentReveal, lastBlockHash := -1, Zeros(32), false, Zeros(32);
      phase, revealed, committed := Commit, map[], map[];
      pendingOutbound, emojiHash, participantKeys, delayed := [], None, map[], map[];
      queued := [];
    }

    method ProcessCommit(m: Broadcast) returns (done: bool)
      requires m.NonceCommit? && m.chainHash == lastBlockHash
      modifies this`phase, this`committed
      ensures (Current(), done) == Committing(c, old(Current()), m)
    {
      if phase != Commit || m.userId !in participantKeys {
        return false;
      }
      if !c.p.verify(participantKeys[m.userId], BroadcastToSign(c, m), m.signature) || m.userId in committed {
        return false;
      }
      committed := committed[m.userId := m.nonceHash];
      if |committed| == |participantKeys| {
        phase := Reveal;
      }
      return true;
    }

    method ProcessReveal(m: Broadcast) returns (done: bool)
      requires m.NonceReveal? && m.chainHash == lastBlockHash
      modifies this`phase, this`revealed, this`emojiHash
      ensures (Current(), done) == Revealing(c, old(Current()), m)
    {
      if phase != Reveal || m.userId !in participantKeys {
        return false;
      }
      if !c.p.verify(participantKeys[m.userId], BroadcastToSign(c, m), m.signature) || m.userId in revealed {
        return false;
      }
      if m.userId !in committed || c.p.sha256(m.nonce) != committed[m.userId] {
        return false;
      }
      revealed := revealed[m.userId := m.nonce];
      if |revealed| == |participantKeys| {
        var nonces := NonceList(revealed);
        emojiHash := Some(Fingerprint(c.p, nonces, lastBlockHash));
        phase := End;
      }
      return true;
    }

    method ProcessBroadcast(m: Broadcast) returns (done: bool)
      modifies this`phase, this`committed, this`revealed, this`emojiHash
      ensures (Current(), done) == Process(c, old(Current()), m)
    {
      if m.chainHash != lastBlockHash {
        return false;
      }
      match m
      case NonceCommit(_, _, _, _, _) => done := ProcessCommit(m);
      case NonceReveal(_, _, _, _, _) => done := ProcessReveal(m);
    }

    /** Reveals the own nonce once everybody has committed. */
    method EmitRevealIfNeeded()
      modifies this`sentReveal, this`pendingOutbound, this`queued
      ensures if phase == Reveal && !old(sentReveal) then
                && sentReveal && pendingOutbound == old(pendingOutbound) + [c.encode(OwnReveal())]
                && queued == old(queued) + [OwnReveal()]
              else sentReveal == old(sentReveal) && pendingOutbound == old(pendingOutbound) && queued == old(queued)
    {
      if phase == Reveal && !sentReveal {
        sentReveal := true;
        var reveal_ := OwnReveal();
        pendingOutbound := pendingOutbound + [c.encode(reveal_)];
        queued := queued + [reveal_];
      }
    }

    /** A message about the current block. */
    method TakeIn(m: Broadcast) returns (applied: bool)
      requires Valid()
      modifies this`phase, this`committed, this`revealed, this`emojiHash, this`sentReveal, this`pendingOutbound, this`queued
      ensures Valid()
      ensures (Current(), applied) == Process(c, old(Current()), m)
      ensures old(phase) != Commit ==> phase != Commit && committed == old(committed)
      ensures SentNow(old(phase), phase, old(pendingOutbound), old(queued))
    {
      hide Sound, Process, DelayedOk, Signed;
      ProcessKeepsSound(c, Current(), m);
      KeysStay(c, Current(), Process(c, Current(), m).0);
      applied := ProcessBroadcast(m);
      EmitRevealIfNeeded();
    }

    /** The own nonce went out at the moment the commit phase ended, and nothing else did. */
    ghost predicate SentNow(before: Phase, after: Phase, outbound: seq<Binary>, sent: seq<Broadcast>)
      reads this
    {
      var over := before == Commit && after != Commit;
      && pendingOutbound == outbound + (if over then [c.encode(OwnReveal())] else [])
      && queued == sent + (if over then [OwnReveal()] else [])
    }

    method ReceiveInboundMessage(message: Binary) returns (applied: bool)
      requires Valid()
      modifies this`phase, this`committed, this`revealed, this`emojiHash, this`sentReveal, this`pendingOutbound, this`queued, this`delayed
      ensures Valid() && (old(OnlyAhead()) ==> OnlyAhead())
      ensures old(phase) != Commit ==> phase != Commit && committed == old(committed)
      ensures var (m, clean) := c.decode(message);
              if clean && m.chainHeight == height then (Current(), applied) == Process(c, old(Current()), m) && delayed == old(delayed)
              else
                && applied == clean && Current() == old(Current())
                && delayed == if clean && m.chainHeight > height then
                                old(delayed)[m.chainHeight := (if m.chainHeight in old(delayed) then old(delayed)[m.chainHeight] else []) + [message]]
                              else old(delayed)
      ensures SentNow(old(phase), phase, old(pendingOutbound), old(queued))
    {
      var (m, clean) := c.decode(message);
      if !clean {
        return false;
      }
      if m.chainHeight < height {
        return true;
      }
      if m.chainHeight > height {
        PutAside(m.chainHeight, message);
        return true;
      }
      hide Valid, Process, OnlyAhead;
      applied := TakeIn(m);
    }

    method PutAside(at: int32, message: Binary)
      requires Valid() && c.decode(message).1 && c.decode(message).0.chainHeight == at > height
      modifies this`delayed
      ensures Valid() && (old(OnlyAhead()) ==> OnlyAhead())
      ensures delayed == old(delayed)[at := (if at in old(delayed) then old(delayed)[at] else []) + [message]]
    {
      delayed := delayed[at := (if at in delayed then delayed[at] else []) + [message]];
    }

    /** Hands out what is queued, and forgets it. */
    method PullOutboundMessages() returns (messages: seq<Binary>)
      requires Valid()
      modifies this`pendingOutbound
      ensures Valid() && messages == old(pendingOutbound) && pendingOutbound == []
    {
      messages := pendingOutbound;
      pendingOutbound := [];
    }

    method ReplayDelayed(messages: seq<Binary>)
      modifies this`phase, this`committed, this`revealed, this`emojiHash
      ensures Current() == Replayed(c, old(Current()), messages)
    {
      hide Process;
      for i := 0 to |messages|
        invariant Current() == Replayed(c, old(Current()), messages[..i])
      {
        assert messages[..i + 1][..i] == messages[..i];
        var (m, clean) := c.decode(messages[i]);
        if !clean {
          var _ := ProcessBroadcast(m);
        }
      }
      assert messages[..|messages|] == messages;
    }

    /** Starts over for a new block: the commitment to a fresh nonce is all there is to send. */
    method StartRound(newHeight: int32, hash: Bytes32, participants: seq<Participant>, nonce: Bytes32)
      requires DelayedOk()
      modifies this`height, this`selfNonce, this`sentReveal, this`lastBlockHash, this`phase, this`revealed, this`committed
      modifies this`pendingOutbound, this`emojiHash, this`participantKeys, this`queued
      ensures Valid()
      ensures height == newHeight && selfNonce == nonce && Current() == NewRound(hash, participants)
      ensures pendingOutbound == [c.encode(OwnCommit())] && queued == [OwnCommit()]
    {
      hide Sound, Signed, KeysOf, DelayedOk;
      ClearRound(newHeight, hash, participants, nonce);
      QueueCommit();
      NewRoundIsSound(c, hash, participants);
    }

    method ClearRound(newHeight: int32, hash: Bytes32, participants: seq<Participant>, nonce: Bytes32)
      modifies this`height, this`selfNonce, this`sentReveal, this`lastBlockHash, this`phase, this`revealed, this`committed
      modifies this`emojiHash, this`participantKeys
      ensures height == newHeight && selfNonce == nonce && !sentReveal && Current() == NewRound(hash, participants)
    {
      selfNonce, height, lastBlockHash, phase := nonce, newHeight, hash, Commit;
      committed, revealed, emojiHash, sentReveal := map[], map[], None, false;
      participantKeys := KeysOf(participants);
    }

    /** The commitment replaces whatever was still waiting to go out. */
    method QueueCommit()
      modifies this`pendingOutbound, this`queued
      ensures pendingOutbound == [c.encode(OwnCommit())] && queued == [OwnCommit()]
    {
      pendingOutbound, queued := [c.encode(OwnCommit())], [OwnCommit()];
    }

    /** Replays what was put aside for the new block, which changes nothing. */
    method ReplayForThisBlock()
      requires Valid() && phase == Commit
      modifies this`phase, this`committed, this`revealed, this`emojiHash, this`sentReveal, this`pendingOutbound, this`queued, this`delayed
      ensures Valid() && Current() == old(Current()) && pendingOutbound == old(pendingOutbound) && queued == old(queued)
      ensures delayed == old(delayed) - {height}
    {
      hide Sound, Signed, Replayed;
      if height in delayed {
        var pending := delayed[height];
        CleanIsPassedOver(c, Current(), pending);
        delayed := delayed - {height};
        ReplayDelayed(pending);
        EmitRevealIfNeeded();
      }
    }

    /** A new main block: nothing has been taken in for it yet, not even what came early. */
    method OnNewMainBlock(newHeight: int32, hash: Bytes32, participants: seq<Participant>, nonce: Bytes32)
      requires Valid()
      modifies this
      ensures Valid()
      ensures height == newHeight && selfNonce == nonce && Current() == NewRound(hash, participants)
      ensures pendingOutbound == [c.encode(OwnCommit())] && queued == [OwnCommit()]
      ensures delayed == old(delayed) - {newHeight}
      ensures (old(OnlyAhead()) && newHeight == old(height) + 1) || old(delayed) == map[] ==> OnlyAhead()
    {
      hide Sound, Signed, DelayedOk;
      StartRound(newHeight, hash, participants, nonce);
      ReplayForThisBlock();
    }
  }

  lemma KeysStay(c: Codec, r: Round, r': Round)
    requires Advances(r, r') && Sound(c, r')
    ensures r'.keys == map[] ==> r'.phase == Commit
    ensures r'.keys == r.keys && r'.hash == r.hash && (r.phase != Commit ==> r'.phase != Commit && r'.committed == r.committed)
  {
  }

  lemma {:induction false} CleanIsPassedOver(c: Codec, r: Round, messages: seq<Binary>)
    requires forall i :: 0 <= i < |messages| ==> c.decode(messages[i]).1
    ensures Replayed(c, r, messages) == r
  {
    if messages != [] {
      CleanIsPassedOver(c, r, messages[..|messages| - 1]);
    }
  }

  function Decoded(c: Codec, messages: seq<Binary>): seq<Broadcast> {
    seq(|messages|, i requires 0 <= i < |messages| => c.decode(messages[i]).0)
  }

  /**
   * For a new block, replaying what came early has the effect it would have had on time exactly if none of it is a
   * commitment signed by a participant of that block.
   */
  lemma EarlyEqualsOnTimeExactly(c: Codec, hash: Bytes32, ps: seq<Participant>, messages: seq<Binary>)
    requires forall i :: 0 <= i < |messages| ==> c.decode(messages[i]).1
    ensures var r := NewRound(hash, ps);
            Replayed(c, r, messages) == ProcessAll(c, r, Decoded(c, messages)) <==>
            forall i :: 0 <= i < |messages| ==> !Commits(c, r, c.decode(messages[i]).0)
  {
    hide Authentic, KeysOf, Process;
    var r, ms := NewRound(hash, ps), Decoded(c, messages);
    CleanIsPassedOver(c, r, messages);
    NothingCountsExactly(c, hash, ps, ms);
    forall i | 0 <= i < |messages| ensures c.decode(messages[i]).0 in ms {
      assert ms[i] == c.decode(messages[i]).0;
    }
  }

  /** If a participant's commitment came only early, its round stays in the commit phase whatever else arrives. */
  lemma CommitOnlyEarlyStalls(c: Codec, hash: Bytes32, ps: seq<Participant>, height: int32, messages: seq<Binary>, u: int64)
    requires u in KeysOf(ps)
    requires forall m :: m in OnTime(c, messages, height) && m.userId == u ==> !Commits(c, NewRound(hash, ps), m)
    ensures ProcessAll(c, NewRound(hash, ps), OnTime(c, messages, height)).phase == Commit
  {
    hide Authentic, KeysOf;
    LeavesCommitExactly(c, hash, ps, OnTime(c, messages, height));
  }

  /** A member's own commitment counts with everybody it reaches on time, and with nobody it reaches early. */
  lemma OwnCommitCountsOnlyOnTime(x: SessionVerification, ps: seq<Participant>, message: Binary)
    requires SignaturesVerify(x.c.p) && x.c.decode(message) == (x.OwnCommit(), true)
    requires x.selfUserId in KeysOf(ps) && KeysOf(ps)[x.selfUserId] == x.c.p.publicKey(x.privateKey)
    ensures var r := NewRound(x.lastBlockHash, ps);
            && x.selfUserId in ProcessAll(x.c, r, [x.OwnCommit()]).committed
            && x.selfUserId !in Replayed(x.c, r, [message]).committed
  {
    hide KeysOf;
    var r := NewRound(x.lastBlockHash, ps);
    OwnMessagesAreAuthentic(x, r);
    NewRoundIsSound(x.c, x.lastBlockHash, ps);
    hide Authentic;
    CommitIsRecorded(x.c, r, [x.OwnCommit()], 0);
    CleanIsPassedOver(x.c, r, [message]);
  }

  /** Own messages are accepted by everybody who has the member under its own key. */
  lemma OwnMessagesAreAuthentic(x: SessionVerification, r: Round)
    requires SignaturesVerify(x.c.p) && r.hash == x.lastBlockHash
    requires x.selfUserId in r.keys && r.keys[x.selfUserId] == x.c.p.publicKey(x.privateKey)
    ensures Authentic(x.c, r, x.OwnCommit()) && Authentic(x.c, r, x.OwnReveal())
    ensures x.OwnCommit().nonceHash == x.c.p.sha256(x.OwnReveal().nonce)
  {
  }

  /** A broadcast handled by the session: it is taken in, and the last message waiting to go out is sent. */
  method HandleBroadcast(x: SessionVerification, message: Binary) returns (sent: Option<Binary>)
    requires x.Valid() && x.pendingOutbound == []
    modifies x
    ensures x.Valid() && x.pendingOutbound == []
    ensures x.height == old(x.height) && x.selfNonce == old(x.selfNonce) && x.lastBlockHash == old(x.lastBlockHash)
    ensures old(x.phase) != Commit ==> x.phase != Commit && x.committed == old(x.committed)
    ensures var (m, clean) := x.c.decode(message);
            x.Current() == if clean && m.chainHeight == x.height then Process(x.c, old(x.Current()), m).0 else old(x.Current())
    ensures sent == if old(x.phase) == Commit && x.phase != Commit then Some(x.c.encode(x.OwnReveal())) else None
    ensures x.queued == old(x.queued) + (if sent.Some? then [x.OwnReveal()] else [])
    ensures old(x.OnlyAhead()) ==> x.OnlyAhead()
    ensures KeptAside(x.c, old(x.delayed), x.delayed, x.height, [message])
  {
    hide Sound, Process, Signed, KeptAside;
    var _ := x.ReceiveInboundMessage(message);
    OneAside(x.c, old(x.delayed), x.delayed, x.height, message);
    var messages := x.PullOutboundMessages();
    sent := if messages == [] then None else Some(messages[|messages| - 1]);
  }

  /** The broadcasts about one height among the messages of a run. */
  function OnTime(c: Codec, messages: seq<Binary>, height: int32): seq<Broadcast> {
    if messages == [] then []
    else
      var before, (m, clean) := OnTime(c, messages[..|messages| - 1], height), c.decode(messages[|messages| - 1]);
      if clean && m.chainHeight == height then before + [m] else before
  }

  /** The messages of a run about one height, as they came. */
  function About(c: Codec, messages: seq<Binary>, height: int32): seq<Binary> {
    if messages == [] then []
    else
      var before, (m, clean) := About(c, messages[..|messages| - 1], height), c.decode(messages[|messages| - 1]);
      if clean && m.chainHeight == height then before + [messages[|messages| - 1]] else before
  }

  function AsideFor(delayed: map<int32, seq<Binary>>, h: int32): seq<Binary> {
    if h in delayed then delayed[h] else []
  }

  /** For every height beyond the given one, what came about it was put aside after what was there. */
  predicate KeptAside(c: Codec, before: map<int32, seq<Binary>>, after: map<int32, seq<Binary>>, height: int32, messages: seq<Binary>) {
    forall h: int32 :: h > height ==> AsideFor(after, h) == AsideFor(before, h) + About(c, messages, h)
  }

  lemma NothingNewAside(c: Codec, before: map<int32, seq<Binary>>, height: int32)
    ensures KeptAside(c, before, before - {height}, height, [])
  {
  }

  lemma OneMoreAside(c: Codec, before: map<int32, seq<Binary>>, now: map<int32, seq<Binary>>, after: map<int32, seq<Binary>>,
                     height: int32, messages: seq<Binary>, message: Binary)
    requires KeptAside(c, before, now, height, messages) && KeptAside(c, now, after, height, [message])
    ensures KeptAside(c, before, after, height, messages + [message])
  {
    hide About, AsideFor;
    forall h: int32 | h > height ensures AsideFor(after, h) == AsideFor(before, h) + About(c, messages + [message], h) {
      OneMoreAbout(c, messages, message, h);
      assert AsideFor(after, h) == AsideFor(now, h) + About(c, [message], h);
    }
  }

  lemma OneMoreAbout(c: Codec, messages: seq<Binary>, message: Binary, height: int32)
    ensures About(c, messages + [message], height) == About(c, messages, height) + About(c, [message], height)
    ensures var (m, clean) := c.decode(message);
            About(c, [message], height) == if clean && m.chainHeight == height then [message] else []
  {
    assert (messages + [message])[..|messages|] == messages;
    assert [message][..0] == [];
  }

  lemma OneAside(c: Codec, before: map<int32, seq<Binary>>, after: map<int32, seq<Binary>>, height: int32, message: Binary)
    requires var (m, clean) := c.decode(message);
             after == if clean && m.chainHeight > height then before[m.chainHeight := AsideFor(before, m.chainHeight) + [message]] else before
    ensures KeptAside(c, before, after, height, [message])
  {
    forall h: int32 | h > height ensures AsideFor(after, h) == AsideFor(before, h) + About(c, [message], h) {
      OneMoreAbout(c, [], message, h);
    }
  }

  lemma OneMoreOnTime(c: Codec, r: Round, messages: seq<Binary>, message: Binary, height: int32)
    ensures var now, (m, clean) := ProcessAll(c, r, OnTime(c, messages, height)), c.decode(message);
            ProcessAll(c, r, OnTime(c, messages + [message], height))
            == if clean && m.chainHeight == height then Process(c, now, m).0 else now
  {
    hide Process;
    var before := OnTime(c, messages, height);
    assert (messages + [message])[..|messages|] == messages;
    assert (before + [c.decode(message).0])[..|before|] == before;
  }

  /** One block and any messages after it: the round they make, and all that is sent meanwhile. */
  method RunRound(x: SessionVerification, height: int32, hash: Bytes32, participants: seq<Participant>, nonce: Bytes32,
                  messages: seq<Binary>)
    returns (sent: seq<Binary>)
    requires x.Valid()
    modifies x
    ensures x.Valid()
    ensures x.Current() == ProcessAll(x.c, NewRound(hash, participants), OnTime(x.c, messages, height))
    ensures sent == [x.c.encode(x.OwnCommit())] + if x.phase != Commit then [x.c.encode(x.OwnReveal())] else []
    ensures x.height == height
    ensures (old(x.OnlyAhead()) && height == old(x.height) + 1) || old(x.delayed) == map[] ==> x.OnlyAhead()
    ensures KeptAside(x.c, old(x.delayed), x.delayed, height, messages)
  {
    hide Sound, Process, ProcessAll, Signed, NewRound, KeptAside, OnTime;
    x.OnNewMainBlock(height, hash, participants, nonce);
    sent := x.PullOutboundMessages();
    BeginsInCommit(x, hash, participants, height);
    NothingNewAside(x.c, old(x.delayed), height);
    for i := 0 to |messages|
      invariant x.Valid() && x.height == height && x.pendingOutbound == []
      invariant x.Current() == ProcessAll(x.c, NewRound(hash, participants), OnTime(x.c, messages[..i], height))
      invariant sent == [x.c.encode(x.OwnCommit())] + if x.phase != Commit then [x.c.encode(x.OwnReveal())] else []
      invariant (old(x.OnlyAhead()) && height == old(x.height) + 1) || old(x.delayed) == map[] ==> x.OnlyAhead()
      invariant KeptAside(x.c, old(x.delayed), x.delayed, height, messages[..i])
    {
      ghost var aside := x.delayed;
      OneMoreOnTime(x.c, NewRound(hash, participants), messages[..i], messages[i], height);
      var one := HandleBroadcast(x, messages[i]);
      OneMoreAside(x.c, old(x.delayed), aside, x.delayed, height, messages[..i], messages[i]);
      assert messages[..i + 1] == messages[..i] + [messages[i]];
      if one.Some? {
        sent := sent + [one.value];
      }
    }
    assert messages[..|messages|] == messages;
  }

  lemma BeginsInCommit(x: SessionVerification, hash: Bytes32, participants: seq<Participant>, height: int32)
    requires x.Current() == NewRound(hash, participants)
    ensures x.phase == Commit && ProcessAll(x.c, NewRound(hash, participants), OnTime(x.c, [], height)) == x.Current()
  {
  }

  // ---------------------------------------------------------------- successive blocks

  /** A main block and the messages that arrive before the next one. */
  datatype Span = Span(hash: Bytes32, participants: seq<Participant>, nonce: Bytes32, messages: seq<Binary>)

  /** All that came about one height during some spans. */
  function CameFor(c: Codec, spans: seq<Span>, height: int32): seq<Binary> {
    if spans == [] then []
    else CameFor(c, spans[..|spans| - 1], height) + About(c, spans[|spans| - 1].messages, height)
  }

  /**
   * Over successive blocks a round is made by the messages of its own span alone: what came about it earlier waits in
   * order of arrival until its block is there and then goes, and nothing is ever kept for a height that has passed.
   */
  method RunBlocks(x: SessionVerification, first: int32, spans: seq<Span>)
    requires x.Valid() && spans != [] && first + |spans| - 1 <= INT32_MAX
    requires (x.OnlyAhead() && first == x.height + 1) || x.delayed == map[]
    modifies x
    ensures x.Valid() && x.OnlyAhead() && x.height == first + |spans| - 1
    ensures var last := spans[|spans| - 1];
            x.Current() == ProcessAll(x.c, NewRound(last.hash, last.participants), OnTime(x.c, last.messages, x.height))
    ensures forall h: int32 :: h > x.height ==> AsideFor(x.delayed, h) == AsideFor(old(x.delayed), h) + CameFor(x.c, spans, h)
  {
    hide Sound, Process, ProcessAll, Signed, NewRound, About, OnTime, AsideFor;
    for i := 0 to |spans|
      invariant x.Valid() && (i > 0 ==> x.OnlyAhead() && x.height == first + i - 1)
      invariant i == 0 ==> x.height == old(x.height) && x.delayed == old(x.delayed)
      invariant i > 0 ==>
                  var last := spans[i - 1];
                  x.Current() == ProcessAll(x.c, NewRound(last.hash, last.participants), OnTime(x.c, last.messages, x.height))
      invariant forall h: int32 :: h >= first + i ==>
                  AsideFor(x.delayed, h) == AsideFor(old(x.delayed), h) + CameFor(x.c, spans[..i], h)
    {
      assert spans[..i + 1][..i] == spans[..i];
      var span := spans[i];
      var _ := RunRound(x, first + i, span.hash, span.participants, span.nonce, span.messages);
    }
    assert spans[..|spans|] == spans;
  }

  // ---------------------------------------------------------------- a round among members

  /** The member stands for a participant of the block at a height. */
  ghost predicate TakesPart(c: Codec, hash: Bytes32, height: int32, q: Participant, x: SessionVerification)
    reads x
  {
    && x.c == c && x.height == height && x.lastBlockHash == hash
    && x.selfUserId == q.userId && c.p.publicKey(x.privateKey) == q.publicKey
  }

  ghost predicate AllTakePart(c: Codec, hash: Bytes32, height: int32, ps: seq<Participant>, members: seq<SessionVerification>)
    reads members
  {
    && SignaturesVerify(c.p) && (forall m :: c.decode(c.encode(m)) == (m, true))
    && DistinctIds(ps) && |members| == |ps| > 0
    && forall i :: 0 <= i < |ps| ==> TakesPart(c, hash, height, ps[i], members[i])
  }

  ghost function OwnCommits(members: seq<SessionVerification>): (r: seq<Broadcast>)
    reads members
    ensures |r| == |members| && forall i :: 0 <= i < |r| ==> r[i] == members[i].OwnCommit()
  {
    if members == [] then [] else OwnCommits(members[..|members| - 1]) + [members[|members| - 1].OwnCommit()]
  }

  ghost function OwnReveals(members: seq<SessionVerification>): (r: seq<Broadcast>)
    reads members
    ensures |r| == |members| && forall i :: 0 <= i < |r| ==> r[i] == members[i].OwnReveal()
  {
    if members == [] then [] else OwnReveals(members[..|members| - 1]) + [members[|members| - 1].OwnReveal()]
  }

  /** Nothing but the given messages, in any order and number, and each at least once. */
  ghost predicate MadeOf(c: Codec, messages: seq<Binary>, own: seq<Broadcast>) {
    && (forall b :: b in messages ==> c.decode(b).1 && c.decode(b).0 in own)
    && (forall m :: m in own ==> exists i :: 0 <= i < |messages| && c.decode(messages[i]).0 == m)
  }

  ghost predicate AreNoncesOf(nonces: map<int64, Bytes32>, ps: seq<Participant>, members: seq<SessionVerification>)
    reads members
  {
    && |members| == |ps| && nonces.Keys == KeysOf(ps).Keys
    && forall i :: 0 <= i < |ps| ==> ps[i].userId in nonces && nonces[ps[i].userId] == members[i].selfNonce
  }

  lemma {:induction false} AllOnTime(c: Codec, messages: seq<Binary>, height: int32)
    requires forall b :: b in messages ==> c.decode(b).1 && c.decode(b).0.chainHeight == height
    ensures OnTime(c, messages, height) == Decoded(c, messages)
    decreases |messages|
  {
    if messages != [] {
      AllOnTime(c, messages[..|messages| - 1], height);
      assert messages[|messages| - 1] in messages;
    }
  }

  lemma OwnMessagesCount(c: Codec, hash: Bytes32, height: int32, ps: seq<Participant>, members: seq<SessionVerification>,
                         nonces: map<int64, Bytes32>, i: nat)
    requires AllTakePart(c, hash, height, ps, members) && AreNoncesOf(nonces, ps, members) && i < |ps|
    ensures var r, x := NewRound(hash, ps), members[i];
            && x.OwnCommit().userId == x.OwnReveal().userId == ps[i].userId
            && x.OwnCommit().chainHeight == x.OwnReveal().chainHeight == height
            && Authentic(c, r, x.OwnCommit()) && Authentic(c, r, x.OwnReveal())
            && Genuine(c, r, nonces, x.OwnCommit()) && Genuine(c, r, nonces, x.OwnReveal())
  {
    KeysAreThoseOfTheFirst(ps, ps[i].userId);
    FirstMatchIsFound(ps, i);
    hide KeysOf, Authentic;
    OwnMessagesAreAuthentic(members[i], NewRound(hash, ps));
  }

  /** Messages that count in a round, are about its height, and cover everybody. */
  ghost predicate Cover(c: Codec, r: Round, nonces: map<int64, Bytes32>, height: int32, own: seq<Broadcast>, commits: bool) {
    && (forall m :: m in own ==>
          m.NonceCommit? == commits && m.chainHeight == height && Authentic(c, r, m) && Genuine(c, r, nonces, m))
    && forall u :: u in nonces ==> exists m :: m in own && m.userId == u
  }

  lemma EachCovers(c: Codec, r: Round, nonces: map<int64, Bytes32>, height: int32, ps: seq<Participant>, own: seq<Broadcast>,
                   commits: bool)
    requires |own| == |ps| && forall u :: u in nonces ==> exists i :: 0 <= i < |ps| && ps[i].userId == u
    requires forall i :: 0 <= i < |own| ==> CountsFor(c, r, nonces, height, ps[i].userId, own[i]) && own[i].NonceCommit? == commits
    ensures Cover(c, r, nonces, height, own, commits)
  {
    hide Authentic, Genuine;
    forall u | u in nonces ensures exists m :: m in own && m.userId == u {
      var i :| 0 <= i < |ps| && ps[i].userId == u;
      assert own[i] in own;
    }
  }

  ghost predicate CountsFor(c: Codec, r: Round, nonces: map<int64, Bytes32>, height: int32, u: int64, m: Broadcast) {
    m.userId == u && m.chainHeight == height && Authentic(c, r, m) && Genuine(c, r, nonces, m)
  }

  lemma EverybodyIsListed(ps: seq<Participant>, nonces: map<int64, Bytes32>)
    requires nonces.Keys == KeysOf(ps).Keys
    ensures forall u :: u in nonces ==> exists i :: 0 <= i < |ps| && ps[i].userId == u
  {
    forall u | u in nonces ensures exists i :: 0 <= i < |ps| && ps[i].userId == u {
      KeysAreThoseOfTheFirst(ps, u);
      var i :| 0 <= i < |ps| && ps[i] == FindById(ps, u).value;
    }
  }

  lemma MemberCounts(c: Codec, hash: Bytes32, height: int32, ps: seq<Participant>, members: seq<SessionVerification>,
                     nonces: map<int64, Bytes32>, i: nat)
    requires AllTakePart(c, hash, height, ps, members) && AreNoncesOf(nonces, ps, members) && i < |ps|
    ensures |members| == |ps|
    ensures var r, a, b := NewRound(hash, ps), OwnCommits(members)[i], OwnReveals(members)[i];
            && CountsFor(c, r, nonces, height, ps[i].userId, a) && a.NonceCommit?
            && CountsFor(c, r, nonces, height, ps[i].userId, b) && b.NonceReveal?
  {
    hide KeysOf, Authentic, Genuine, TakesPart;
    OwnMessagesCount(c, hash, height, ps, members, nonces, i);
  }

  lemma AsManyMembers(c: Codec, hash: Bytes32, height: int32, ps: seq<Participant>, members: seq<SessionVerification>,
                      nonces: map<int64, Bytes32>)
    requires AllTakePart(c, hash, height, ps, members) && AreNoncesOf(nonces, ps, members)
    ensures |members| == |ps| && nonces.Keys == KeysOf(ps).Keys
  {
  }

  lemma MembersCover(c: Codec, hash: Bytes32, height: int32, ps: seq<Participant>, members: seq<SessionVerification>,
                     nonces: map<int64, Bytes32>)
    requires AllTakePart(c, hash, height, ps, members) && AreNoncesOf(nonces, ps, members)
    ensures Cover(c, NewRound(hash, ps), nonces, height, OwnCommits(members), true)
    ensures Cover(c, NewRound(hash, ps), nonces, height, OwnReveals(members), false)
  {
    hide *;
    var r, a, b := NewRound(hash, ps), OwnCommits(members), OwnReveals(members);
    AsManyMembers(c, hash, height, ps, members, nonces);
    EverybodyIsListed(ps, nonces);
    forall i | 0 <= i < |ps|
      ensures CountsFor(c, r, nonces, height, ps[i].userId, a[i]) && a[i].NonceCommit?
      ensures CountsFor(c, r, nonces, height, ps[i].userId, b[i]) && b[i].NonceReveal?
    {
      MemberCounts(c, hash, height, ps, members, nonces, i);
    }
    EachCovers(c, r, nonces, height, ps, a, true);
    EachCovers(c, r, nonces, height, ps, b, false);
  }

  lemma CoveredByAll(c: Codec, r: Round, nonces: map<int64, Bytes32>, height: int32, own: seq<Broadcast>, commits: bool,
                     messages: seq<Binary>)
    requires Cover(c, r, nonces, height, own, commits) && MadeOf(c, messages, own)
    ensures AllGenuine(c, r, nonces, Decoded(c, messages)) && OnTime(c, messages, height) == Decoded(c, messages)
    ensures forall u :: u in nonces ==>
              if commits then HasCommit(c, r, Decoded(c, messages), u) else HasReveal(c, r, Decoded(c, messages), u)
  {
    hide Authentic, Genuine, OnTime;
    AllOnTime(c, messages, height);
    var ms := Decoded(c, messages);
    forall u | u in nonces ensures if commits then HasCommit(c, r, ms, u) else HasReveal(c, r, ms, u) {
      var m :| m in own && m.userId == u;
      var i :| 0 <= i < |messages| && c.decode(messages[i]).0 == m;
      assert ms[i] == m;
    }
  }

  lemma {:induction false} OnTimeConcat(c: Codec, a: seq<Binary>, b: seq<Binary>, height: int32)
    ensures OnTime(c, a + b, height) == OnTime(c, a, height) + OnTime(c, b, height)
    decreases |b|
  {
    if b == [] {
      assert a + b == a;
    } else {
      assert (a + b)[..|a + b| - 1] == a + b[..|b| - 1];
      OnTimeConcat(c, a, b[..|b| - 1], height);
    }
  }

  /**
   * Once all members have sent their commitments and then their nonces, in any order and number, a round that took them
   * in is at its end with everybody's nonce.
   */
  lemma EveryoneFinishes(c: Codec, hash: Bytes32, height: int32, ps: seq<Participant>, members: seq<SessionVerification>,
                         nonces: map<int64, Bytes32>, commits: seq<Binary>, shown: seq<Binary>)
    requires AllTakePart(c, hash, height, ps, members) && AreNoncesOf(nonces, ps, members)
    requires MadeOf(c, commits, OwnCommits(members)) && MadeOf(c, shown, OwnReveals(members))
    ensures var end := ProcessAll(c, NewRound(hash, ps), OnTime(c, commits + shown, height));
            end.phase == End && end.revealed == nonces
  {
    hide KeysOf, Authentic, Genuine, OnTime, AllGenuine, HasCommit, HasReveal, MadeOf, Cover, ProcessAll, Fingerprint, NonceList;
    var r := NewRound(hash, ps);
    MembersCover(c, hash, height, ps, members, nonces);
    CoveredByAll(c, r, nonces, height, OwnCommits(members), true, commits);
    CoveredByAll(c, r, nonces, height, OwnReveals(members), false, shown);
    OnTimeConcat(c, commits, shown, height);
    SomebodyIsListed(ps, nonces);
    NewRoundIsSound(c, hash, ps);
    HonestRoundCompletes(c, r, nonces, Decoded(c, commits), Decoded(c, shown));
  }

  lemma SomebodyIsListed(ps: seq<Participant>, nonces: map<int64, Bytes32>)
    requires ps != [] && ps[0].userId in nonces
    ensures nonces != map[]
  {
  }
}
