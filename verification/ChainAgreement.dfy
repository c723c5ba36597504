/** The three ways to reach a chain state agree: building a block, applying it, and joining from it. */
module ChainAgreement {
  import opened Common
  import opened Crypto
  import opened ChainSpec

  // ---------------------------------------------------------------- joining equals replaying

  lemma {:induction false} OverlayFollowsChanges(l: Ledger, m: Ledger, cs: seq<Change>, signer: Bytes32, limit: Flags)
    requires l == Unmarked(l) && m == Unmarked(m) && ApplyChanges(l, cs, signer, limit).Some?
    ensures var a, o := ApplyChanges(l, cs, signer, limit).value, Overlay(m, cs);
            && a.hasSetValue == o.hasSetValue
            && a.hasSharedKeyChange == o.hasSharedKeyChange
            && a.hasGroupStateChange == o.hasGroupStateChange
            && (a.hasGroupStateChange ==> a.groupState == o.groupState)
            && (a.hasGroupStateChange || a.hasSharedKeyChange ==> a.sharedKey == o.sharedKey)
    decreases |cs|
  {
    if cs != [] {
      OverlayFollowsChanges(l, m, cs[..|cs| - 1], signer, limit);
    }
  }

  /** A client that only sees the block reaches the very chain of a client that applied it. */
  lemma SnapshotEqualsApply(env: Env, c: Chain, b: Block, checkSignature: bool)
    requires 0 <= b.height && TryApply(env, c, b, checkSignature, false).Accepted?
    ensures CreateFromBlock(env, b) == Some(TryApply(env, c, b, checkSignature, false).value)
  {
    var start := AtHeight(c.ledger, b.height);
    var signer := SignerOf(start.groupState, b.signaturePublicKey).value;
    OverlayFollowsChanges(Unmarked(start), AtHeight(NEW_LEDGER, b.height), b.changes, signer, ALL_PERMISSIONS);
  }

  lemma SnapshotEqualsReplay(env: Env, history: seq<Block>)
    requires history != [] && Replay(env, history).Some?
    ensures CreateFromBlock(env, history[|history| - 1]) == Replay(env, history)
  {
    var front := history[..|history| - 1];
    ReplayHeight(env, front);
    SnapshotEqualsApply(env, Replay(env, front).value, history[|history| - 1], true);
  }

  /** From any block of an accepted history on, a late joiner accepts, rejects and holds what a founder does. */
  lemma LateJoinerNeverDiverges(env: Env, history: seq<Block>, future: seq<Block>)
    requires history != [] && Replay(env, history).Some?
    ensures Extend(env, CreateFromBlock(env, history[|history| - 1]), future) == Replay(env, history + future)
  {
    SnapshotEqualsReplay(env, history);
    ExtendConcat(env, Some(EMPTY_CHAIN), history, future);
  }

  // ---------------------------------------------------------------- when applying is defined

  /** Applying reads past an empty participant list exactly for an unsigned block of a group with rights but nobody in it. */
  lemma UndefinedExactly(env: Env, c: Chain, b: Block, checkSignature: bool, checkStateHash: bool)
    ensures TryApply(env, c, b, checkSignature, checkStateHash).Undefined? <==>
            && Follows(c, b)
            && b.signaturePublicKey == None
            && (b.height == 0 ||
                (c.ledger.groupState.participants == [] && c.ledger.groupState.externalPermissions != {}))
  {
  }

  // ---------------------------------------------------------------- built blocks

  lemma MarksOfOneMore(front: seq<Change>, last: Change)
    ensures ChangesGroup(front + [last]) <==> ChangesGroup(front) || last.SetGroupState?
    ensures ChangesKey(front + [last]) <==> ChangesKey(front) || last.SetSharedKey?
    ensures ChangesValue(front + [last]) <==> ChangesValue(front) || last.SetValue?
  {
    assert last in front + [last];
    assert forall c :: c in front ==> c in front + [last];
    assert forall c :: c in front + [last] ==> c in front || c == last;
  }

  lemma ChangeIgnoresMarks(l: Ledger, front: seq<Change>, change: Change, signer: Bytes32, limit: Flags)
    ensures ApplyChange(Marked(l, front), change, signer, limit) ==
            match ApplyChange(l, change, signer, limit)
            case None => None
            case Some(a) => Some(Marked(a, front + [change]))
  {
    MarksOfOneMore(front, change);
  }

  /** The marks are the only trace of where a run of changes started from, and no change reads them. */
  lemma {:induction false} ChangesIgnoreMarks(l: Ledger, cs: seq<Change>, signer: Bytes32, limit: Flags)
    ensures ApplyChanges(Unmarked(l), cs, signer, limit) ==
            match ApplyChanges(l, cs, signer, limit)
            case None => None
            case Some(a) => Some(Marked(a, cs))
    decreases |cs|
  {
    if cs == [] {
    } else {
      var front, last := cs[..|cs| - 1], cs[|cs| - 1];
      ChangesIgnoreMarks(l, front, signer, limit);
      var before := ApplyChanges(l, front, signer, limit);
      if before.Some? {
        ChangeIgnoresMarks(before.value, front, last, signer, limit);
        assert cs == front + [last];
      }
    }
  }

  /** What a builder computed: its working copy after the changes, marked with what they touched. */
  function BuiltLedger(env: Env, c: Chain, b: Block): Option<Ledger> {
    if b.signaturePublicKey.None? then None
    else
      match ApplyChanges(AtHeight(c.ledger, b.height), b.changes, b.signaturePublicKey.value, ALL_PERMISSIONS)
      case None => None
      case Some(a) => Some(Marked(a, b.changes))
  }

  lemma BuiltBlockIsAccepted(env: Env, c: Chain, cs: seq<Change>, key: Bytes32, checkStateHash: bool)
    requires SignaturesVerify(env.p) && BuildBlock(env, c, cs, key).Some?
    ensures var b := BuildBlock(env, c, cs, key).value;
            && b.changes == cs && BuiltLedger(env, c, b).Some?
            && TryApply(env, c, b, true, checkStateHash)
               == Accepted(Chain(BuiltLedger(env, c, b).value, b, CalcHash(env, b)))
  {
    var b := BuildBlock(env, c, cs, key).value;
    var start := AtHeight(c.ledger, b.height);
    ChangesIgnoreMarks(start, cs, env.p.publicKey(key), ALL_PERMISSIONS);
    var applied := ApplyChanges(start, cs, env.p.publicKey(key), ALL_PERMISSIONS).value;
    var unsigned := Block(Zeros(64), c.lastHash, cs, b.height, ProofFor(applied, cs), Some(env.p.publicKey(key)));
    assert DataToSign(env, b) == DataToSign(env, unsigned) by {
      assert b.(signature := Zeros(64)) == unsigned;
    }
  }

  /** The builder gives up only when no block with these changes and this signer would be accepted. */
  lemma BuilderIsComplete(env: Env, c: Chain, b: Block, key: Bytes32)
    requires b.signaturePublicKey == Some(env.p.publicKey(key)) && Receive(env, c, b).Accepted?
    ensures BuildBlock(env, c, b.changes, key).Some?
    ensures BuiltLedger(env, c, b).Some?
    ensures Receive(env, c, b).value.ledger == BuiltLedger(env, c, b).value.(kvHash := b.stateProof.kvHash)
  {
    ChangesIgnoreMarks(AtHeight(c.ledger, b.height), b.changes, env.p.publicKey(key), ALL_PERMISSIONS);
  }

  // ---------------------------------------------------------------- the hash fixes the history

  /** Two blocks whose encodings have one digest. */
  predicate OneDigest(env: Env, a: Block, b: Block) {
    a != b && env.p.sha256(env.encodeBlock(a)) == env.p.sha256(env.encodeBlock(b))
  }

  lemma EqualHashIsOneDigest(env: Env, a: Block, b: Block)
    requires a != b && a.height != -1 && b.height != -1 && CalcHash(env, a) == CalcHash(env, b)
    ensures OneDigest(env, a, b)
  {
  }

  /** Two equally long accepted histories ending in one hash are the same, or exhibit two blocks with one hash. */
  lemma {:induction false} HashFixesHistory(env: Env, a: seq<Block>, b: seq<Block>)
    requires Replay(env, a).Some? && Replay(env, b).Some?
    requires Replay(env, a).value.lastBlock.height == Replay(env, b).value.lastBlock.height
    requires Replay(env, a).value.lastHash == Replay(env, b).value.lastHash
    ensures || (a == b && Replay(env, a) == Replay(env, b))
            || (|a| == |b| && exists i :: 0 <= i < |a| && OneDigest(env, a[i], b[i]))
    decreases |a|
  {
    hide ApplyBlock, CalcHash, OneDigest;
    ReplayHeight(env, a);
    ReplayHeight(env, b);
    if a == [] {
    } else {
      var n := |a| - 1;
      assert CalcHash(env, a[n]) == CalcHash(env, b[n]);
      if a[n] == b[n] {
        ReplayHeight(env, a[..n]);
        ReplayHeight(env, b[..n]);
        HashFixesHistory(env, a[..n], b[..n]);
        if a[..n] == b[..n] {
          assert a == a[..n] + [a[n]] && b == b[..n] + [b[n]];
        } else {
          var i :| 0 <= i < n && OneDigest(env, a[..n][i], b[..n][i]);
          assert OneDigest(env, a[i], b[i]);
        }
      } else {
        EqualHashIsOneDigest(env, a[n], b[n]);
      }
    }
  }
}
