/** The mutable group state and the blockchain object, each step tied to its meaning in ChainSpec. */
module ChainState {
  import opened Common
  import Spec = ChainSpec
  import opened ChainSpec
  import opened GroupSafety
  import opened ChainAgreement

  datatype Verdict = Accept | Reject | ReadsEmptyGroup

  function VerdictOf<T>(o: Outcome<T>): Verdict {
    match o
    case Accepted(_) => Accept
    case Rejected => Reject
    case Undefined => ReadsEmptyGroup
  }

  // ---------------------------------------------------------------- validators

  function Keys(ps: seq<Participant>): (r: seq<Bytes32>)
    ensures |r| == |ps|
  {
    seq(|ps|, i requires 0 <= i < |ps| => ps[i].publicKey)
  }

  lemma DistinctBySizes(ps: seq<Participant>)
    ensures DistinctIds(ps) <==> |Elements(Ids(ps))| == |ps|
    ensures DistinctKeys(ps) <==> |Elements(Keys(ps))| == |ps|
  {
    var ids, keys := Ids(ps), Keys(ps);
    DistinctIffFullSet(ids);
    DistinctIffFullSet(keys);
    assert forall i :: 0 <= i < |ps| ==> ids[i] == ps[i].userId && keys[i] == ps[i].publicKey;
    forall i, j | 0 <= i < j < |ps|
      ensures ids[i] != ids[j] <==> ps[i].userId != ps[j].userId
      ensures keys[i] != keys[j] <==> ps[i].publicKey != ps[j].publicKey
    {
    }
    if DistinctIds(ps) {
      assert forall i, j :: 0 <= i < j < |ps| ==> ids[i] != ids[j];
    }
    if DistinctKeys(ps) {
      assert forall i, j :: 0 <= i < j < |ps| ==> keys[i] != keys[j];
    }
  }

  lemma OneMoreElement<T>(s: seq<T>, i: nat)
    requires i < |s|
    ensures Elements(s[..i + 1]) == Elements(s[..i]) + {s[i]}
  {
    assert s[..i + 1] == s[..i] + [s[i]];
  }

  /** Collecting ids and keys in sets and comparing sizes decides that none is repeated. */
  method ValidateGroupState(gs: GroupState) returns (ok: bool)
    ensures ok == ValidGroupState(gs)
  {
    var ps := gs.participants;
    var userIds: set<int64>, keys: set<Bytes32> := {}, {};
    for i := 0 to |ps|
      invariant forall j :: 0 <= j < i ==> ps[j].Rights() - ALL_PERMISSIONS == {}
      invariant userIds == Elements(Ids(ps)[..i])
      invariant keys == Elements(Keys(ps)[..i])
    {
      if ps[i].Rights() - ALL_PERMISSIONS != {} {
        return false;
      }
      userIds := userIds + {ps[i].userId};
      keys := keys + {ps[i].publicKey};
      OneMoreElement(Ids(ps), i);
      OneMoreElement(Keys(ps), i);
    }
    if gs.externalPermissions - ALL_PERMISSIONS != {} {
      return false;
    }
    assert Ids(ps)[..|ps|] == Ids(ps) && Keys(ps)[..|ps|] == Keys(ps);
    DistinctBySizes(ps);
    return |userIds| == |ps| && |keys| == |ps|;
  }

  method ValidateSharedKey(k: SharedKey, gs: GroupState) returns (ok: bool)
    ensures ok == ValidSharedKey(k, gs)
  {
    if k == NO_KEY {
      return true;
    }
    if |k.destUserId| != |k.destHeader| || |k.destUserId| != |gs.participants| {
      return false;
    }
    DistinctIffFullSet(k.destUserId);
    var participants := Elements(k.destUserId);
    if |participants| != |k.destUserId| {
      return false;
    }
    for i := 0 to |gs.participants|
      invariant forall j :: 0 <= j < i ==> gs.participants[j].userId in k.destUserId
    {
      if gs.participants[i].userId !in participants {
        return false;
      }
    }
    return true;
  }

  method TableOf(ps: seq<Participant>) returns (m: map<Member, Flags>)
    ensures m == FlagTable(ps)
  {
    m := map[];
    for i := 0 to |ps|
      invariant m == FlagTable(ps[..i])
    {
      m := m[MemberOf(ps[i]) := ps[i].Rights()];
      assert ps[..i + 1][..i] == ps[..i];
    }
    assert ps[..|ps|] == ps;
  }

  /** What a member gains over what it had. */
  function Gain(before: map<Member, Flags>, k: Member, flags: Flags): Flags {
    if k in before then flags - before[k] else flags
  }

  predicate MayTouch(before: map<Member, Flags>, k: Member, flags: Flags, permissions: Flags) {
    if k in before then flags == before[k] || (MayAddUsers(permissions) && MayRemoveUsers(permissions))
    else MayAddUsers(permissions)
  }

  lemma AllowedIsTouchAndGain(before: map<Member, Flags>, k: Member, flags: Flags, permissions: Flags)
    ensures MemberAllowed(before, k, flags, permissions) <==>
            && MayTouch(before, k, flags, permissions)
            && Gain(before, k, flags) <= permissions * ALL_PERMISSIONS
  {
    NothingOutside(Gain(before, k, flags), permissions * ALL_PERMISSIONS);
  }

  lemma NothingOutside(a: Flags, b: Flags)
    ensures a - b == {} <==> a <= b
  {
    assert forall x :: x in a - b <==> x in a && x !in b;
    assert a <= b ==> a - b == {};
  }

  /** The single mask of needed rights covers exactly the gains of the members looked at. */
  method NeededRights(before: map<Member, Flags>, after: map<Member, Flags>, permissions: Flags)
    returns (ok: bool, needed: Flags)
    ensures ok <==> forall k :: k in after ==> MayTouch(before, k, after[k], permissions)
    ensures ok ==> forall k :: k in after ==> Gain(before, k, after[k]) <= needed
    ensures ok ==> forall b :: b in needed ==> exists k :: k in after && b in Gain(before, k, after[k])
  {
    needed := {};
    var rest := after.Keys;
    while rest != {}
      invariant rest <= after.Keys
      invariant forall k :: k in after && k !in rest ==> MayTouch(before, k, after[k], permissions)
      invariant forall k :: k in after && k !in rest ==> Gain(before, k, after[k]) <= needed
      invariant forall b :: b in needed ==> exists k :: k in after && b in Gain(before, k, after[k])
      decreases |rest|
    {
      SomeMember(rest);
      var k :| k in rest;
      if !MayTouch(before, k, after[k], permissions) {
        return false, needed;
      }
      needed := needed + Gain(before, k, after[k]);
      rest := rest - {k};
    }
    ok := true;
  }

  method NobodyLostWithout(before: map<Member, Flags>, after: map<Member, Flags>, permissions: Flags) returns (ok: bool)
    ensures ok <==> forall k :: k in before && k !in after ==> MayRemoveUsers(permissions)
  {
    var rest := before.Keys;
    while rest != {}
      invariant rest <= before.Keys
      invariant forall k :: k in before && k !in rest && k !in after ==> MayRemoveUsers(permissions)
      decreases |rest|
    {
      SomeMember(rest);
      var k :| k in rest;
      if k !in after && !MayRemoveUsers(permissions) {
        return false;
      }
      rest := rest - {k};
    }
    ok := true;
  }

  // ---------------------------------------------------------------- state

  lemma {:induction false} FailedPrefixFails(l: Ledger, cs: seq<Change>, i: nat, signer: Bytes32, limit: Flags)
    requires i <= |cs| && ApplyChanges(l, cs[..i], signer, limit).None?
    ensures ApplyChanges(l, cs, signer, limit).None?
    decreases |cs|
  {
    if i == |cs| {
      assert cs[..i] == cs;
    } else {
      assert cs[..|cs| - 1][..i] == cs[..i];
      FailedPrefixFails(l, cs[..|cs| - 1], i, signer, limit);
    }
  }

  class State {
    var sharedKey: SharedKey
    var groupState: GroupState
    var kvHash: Bytes32
    var hasSetValue: bool
    var hasSharedKeyChange: bool
    var hasGroupStateChange: bool

    function Value(): Ledger
      reads this
    {
      Ledger(sharedKey, groupState, kvHash, hasSetValue, hasSharedKeyChange, hasGroupStateChange)
    }

    /** A copy of another state, given by its value. */
    constructor (l: Ledger)
      ensures Value() == l
    {
      sharedKey, groupState, kvHash := l.sharedKey, l.groupState, l.kvHash;
      hasSetValue, hasSharedKeyChange, hasGroupStateChange := l.hasSetValue, l.hasSharedKeyChange, l.hasGroupStateChange;
    }

    method InstallSharedKey(k: SharedKey, permissions: Flags) returns (ok: bool)
      modifies this`sharedKey
      ensures ok <==> old(sharedKey) == NO_KEY && MayChangeSharedKey(permissions) && ValidSharedKey(k, groupState)
      ensures sharedKey == if ok then k else old(sharedKey)
    {
      if sharedKey != NO_KEY || !MayChangeSharedKey(permissions) {
        return false;
      }
      ok := ValidateSharedKey(k, groupState);
      if ok {
        sharedKey := k;
      }
    }

    method ClearSharedKey(permissions: Flags) returns (ok: bool)
      modifies this`sharedKey
      ensures ok <==> MayChangeSharedKey(permissions)
      ensures sharedKey == if ok then NO_KEY else old(sharedKey)
    {
      ok := MayChangeSharedKey(permissions);
      if ok {
        sharedKey := NO_KEY;
      }
    }

    method ReplaceGroupState(gs: GroupState, permissions: Flags) returns (ok: bool)
      modifies this`groupState
      ensures ok <==> MaySetGroupState(old(groupState), gs, permissions)
      ensures groupState == if ok then gs else old(groupState)
    {
      var valid := ValidateGroupState(gs);
      if !valid {
        return false;
      }
      var before := TableOf(groupState.participants);
      var after := TableOf(gs.participants);
      if gs.externalPermissions - groupState.externalPermissions != {} {
        return false;
      }
      var kept := NobodyLostWithout(before, after, permissions);
      if !kept {
        return false;
      }
      var touched, needed := NeededRights(before, after, permissions);
      forall k | k in after
        ensures MemberAllowed(before, k, after[k], permissions) <==>
                MayTouch(before, k, after[k], permissions) && Gain(before, k, after[k]) <= permissions * ALL_PERMISSIONS
      {
        AllowedIsTouchAndGain(before, k, after[k], permissions);
      }
      if !touched || needed - permissions * ALL_PERMISSIONS != {} {
        return false;
      }
      groupState := gs;
      ok := true;
    }

    method ApplyChange(change: Change, signer: Bytes32, limit: Flags) returns (ok: bool)
      modifies this
      ensures ok <==> Spec.ApplyChange(old(Value()), change, signer, limit).Some?
      ensures ok ==> Value() == Spec.ApplyChange(old(Value()), change, signer, limit).value
    {
      match change
      case Noop(_) =>
        ok := true;
      case SetValue(_, _) =>
        hasSetValue := true;
        ok := true;
      case SetGroupState(gs) =>
        hasGroupStateChange := true;
        ok := ReplaceGroupState(gs, GetPermissions(groupState, signer, limit));
        if ok {
          ok := ClearSharedKey(GetPermissions(groupState, signer, limit));
        }
      case SetSharedKey(k) =>
        hasSharedKeyChange := true;
        ok := InstallSharedKey(k, GetPermissions(groupState, signer, limit));
    }

    method ApplyAll(changes: seq<Change>, signer: Bytes32, limit: Flags) returns (ok: bool)
      modifies this
      ensures ok <==> ApplyChanges(old(Value()), changes, signer, limit).Some?
      ensures ok ==> Value() == ApplyChanges(old(Value()), changes, signer, limit).value
    {
      for i := 0 to |changes|
        invariant ApplyChanges(old(Value()), changes[..i], signer, limit) == Some(Value())
      {
        ok := ApplyChange(changes[i], signer, limit);
        assert changes[..i + 1][..i] == changes[..i];
        if !ok {
          FailedPrefixFails(old(Value()), changes, i + 1, signer, limit);
          return;
        }
      }
      assert changes[..|changes|] == changes;
      ok := true;
    }

    method ValidateState(proof: StateProof) returns (ok: bool)
      ensures ok == ValidState(Value(), proof)
    {
      if proof.kvHash != kvHash || (!hasGroupStateChange && !hasSetValue) {
        return false;
      }
      if hasGroupStateChange && proof.groupState.Some? {
        return false;
      }
      if !hasGroupStateChange && (proof.groupState.None? || proof.groupState.value != groupState) {
        return false;
      }
      var omitted := hasGroupStateChange || hasSharedKeyChange;
      if omitted && proof.sharedKey.Some? {
        return false;
      }
      if !omitted && (proof.sharedKey.None? || proof.sharedKey.value != sharedKey) {
        return false;
      }
      ok := ValidateGroupState(groupState);
      if ok {
        ok := ValidateSharedKey(sharedKey, groupState);
      }
    }

    method Apply(env: Env, b: Block, checkSignature: bool, checkStateHash: bool, limit: Flags) returns (v: Verdict)
      modifies this
      ensures v == VerdictOf(ApplyBlock(env, old(Value()), b, checkSignature, checkStateHash, limit))
      ensures v == Accept ==>
                Value() == ApplyBlock(env, old(Value()), b, checkSignature, checkStateHash, limit).value
    {
      if b.height == 0 {
        groupState := OPEN_GROUP;
      }
      var signer := b.signaturePublicKey;
      if signer.None? && groupState != NO_GROUP {
        if groupState.participants == [] {
          return ReadsEmptyGroup;
        }
        signer := Some(groupState.participants[0].publicKey);
      }
      if signer.None? {
        return Reject;
      }
      if checkSignature && !env.p.verify(signer.value, DataToSign(env, b), b.signature) {
        return Reject;
      }
      hasSetValue, hasSharedKeyChange, hasGroupStateChange := false, false, false;
      var ok := ApplyAll(b.changes, signer.value, limit);
      if !ok {
        return Reject;
      }
      if !checkStateHash {
        kvHash := b.stateProof.kvHash;
      }
      ok := ValidateState(b.stateProof);
      v := if ok then Accept else Reject;
    }
  }

  // ---------------------------------------------------------------- blockchain

  class Blockchain {
    var state: State
    var lastBlock: Block
    var lastHash: Bytes32

    function Value(): Chain
      reads this, state
    {
      Chain(state.Value(), lastBlock, lastHash)
    }

    constructor Empty()
      ensures Value() == EMPTY_CHAIN && fresh(state)
    {
      state := new State(NEW_LEDGER);
      lastBlock := NO_BLOCK;
      lastHash := Zeros(32);
    }

    constructor Of(state: State, lastBlock: Block, lastHash: Bytes32)
      ensures this.state == state && Value() == Chain(state.Value(), lastBlock, lastHash)
    {
      this.state, this.lastBlock, this.lastHash := state, lastBlock, lastHash;
    }

    method TryApplyBlock(env: Env, b: Block, checkSignature: bool, checkStateHash: bool) returns (v: Verdict)
      modifies this
      ensures v == VerdictOf(TryApply(env, old(Value()), b, checkSignature, checkStateHash))
      ensures v == Accept ==>
                fresh(state) && Value() == TryApply(env, old(Value()), b, checkSignature, checkStateHash).value
      ensures v != Accept ==> state == old(state) && Value() == old(Value())
    {
      if b.height != lastBlock.height + 1 || lastBlock.height == INT32_MAX {
        return Reject;
      }
      if b.prevBlockHash != lastHash {
        return Reject;
      }
      var working := new State(state.Value());
      v := working.Apply(env, b, checkSignature, checkStateHash, ALL_PERMISSIONS);
      if v == Accept {
        state := working;
        lastHash := CalcHash(env, b);
        lastBlock := b;
      }
    }

    /** Drops from the proof what the changes already say, and marks the working copy with what they touched. */
    static method MarkAndProve(working: State, changes: seq<Change>) returns (proof: StateProof)
      modifies working
      ensures working.Value() == Marked(old(working.Value()), changes)
      ensures proof == ProofFor(old(working.Value()), changes)
    {
      proof := StateProof(working.kvHash, Some(working.groupState), Some(working.sharedKey));
      working.hasSetValue, working.hasGroupStateChange, working.hasSharedKeyChange := false, false, false;
      for i := 0 to |changes|
        invariant working.Value() == Marked(old(working.Value()), changes[..i])
        invariant proof == ProofFor(old(working.Value()), changes[..i])
      {
        MarksOfOneMore(changes[..i], changes[i]);
        assert changes[..i + 1] == changes[..i] + [changes[i]];
        match changes[i]
        case SetGroupState(_) =>
          proof := proof.(groupState := None, sharedKey := None);
          working.hasGroupStateChange := true;
        case SetSharedKey(_) =>
          proof := proof.(sharedKey := None);
          working.hasSharedKeyChange := true;
        case SetValue(_, _) =>
          working.hasSetValue := true;
        case Noop(_) =>
      }
      assert changes[..|changes|] == changes;
    }

    method BuildBlock(env: Env, changes: seq<Change>, key: Bytes32) returns (r: Option<Block>)
      ensures r == Spec.BuildBlock(env, Value(), changes, key)
    {
      var publicKey := env.p.publicKey(key);
      var working := new State(state.Value());
      if lastBlock.height == INT32_MAX {
        return None;
      }
      var height: int32 := lastBlock.height + 1;
      if height == 0 {
        working.groupState := OPEN_GROUP;
      }
      var ok := working.ApplyAll(changes, publicKey, ALL_PERMISSIONS);
      if !ok {
        return None;
      }
      var proof := MarkAndProve(working, changes);
      ok := working.ValidateState(proof);
      if !ok {
        return None;
      }
      var block := Block(Zeros(64), lastHash, changes, height, proof, Some(publicKey));
      r := Some(block.(signature := env.p.sign(key, DataToSign(env, block))));
    }

    static method CreateFromBlock(env: Env, b: Block) returns (r: Blockchain?)
      ensures r == null <==> Spec.CreateFromBlock(env, b).None?
      ensures r != null ==> fresh(r) && fresh(r.state) && Some(r.Value()) == Spec.CreateFromBlock(env, b)
    {
      if b.height < 0 {
        return null;
      }
      var joined := new State(NEW_LEDGER);
      if b.height == 0 {
        joined.groupState := OPEN_GROUP;
      }
      ghost var start := joined.Value();
      for i := 0 to |b.changes|
        invariant fresh(joined)
        invariant joined.Value() == Overlay(start, b.changes[..i])
      {
        assert b.changes[..i + 1][..i] == b.changes[..i];
        match b.changes[i]
        case SetGroupState(gs) =>
          joined.groupState := gs;
          joined.sharedKey := NO_KEY;
          joined.hasGroupStateChange := true;
        case SetSharedKey(k) =>
          joined.sharedKey := k;
          joined.hasSharedKeyChange := true;
        case SetValue(_, _) =>
          joined.hasSetValue := true;
        case Noop(_) =>
      }
      assert b.changes[..|b.changes|] == b.changes;
      if b.stateProof.groupState.Some? {
        joined.groupState := b.stateProof.groupState.value;
      }
      if b.stateProof.sharedKey.Some? {
        joined.sharedKey := b.stateProof.sharedKey.value;
      }
      joined.kvHash := b.stateProof.kvHash;
      var ok := joined.ValidateState(b.stateProof);
      if !ok {
        return null;
      }
      r := new Blockchain.Of(joined, b, CalcHash(env, b));
    }
  }

  /** One more block of a history: the replay goes on with what the chain makes of it, or ends there for good. */
  lemma ReplayOneMore(env: Env, history: seq<Block>, i: nat, c: Chain)
    requires i < |history| && Replay(env, history[..i]) == Some(c)
    ensures Receive(env, c, history[i]).Accepted? ==> Replay(env, history[..i + 1]) == Some(Receive(env, c, history[i]).value)
    ensures !Receive(env, c, history[i]).Accepted? ==> Replay(env, history) == None
  {
    hide Receive;
    assert history[..i + 1][..i] == history[..i];
    if !Receive(env, c, history[i]).Accepted? {
      assert history[..i + 1] + history[i + 1..] == history;
      ExtendConcat(env, Some(EMPTY_CHAIN), history[..i + 1], history[i + 1..]);
      NothingFromNone(env, history[i + 1..]);
    }
  }

  lemma NothingReplayed(env: Env, history: seq<Block>)
    ensures Replay(env, history[..0]) == Some(EMPTY_CHAIN)
  {
  }

  /** A founder who replays a whole history and a newcomer who starts from its last block hold equal objects. */
  method FounderAndNewcomer(env: Env, history: seq<Block>) returns (founder: Blockchain, newcomer: Blockchain?)
    requires history != []
    ensures Replay(env, history).Some? ==> newcomer != null && founder.Value() == newcomer.Value()
    ensures Replay(env, history).Some? ==> Replay(env, history) == Some(founder.Value())
  {
    hide Replay, ApplyBlock, Follows;
    founder := new Blockchain.Empty();
    assert Replay(env, history[..0]) == Some(EMPTY_CHAIN) by { NothingReplayed(env, history); }
    newcomer := Blockchain.CreateFromBlock(env, history[|history| - 1]);
    for i := 0 to |history|
      invariant fresh(founder) && fresh(founder.state)
      invariant newcomer != null ==> newcomer != founder && newcomer.state != founder.state
      invariant newcomer != null ==> Some(newcomer.Value()) == Spec.CreateFromBlock(env, history[|history| - 1])
      invariant Replay(env, history[..i]) == Some(founder.Value())
    {
      ReplayOneMore(env, history, i, founder.Value());
      var v := founder.TryApplyBlock(env, history[i], true, false);
      if v != Accept {
        return;
      }
    }
    assert history[..|history|] == history;
    SnapshotEqualsReplay(env, history);
  }
}
