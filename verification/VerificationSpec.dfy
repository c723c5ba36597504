/** One round of the fingerprint protocol: everyone commits to a nonce, then everyone reveals it. */
module VerificationSpec {
  import opened Common
  import opened Crypto
  import opened ChainSpec

  datatype Phase = Commit | Reveal | End

  datatype Broadcast =
    | NonceCommit(userId: int64, chainHeight: int32, chainHash: Bytes32, nonceHash: Bytes32, signature: Bytes64)
    | NonceReveal(userId: int64, chainHeight: int32, chainHash: Bytes32, nonce: Bytes32, signature: Bytes64)

  /** The primitives and the boxed codec of broadcasts; decoding also says whether the reader finished cleanly. */
  datatype Codec = Codec(p: Primitives, encode: Broadcast -> Binary, decode: Binary -> (Broadcast, bool))

  datatype Round = Round(
    hash: Bytes32, keys: map<int64, Bytes32>, phase: Phase,
    committed: map<int64, Bytes32>, revealed: map<int64, Bytes32>, emojiHash: Option<Bytes64>)

  function BroadcastToSign(c: Codec, m: Broadcast): Binary { c.encode(m.(signature := Zeros(64))) }

  /** The first entry of a user id counts. */
  function KeysOf(ps: seq<Participant>): map<int64, Bytes32> {
    if ps == [] then map[]
    else
      var m, last := KeysOf(ps[..|ps| - 1]), ps[|ps| - 1];
      if last.userId in m then m else m[last.userId := last.publicKey]
  }

  function NewRound(hash: Bytes32, ps: seq<Participant>): Round {
    Round(hash, KeysOf(ps), Commit, map[], map[], None)
  }

  // ---------------------------------------------------------------- the fingerprint

  /** Lexicographic order on bytes. */
  predicate AtMost(a: Binary, b: Binary) {
    a == [] || (b != [] && (a[0] < b[0] || (a[0] == b[0] && AtMost(a[1..], b[1..]))))
  }

  function Insert(x: Bytes32, s: seq<Bytes32>): seq<Bytes32> {
    if s == [] then [x]
    else if AtMost(x, s[0]) then [x] + s
    else [s[0]] + Insert(x, s[1..])
  }

  function Sort(s: seq<Bytes32>): seq<Bytes32> {
    if s == [] then [] else Insert(s[0], Sort(s[1..]))
  }

  function Concat(s: seq<Bytes32>): Binary {
    if s == [] then [] else s[0] + Concat(s[1..])
  }

  function NonceList(revealed: map<int64, Bytes32>): seq<Bytes32> {
    AscendingListsAll(revealed.Keys);
    var ids := Ascending(revealed.Keys);
    seq(|ids|, i requires 0 <= i < |ids| => assert ids[i] in revealed.Keys; var id: int64 := ids[i]; revealed[id])
  }

  function Fingerprint(p: Primitives, nonces: seq<Bytes32>, hash: Bytes32): Bytes64 {
    p.hmacSha512(Concat(Sort(nonces)), hash)
  }

  // ---------------------------------------------------------------- messages

  /** Signed by the participant it names, and about this block. */
  predicate Authentic(c: Codec, r: Round, m: Broadcast) {
    && m.chainHash == r.hash
    && m.userId in r.keys
    && c.p.verify(r.keys[m.userId], BroadcastToSign(c, m), m.signature)
  }

  function Committing(c: Codec, r: Round, m: Broadcast): (Round, bool)
    requires m.NonceCommit?
  {
    if r.phase != Commit || !Authentic(c, r, m) || m.userId in r.committed then (r, false)
    else
      var committed := r.committed[m.userId := m.nonceHash];
      (r.(committed := committed, phase := if |committed| == |r.keys| then Reveal else Commit), true)
  }

  function Revealing(c: Codec, r: Round, m: Broadcast): (Round, bool)
    requires m.NonceReveal?
  {
    if r.phase != Reveal || !Authentic(c, r, m) || m.userId in r.revealed then (r, false)
    else if m.userId !in r.committed || c.p.sha256(m.nonce) != r.committed[m.userId] then (r, false)
    else
      var revealed := r.revealed[m.userId := m.nonce];
      if |revealed| == |r.keys| then
        (r.(revealed := revealed, phase := End, emojiHash := Some(Fingerprint(c.p, NonceList(revealed), r.hash))), true)
      else (r.(revealed := revealed), true)
  }

  function Process(c: Codec, r: Round, m: Broadcast): (Round, bool) {
    if m.NonceCommit? then Committing(c, r, m) else Revealing(c, r, m)
  }

  function ProcessAll(c: Codec, r: Round, ms: seq<Broadcast>): Round {
    if ms == [] then r else Process(c, ProcessAll(c, r, ms[..|ms| - 1]), ms[|ms| - 1]).0
  }

  // ---------------------------------------------------------------- invariant

  /**
   * Commitments are complete once the commit phase is over, every nonce matches its commitment, and there is a
   * fingerprint exactly at the end, made of all nonces.
   */
  predicate Sound(c: Codec, r: Round) {
    && r.committed.Keys <= r.keys.Keys
    && r.revealed.Keys <= r.committed.Keys
    && (r.phase == Commit ==> r.revealed == map[] && (r.committed.Keys == r.keys.Keys ==> r.keys == map[]))
    && (r.phase != Commit ==> r.committed.Keys == r.keys.Keys && r.keys != map[])
    && (r.phase == End <==> r.phase != Commit && r.revealed.Keys == r.keys.Keys)
    && (forall u :: u in r.revealed ==> c.p.sha256(r.revealed[u]) == r.committed[u])
    && r.emojiHash == if r.phase == End then Some(Fingerprint(c.p, NonceList(r.revealed), r.hash)) else None
  }

  lemma NewRoundIsSound(c: Codec, hash: Bytes32, ps: seq<Participant>)
    ensures Sound(c, NewRound(hash, ps))
  {
  }

  /** A round only ever gains: commitments and nonces stay, commitments are frozen after their phase, the end is final. */
  predicate Advances(r: Round, r': Round) {
    && r'.hash == r.hash && r'.keys == r.keys
    && (r.phase != Commit ==> r'.committed == r.committed)
    && (forall u :: u in r.committed ==> u in r'.committed && r'.committed[u] == r.committed[u])
    && (forall u :: u in r.revealed ==> u in r'.revealed && r'.revealed[u] == r.revealed[u])
    && (r.phase != Commit ==> r'.phase != Commit)
    && (r.phase == End ==> r' == r)
  }

  lemma KeysAddedTo<V>(keys: map<int64, Bytes32>, m: map<int64, V>, u: int64, v: V)
    requires m.Keys <= keys.Keys && u in keys
    ensures m[u := v].Keys <= keys.Keys
    ensures |m[u := v]| == |keys| <==> m[u := v].Keys == keys.Keys
  {
    var more := m[u := v];
    assert |more| == |more.Keys| && |keys| == |keys.Keys|;
    if |more| == |keys| {
      SubsetOfEqualSize(more.Keys, keys.Keys);
    }
  }

  lemma CommittingKeepsSound(c: Codec, r: Round, m: Broadcast)
    requires Sound(c, r) && m.NonceCommit?
    ensures Sound(c, Committing(c, r, m).0) && Advances(r, Committing(c, r, m).0)
  {
    hide Fingerprint, NonceList, Authentic;
    if Committing(c, r, m).1 {
      assert m.userId in r.keys by { AuthenticIsListed(c, r, m); }
      KeysAddedTo(r.keys, r.committed, m.userId, m.nonceHash);
      assert m.userId in r.committed[m.userId := m.nonceHash];
    }
  }

  lemma AuthenticIsListed(c: Codec, r: Round, m: Broadcast)
    requires Authentic(c, r, m)
    ensures m.userId in r.keys
  {
  }

  lemma OneMoreNonce(c: Codec, r: Round, u: int64, nonce: Bytes32)
    requires Sound(c, r) && r.phase == Reveal && u in r.committed && c.p.sha256(nonce) == r.committed[u]
    requires |r.revealed[u := nonce]| != |r.keys|
    ensures Sound(c, r.(revealed := r.revealed[u := nonce]))
  {
    hide Fingerprint, NonceList;
    KeysAddedTo(r.keys, r.revealed, u, nonce);
  }

  lemma LastNonce(c: Codec, r: Round, u: int64, nonce: Bytes32)
    requires Sound(c, r) && r.phase == Reveal && u in r.committed && c.p.sha256(nonce) == r.committed[u]
    requires |r.revealed[u := nonce]| == |r.keys|
    ensures var revealed := r.revealed[u := nonce];
            Sound(c, r.(revealed := revealed, phase := End, emojiHash := Some(Fingerprint(c.p, NonceList(revealed), r.hash))))
  {
    hide Fingerprint, NonceList;
    KeysAddedTo(r.keys, r.revealed, u, nonce);
  }

  lemma RevealingKeepsSound(c: Codec, r: Round, m: Broadcast)
    requires Sound(c, r) && m.NonceReveal?
    ensures Sound(c, Revealing(c, r, m).0) && Advances(r, Revealing(c, r, m).0)
  {
    hide Fingerprint, NonceList, Authentic, Sound;
    if Revealing(c, r, m).1 {
      if |r.revealed[m.userId := m.nonce]| == |r.keys| {
        LastNonce(c, r, m.userId, m.nonce);
      } else {
        OneMoreNonce(c, r, m.userId, m.nonce);
      }
    }
  }

  lemma ProcessKeepsSound(c: Codec, r: Round, m: Broadcast)
    requires Sound(c, r)
    ensures Sound(c, Process(c, r, m).0) && Advances(r, Process(c, r, m).0)
    ensures r.phase == Commit ==> Process(c, r, m).0.phase != End
  {
    hide Fingerprint, NonceList, Authentic;
    if m.NonceCommit? {
      CommittingKeepsSound(c, r, m);
    } else {
      RevealingKeepsSound(c, r, m);
    }
  }

  lemma {:induction false} EveryRoundIsSound(c: Codec, r: Round, ms: seq<Broadcast>)
    requires Sound(c, r)
    ensures Sound(c, ProcessAll(c, r, ms)) && Advances(r, ProcessAll(c, r, ms))
    decreases |ms|
  {
    if ms != [] {
      var before := ProcessAll(c, r, ms[..|ms| - 1]);
      EveryRoundIsSound(c, r, ms[..|ms| - 1]);
      ProcessKeepsSound(c, before, ms[|ms| - 1]);
    }
  }

  // ---------------------------------------------------------------- agreement

  /** Two nonces that hash to one commitment. */
  ghost predicate TwoNonces(p: Primitives, a: map<int64, Bytes32>, b: map<int64, Bytes32>) {
    exists u :: u in a && u in b && Collision(p, a[u], b[u])
  }

  /** Whatever arrived and in whatever order: same block, participants and commitments give one fingerprint, or a collision. */
  lemma FingerprintsAgree(c: Codec, r: Round, s: Round, a: seq<Broadcast>, b: seq<Broadcast>)
    requires Sound(c, r) && Sound(c, s) && r.hash == s.hash && r.keys == s.keys
    requires ProcessAll(c, r, a).phase == End && ProcessAll(c, s, b).phase == End
    requires ProcessAll(c, r, a).committed == ProcessAll(c, s, b).committed
    ensures ProcessAll(c, r, a).emojiHash.Some?
    ensures || ProcessAll(c, r, a).emojiHash == ProcessAll(c, s, b).emojiHash
            || TwoNonces(c.p, ProcessAll(c, r, a).revealed, ProcessAll(c, s, b).revealed)
  {
    var r', s' := ProcessAll(c, r, a), ProcessAll(c, s, b);
    EveryRoundIsSound(c, r, a);
    EveryRoundIsSound(c, s, b);
    if r'.revealed != s'.revealed {
      var u := Difference(r'.revealed, s'.revealed);
      assert c.p.sha256(r'.revealed[u]) == c.p.sha256(s'.revealed[u]);
      assert Collision(c.p, r'.revealed[u], s'.revealed[u]);
    }
  }

  lemma SameEntries(a: map<int64, Bytes32>, b: map<int64, Bytes32>)
    requires a.Keys == b.Keys && forall u :: u in a ==> a[u] == b[u]
    ensures a == b
  {
  }

  lemma Difference(a: map<int64, Bytes32>, b: map<int64, Bytes32>) returns (u: int64)
    requires a.Keys == b.Keys && a != b
    ensures u in a && u in b && a[u] != b[u]
  {
    if forall u :: u in a ==> a[u] == b[u] {
      SameEntries(a, b);
    }
    u :| u in a && a[u] != b[u];
  }

  // ---------------------------------------------------------------- completion

  /** Everyone signs for one nonce only. */
  ghost predicate Genuine(c: Codec, r: Round, nonces: map<int64, Bytes32>, m: Broadcast) {
    Authentic(c, r, m) && m.userId in nonces ==>
      if m.NonceCommit? then m.nonceHash == c.p.sha256(nonces[m.userId]) else m.nonce == nonces[m.userId]
  }

  ghost predicate AllGenuine(c: Codec, r: Round, nonces: map<int64, Bytes32>, ms: seq<Broadcast>) {
    forall m :: m in ms ==> Genuine(c, r, nonces, m)
  }

  ghost predicate HasCommit(c: Codec, r: Round, ms: seq<Broadcast>, u: int64) {
    exists i :: 0 <= i < |ms| && ms[i].NonceCommit? && ms[i].userId == u && Authentic(c, r, ms[i])
  }

  ghost predicate HasReveal(c: Codec, r: Round, ms: seq<Broadcast>, u: int64) {
    exists i :: 0 <= i < |ms| && ms[i].NonceReveal? && ms[i].userId == u && Authentic(c, r, ms[i])
  }

  /** What has been taken in so far is what was signed for. */
  ghost predicate Honest(c: Codec, r: Round, nonces: map<int64, Bytes32>) {
    && r.keys.Keys == nonces.Keys
    && (forall u :: u in r.committed ==> u in nonces && r.committed[u] == c.p.sha256(nonces[u]))
    && (forall u :: u in r.revealed ==> u in nonces && r.revealed[u] == nonces[u])
  }

  lemma OneMoreCommit(c: Codec, r: Round, nonces: map<int64, Bytes32>, m: Broadcast)
    requires Sound(c, r) && Honest(c, r, nonces) && Genuine(c, r, nonces, m) && m.NonceCommit?
    ensures Honest(c, Process(c, r, m).0, nonces)
    ensures Authentic(c, r, m) ==> m.userId in Process(c, r, m).0.committed
  {
    hide Fingerprint, NonceList, Authentic;
    if Authentic(c, r, m) {
      AuthenticIsListed(c, r, m);
    }
  }

  /** Once all have committed everyone is on record, and at the end everyone has revealed. */
  lemma CompleteByPhase(c: Codec, r: Round, u: int64)
    requires Sound(c, r) && u in r.keys
    ensures r.phase != Commit ==> u in r.committed
    ensures r.phase == End ==> u in r.revealed
  {
    hide Fingerprint, NonceList;
  }

  lemma OneMoreReveal(c: Codec, r: Round, nonces: map<int64, Bytes32>, m: Broadcast)
    requires Sound(c, r) && Honest(c, r, nonces) && Genuine(c, r, nonces, m) && m.NonceReveal?
    ensures Honest(c, Process(c, r, m).0, nonces)
    ensures Authentic(c, r, m) && r.phase != Commit ==> m.userId in Process(c, r, m).0.revealed
  {
    hide Fingerprint, NonceList, Authentic, Sound;
    if Authentic(c, r, m) {
      AuthenticIsListed(c, r, m);
      CompleteByPhase(c, r, m.userId);
    }
  }

  lemma OneMoreGenuine(c: Codec, r: Round, nonces: map<int64, Bytes32>, m: Broadcast)
    requires Sound(c, r) && Honest(c, r, nonces) && Genuine(c, r, nonces, m)
    ensures var r' := Process(c, r, m).0;
            && Honest(c, r', nonces)
            && (m.NonceCommit? && Authentic(c, r, m) ==> m.userId in r'.committed)
            && (m.NonceReveal? && Authentic(c, r, m) && r.phase != Commit ==> m.userId in r'.revealed)
  {
    hide *;
    if m.NonceCommit? {
      OneMoreCommit(c, r, nonces, m);
    } else {
      OneMoreReveal(c, r, nonces, m);
    }
  }

  lemma AuthenticLater(c: Codec, r: Round, r': Round, nonces: map<int64, Bytes32>, m: Broadcast)
    requires r.hash == r'.hash && r.keys == r'.keys
    ensures Authentic(c, r, m) == Authentic(c, r', m) && Genuine(c, r, nonces, m) == Genuine(c, r', nonces, m)
  {
  }

  lemma {:induction false} HonestStays(c: Codec, r: Round, nonces: map<int64, Bytes32>, ms: seq<Broadcast>)
    requires Sound(c, r) && Honest(c, r, nonces) && AllGenuine(c, r, nonces, ms)
    ensures Honest(c, ProcessAll(c, r, ms), nonces)
    decreases |ms|
  {
    if ms != [] {
      var front, m := ms[..|ms| - 1], ms[|ms| - 1];
      var before := ProcessAll(c, r, front);
      assert forall x :: x in front ==> x in ms;
      assert Genuine(c, r, nonces, m) by { assert m in ms; }
      hide Sound, Honest, Genuine, Process;
      HonestStays(c, r, nonces, front);
      EveryRoundIsSound(c, r, front);
      AuthenticLater(c, r, before, nonces, m);
      OneMoreGenuine(c, before, nonces, m);
    }
  }

  /** An authentic message is in effect after any run that contains it, a reveal if commitments were complete before. */
  lemma {:induction false} MessageTakesEffect(c: Codec, r: Round, nonces: map<int64, Bytes32>, ms: seq<Broadcast>, i: nat)
    requires Sound(c, r) && Honest(c, r, nonces) && AllGenuine(c, r, nonces, ms)
    requires i < |ms| && Authentic(c, r, ms[i])
    ensures ms[i].NonceCommit? ==> ms[i].userId in ProcessAll(c, r, ms).committed
    ensures ms[i].NonceReveal? && r.phase != Commit ==> ms[i].userId in ProcessAll(c, r, ms).revealed
    decreases |ms|
  {
    hide *;
    var n := |ms| - 1;
    var front, m := ms[..n], ms[n];
    var before := ProcessAll(c, r, front);
    FrontIsGenuine(c, r, nonces, ms);
    LastIsProcessed(c, r, ms);
    EveryRoundIsSound(c, r, front);
    if i < n {
      assert front[i] == ms[i];
      MessageTakesEffect(c, r, nonces, front, i);
      ProcessKeepsSound(c, before, m);
      StaysInEffect(before, Process(c, before, m).0, ms[i].userId);
    } else {
      HonestStays(c, r, nonces, front);
      LastTakesEffect(c, r, nonces, before, m);
    }
  }

  lemma LastIsProcessed(c: Codec, r: Round, ms: seq<Broadcast>)
    requires ms != []
    ensures ProcessAll(c, r, ms) == Process(c, ProcessAll(c, r, ms[..|ms| - 1]), ms[|ms| - 1]).0
  {
  }

  lemma LastTakesEffect(c: Codec, r: Round, nonces: map<int64, Bytes32>, before: Round, m: Broadcast)
    requires Sound(c, before) && Honest(c, before, nonces) && Advances(r, before)
    requires Genuine(c, r, nonces, m) && Authentic(c, r, m)
    ensures m.NonceCommit? ==> m.userId in Process(c, before, m).0.committed
    ensures m.NonceReveal? && r.phase != Commit ==> m.userId in Process(c, before, m).0.revealed
  {
    hide *;
    StaysInEffect(r, before, m.userId);
    AuthenticLater(c, r, before, nonces, m);
    OneMoreGenuine(c, before, nonces, m);
  }

  lemma FrontIsGenuine(c: Codec, r: Round, nonces: map<int64, Bytes32>, ms: seq<Broadcast>)
    requires AllGenuine(c, r, nonces, ms) && ms != []
    ensures AllGenuine(c, r, nonces, ms[..|ms| - 1]) && Genuine(c, r, nonces, ms[|ms| - 1])
  {
    hide Genuine;
    assert forall x :: x in ms[..|ms| - 1] ==> x in ms;
    assert ms[|ms| - 1] in ms;
  }

  lemma StaysInEffect(r: Round, r': Round, u: int64)
    requires Advances(r, r')
    ensures r'.hash == r.hash && r'.keys == r.keys && (r.phase != Commit ==> r'.phase != Commit)
    ensures (u in r.committed ==> u in r'.committed) && (u in r.revealed ==> u in r'.revealed)
  {
  }

  lemma CommitsComplete(c: Codec, r: Round, nonces: map<int64, Bytes32>, commits: seq<Broadcast>)
    requires Sound(c, r) && Honest(c, r, nonces) && nonces != map[] && AllGenuine(c, r, nonces, commits)
    requires forall u :: u in nonces ==> HasCommit(c, r, commits, u)
    ensures ProcessAll(c, r, commits).phase != Commit
  {
    hide Authentic, Genuine;
    var middle := ProcessAll(c, r, commits);
    EveryRoundIsSound(c, r, commits);
    HonestStays(c, r, nonces, commits);
    forall u | u in nonces ensures u in middle.committed {
      assert HasCommit(c, r, commits, u);
      var i :| 0 <= i < |commits| && commits[i].NonceCommit? && commits[i].userId == u && Authentic(c, r, commits[i]);
      MessageTakesEffect(c, r, nonces, commits, i);
    }
    assert middle.committed.Keys == nonces.Keys;
  }

  lemma RevealsComplete(c: Codec, r: Round, nonces: map<int64, Bytes32>, shown: seq<Broadcast>)
    requires Sound(c, r) && Honest(c, r, nonces) && r.phase != Commit && AllGenuine(c, r, nonces, shown)
    requires forall u :: u in nonces ==> HasReveal(c, r, shown, u)
    ensures var end := ProcessAll(c, r, shown);
            && end.phase == End && end.revealed == nonces
            && end.emojiHash == Some(Fingerprint(c.p, NonceList(nonces), r.hash))
  {
    hide Authentic, Genuine, Fingerprint, NonceList;
    var end := ProcessAll(c, r, shown);
    EveryRoundIsSound(c, r, shown);
    HonestStays(c, r, nonces, shown);
    forall u | u in nonces ensures u in end.revealed {
      assert HasReveal(c, r, shown, u);
      var i :| 0 <= i < |shown| && shown[i].NonceReveal? && shown[i].userId == u && Authentic(c, r, shown[i]);
      MessageTakesEffect(c, r, nonces, shown, i);
    }
    assert end.revealed.Keys == nonces.Keys;
    assert end.revealed == nonces;
  }

  /**
   * If all commitments arrive before all reveals, in any order and among anything that is not signed for another
   * nonce, the round ends with the fingerprint of the nonces.
   */
  lemma HonestRoundCompletes(c: Codec, r: Round, nonces: map<int64, Bytes32>, commits: seq<Broadcast>, shown: seq<Broadcast>)
    requires Sound(c, r) && Honest(c, r, nonces) && nonces != map[]
    requires AllGenuine(c, r, nonces, commits) && AllGenuine(c, r, nonces, shown)
    requires forall u :: u in nonces ==> HasCommit(c, r, commits, u) && HasReveal(c, r, shown, u)
    ensures var end := ProcessAll(c, r, commits + shown);
            && end.phase == End && end.revealed == nonces
            && end.emojiHash == Some(Fingerprint(c.p, NonceList(nonces), r.hash))
  {
    var middle := ProcessAll(c, r, commits);
    EveryRoundIsSound(c, r, commits);
    CommitsComplete(c, r, nonces, commits);
    HonestStays(c, r, nonces, commits);
    forall m | m in shown ensures Genuine(c, middle, nonces, m) {
      AuthenticLater(c, r, middle, nonces, m);
      assert Genuine(c, r, nonces, m);
    }
    forall u | u in nonces ensures HasReveal(c, middle, shown, u) {
      StillRevealed(c, r, middle, nonces, shown, u);
    }
    RevealsComplete(c, middle, nonces, shown);
    ProcessConcat(c, r, commits, shown);
  }

  lemma StillRevealed(c: Codec, r: Round, r': Round, nonces: map<int64, Bytes32>, shown: seq<Broadcast>, u: int64)
    requires HasReveal(c, r, shown, u) && r.hash == r'.hash && r.keys == r'.keys
    ensures HasReveal(c, r', shown, u)
  {
    hide Authentic;
    var i :| 0 <= i < |shown| && shown[i].NonceReveal? && shown[i].userId == u && Authentic(c, r, shown[i]);
    AuthenticLater(c, r, r', nonces, shown[i]);
  }

  lemma {:induction false} ProcessConcat(c: Codec, r: Round, a: seq<Broadcast>, b: seq<Broadcast>)
    ensures ProcessAll(c, r, a + b) == ProcessAll(c, ProcessAll(c, r, a), b)
    decreases |b|
  {
    if b == [] {
      assert a + b == a;
    } else {
      assert (a + b)[..|a + b| - 1] == a + b[..|b| - 1];
      ProcessConcat(c, r, a, b[..|b| - 1]);
    }
  }

  // ---------------------------------------------------------------- when a round gets on

  /** A message that can open a round: a commitment signed by one of its participants. */
  predicate Commits(c: Codec, r: Round, m: Broadcast) { m.NonceCommit? && Authentic(c, r, m) }

  /** Commitments and nonces only come from authentic messages of those they are stored under. */
  lemma {:induction false} StoredCameFromMessages(c: Codec, r: Round, ms: seq<Broadcast>)
    requires Sound(c, r)
    ensures forall u :: u in ProcessAll(c, r, ms).committed && u !in r.committed ==> HasCommit(c, r, ms, u)
    ensures forall u :: u in ProcessAll(c, r, ms).revealed && u !in r.revealed ==> HasReveal(c, r, ms, u)
    decreases |ms|
  {
    hide Authentic, Sound, Fingerprint, NonceList;
    if ms != [] {
      var n := |ms| - 1;
      var front, m := ms[..n], ms[n];
      var before, after := ProcessAll(c, r, front), ProcessAll(c, r, ms);
      StoredCameFromMessages(c, r, front);
      EveryRoundIsSound(c, r, front);
      AuthenticLater(c, r, before, map[], m);
      forall u | u in after.committed && u !in r.committed ensures HasCommit(c, r, ms, u) {
        if u in before.committed {
          CommitStaysListed(c, r, ms, u);
        } else {
          assert ms[n].userId == u && Authentic(c, r, ms[n]);
        }
      }
      forall u | u in after.revealed && u !in r.revealed ensures HasReveal(c, r, ms, u) {
        if u in before.revealed {
          RevealStaysListed(c, r, ms, u);
        } else {
          assert ms[n].userId == u && Authentic(c, r, ms[n]);
        }
      }
    }
  }

  lemma CommitStaysListed(c: Codec, r: Round, ms: seq<Broadcast>, u: int64)
    requires ms != [] && HasCommit(c, r, ms[..|ms| - 1], u)
    ensures HasCommit(c, r, ms, u)
  {
    hide Authentic;
    var front := ms[..|ms| - 1];
    var i :| 0 <= i < |front| && front[i].NonceCommit? && front[i].userId == u && Authentic(c, r, front[i]);
    assert ms[i] == front[i];
  }

  lemma RevealStaysListed(c: Codec, r: Round, ms: seq<Broadcast>, u: int64)
    requires ms != [] && HasReveal(c, r, ms[..|ms| - 1], u)
    ensures HasReveal(c, r, ms, u)
  {
    hide Authentic;
    var front := ms[..|ms| - 1];
    var i :| 0 <= i < |front| && front[i].NonceReveal? && front[i].userId == u && Authentic(c, r, front[i]);
    assert ms[i] == front[i];
  }

  /** An authentic commitment is on record after any run that contains it, whoever else sent what. */
  lemma {:induction false} CommitIsRecorded(c: Codec, r: Round, ms: seq<Broadcast>, i: nat)
    requires Sound(c, r) && i < |ms| && Commits(c, r, ms[i])
    ensures ms[i].userId in ProcessAll(c, r, ms).committed
    decreases |ms|
  {
    hide Authentic, Fingerprint, NonceList;
    var n := |ms| - 1;
    var front, m := ms[..n], ms[n];
    var before := ProcessAll(c, r, front);
    EveryRoundIsSound(c, r, front);
    if i < n {
      assert front[i] == ms[i];
      CommitIsRecorded(c, r, front, i);
      ProcessKeepsSound(c, before, m);
    } else {
      AuthenticLater(c, r, before, map[], m);
      AuthenticIsListed(c, r, m);
    }
  }

  /** A new round leaves the commit phase exactly if every participant's commitment is among the messages. */
  lemma LeavesCommitExactly(c: Codec, hash: Bytes32, ps: seq<Participant>, ms: seq<Broadcast>)
    ensures var r := NewRound(hash, ps);
            ProcessAll(c, r, ms).phase != Commit <==> r.keys != map[] && forall u :: u in r.keys ==> HasCommit(c, r, ms, u)
  {
    hide Authentic, KeysOf;
    var r := NewRound(hash, ps);
    var end := ProcessAll(c, r, ms);
    NewRoundIsSound(c, hash, ps);
    EveryRoundIsSound(c, r, ms);
    StoredCameFromMessages(c, r, ms);
    forall u | u in r.keys && HasCommit(c, r, ms, u) ensures u in end.committed {
      var i :| 0 <= i < |ms| && ms[i].NonceCommit? && ms[i].userId == u && Authentic(c, r, ms[i]);
      CommitIsRecorded(c, r, ms, i);
    }
    if forall u :: u in r.keys ==> u in end.committed {
      assert end.committed.Keys == r.keys.Keys;
    }
  }

  /** Messages leave a new round as it is exactly if none of them is a commitment signed by a participant. */
  lemma NothingCountsExactly(c: Codec, hash: Bytes32, ps: seq<Participant>, ms: seq<Broadcast>)
    ensures var r := NewRound(hash, ps);
            ProcessAll(c, r, ms) == r <==> forall m :: m in ms ==> !Commits(c, r, m)
  {
    hide Authentic, KeysOf;
    var r := NewRound(hash, ps);
    NewRoundIsSound(c, hash, ps);
    if forall m :: m in ms ==> !Commits(c, r, m) {
      NothingCounts(c, r, ms);
    } else {
      var m :| m in ms && Commits(c, r, m);
      var i :| 0 <= i < |ms| && ms[i] == m;
      CommitIsRecorded(c, r, ms, i);
    }
  }

  lemma {:induction false} NothingCounts(c: Codec, r: Round, ms: seq<Broadcast>)
    requires r.phase == Commit && forall m :: m in ms ==> !Commits(c, r, m)
    ensures ProcessAll(c, r, ms) == r
    decreases |ms|
  {
    hide Authentic;
    if ms != [] {
      assert forall m :: m in ms[..|ms| - 1] ==> m in ms;
      assert ms[|ms| - 1] in ms;
      NothingCounts(c, r, ms[..|ms| - 1]);
    }
  }

  /** The first moment a round is out of the commit phase: nothing has been revealed then. */
  lemma {:induction false} CommitPhaseEnds(c: Codec, r: Round, ms: seq<Broadcast>) returns (k: nat)
    requires Sound(c, r) && r.phase == Commit && ProcessAll(c, r, ms).phase != Commit
    ensures k <= |ms| && ProcessAll(c, r, ms[..k]).phase == Reveal && ProcessAll(c, r, ms[..k]).revealed == map[]
    decreases |ms|
  {
    hide Authentic, Fingerprint, NonceList;
    var n := |ms| - 1;
    var front := ms[..n];
    EveryRoundIsSound(c, r, front);
    if ProcessAll(c, r, front).phase != Commit {
      k := CommitPhaseEnds(c, r, front);
      assert front[..k] == ms[..k];
    } else {
      k := |ms|;
      assert ms[..k] == ms;
      ProcessKeepsSound(c, ProcessAll(c, r, front), ms[n]);
    }
  }

  /** All commitments are among the first k messages, and all nonces among the others. */
  ghost predicate InTurn(c: Codec, r: Round, nonces: map<int64, Bytes32>, ms: seq<Broadcast>, k: int) {
    0 <= k <= |ms| && forall u :: u in nonces ==> HasCommit(c, r, ms[..k], u) && HasReveal(c, r, ms[k..], u)
  }

  /** Where everyone signs for one nonce, a round ends exactly if at some point all had committed and after it all reveal. */
  lemma RoundEndsExactly(c: Codec, r: Round, nonces: map<int64, Bytes32>, ms: seq<Broadcast>)
    requires Sound(c, r) && r.phase == Commit && r.committed == map[] && Honest(c, r, nonces) && nonces != map[]
    requires AllGenuine(c, r, nonces, ms)
    ensures ProcessAll(c, r, ms).phase == End <==> exists k :: InTurn(c, r, nonces, ms, k)
    ensures ProcessAll(c, r, ms).phase == End ==>
              && ProcessAll(c, r, ms).revealed == nonces
              && ProcessAll(c, r, ms).emojiHash == Some(Fingerprint(c.p, NonceList(nonces), r.hash))
  {
    hide *;
    if k :| InTurn(c, r, nonces, ms, k) {
      InTurnEnds(c, r, nonces, ms, k);
    }
    if ProcessAll(c, r, ms).phase == End {
      var k := CommitPhaseEnds(c, r, ms);
      SameKeys(c, r, nonces);
      EndedInTurn(c, r, nonces, ms, k);
      InTurnEnds(c, r, nonces, ms, k);
    }
  }

  lemma SameKeys(c: Codec, r: Round, nonces: map<int64, Bytes32>)
    requires Honest(c, r, nonces)
    ensures r.keys.Keys == nonces.Keys
  {
  }

  lemma InTurnEnds(c: Codec, r: Round, nonces: map<int64, Bytes32>, ms: seq<Broadcast>, k: int)
    requires Sound(c, r) && Honest(c, r, nonces) && nonces != map[]
    requires AllGenuine(c, r, nonces, ms) && InTurn(c, r, nonces, ms, k)
    ensures var end := ProcessAll(c, r, ms);
            && end.phase == End && end.revealed == nonces
            && end.emojiHash == Some(Fingerprint(c.p, NonceList(nonces), r.hash))
  {
    hide Genuine, Sound, Honest, Fingerprint, NonceList, HasCommit, HasReveal, ProcessAll;
    assert ms[..k] + ms[k..] == ms;
    assert forall m :: m in ms[..k] || m in ms[k..] ==> m in ms;
    HonestRoundCompletes(c, r, nonces, ms[..k], ms[k..]);
  }

  lemma EndedInTurn(c: Codec, r: Round, nonces: map<int64, Bytes32>, ms: seq<Broadcast>, k: nat)
    requires Sound(c, r) && r.committed == map[] && r.keys.Keys == nonces.Keys && k <= |ms|
    requires ProcessAll(c, r, ms).phase == End
    requires ProcessAll(c, r, ms[..k]).phase == Reveal && ProcessAll(c, r, ms[..k]).revealed == map[]
    ensures InTurn(c, r, nonces, ms, k)
  {
    hide Authentic, Sound, ProcessAll, Advances, HasCommit, HasReveal;
    var middle, end := ProcessAll(c, r, ms[..k]), ProcessAll(c, r, ms);
    assert ms[..k] + ms[k..] == ms;
    ProcessConcat(c, r, ms[..k], ms[k..]);
    EveryRoundIsSound(c, r, ms[..k]);
    EveryRoundIsSound(c, r, ms);
    StoredCameFromMessages(c, r, ms[..k]);
    StoredCameFromMessages(c, middle, ms[k..]);
    forall u | u in nonces ensures HasCommit(c, r, ms[..k], u) && HasReveal(c, r, ms[k..], u) {
      StaysInEffect(r, middle, u);
      StaysInEffect(r, end, u);
      CompleteByPhase(c, middle, u);
      CompleteByPhase(c, end, u);
      StillRevealed(c, middle, r, nonces, ms[k..], u);
    }
  }

  // ---------------------------------------------------------------- sorting is canonical

  lemma {:induction false} AtMostTotal(a: Binary, b: Binary)
    ensures AtMost(a, b) || AtMost(b, a)
    ensures AtMost(a, b) && AtMost(b, a) ==> a == b
  {
    if a != [] && b != [] && a[0] == b[0] {
      AtMostTotal(a[1..], b[1..]);
      assert a == [a[0]] + a[1..] && b == [b[0]] + b[1..];
    }
  }

  lemma {:induction false} AtMostTransitive(a: Binary, b: Binary, c: Binary)
    requires AtMost(a, b) && AtMost(b, c)
    ensures AtMost(a, c)
  {
    if a != [] && a[0] == b[0] == c[0] {
      AtMostTransitive(a[1..], b[1..], c[1..]);
    }
  }

  predicate IsSorted(s: seq<Bytes32>) {
    forall i, j :: 0 <= i < j < |s| ==> AtMost(s[i], s[j])
  }

  lemma {:induction false} InsertPermutes(x: Bytes32, s: seq<Bytes32>)
    ensures multiset(Insert(x, s)) == multiset(s) + multiset{x}
    ensures forall y :: y in Insert(x, s) ==> y == x || y in s
  {
    hide AtMost;
    if s != [] {
      assert s == [s[0]] + s[1..];
      InsertPermutes(x, s[1..]);
    }
  }

  lemma {:induction false} InsertSorted(x: Bytes32, s: seq<Bytes32>)
    requires IsSorted(s)
    ensures IsSorted(Insert(x, s))
  {
    hide AtMost;
    if s == [] {
    } else if AtMost(x, s[0]) {
      forall j | 0 < j < |s| ensures AtMost(x, s[j]) {
        AtMostTransitive(x, s[0], s[j]);
      }
    } else {
      var r := Insert(x, s[1..]);
      AtMostTotal(x, s[0]);
      InsertSorted(x, s[1..]);
      InsertPermutes(x, s[1..]);
      forall j | 0 <= j < |r| ensures AtMost(s[0], r[j]) {
        assert r[j] in r;
      }
    }
  }

  lemma {:induction false} SortSorts(s: seq<Bytes32>)
    ensures IsSorted(Sort(s)) && multiset(Sort(s)) == multiset(s)
  {
    if s != [] {
      assert s == [s[0]] + s[1..];
      SortSorts(s[1..]);
      InsertSorted(s[0], Sort(s[1..]));
      InsertPermutes(s[0], Sort(s[1..]));
    }
  }

  lemma {:induction false} SortedIsCanonical(s: seq<Bytes32>, t: seq<Bytes32>)
    requires IsSorted(s) && IsSorted(t) && multiset(s) == multiset(t)
    ensures s == t
  {
    assert |s| == |multiset(s)| == |multiset(t)| == |t|;
    if s != [] {
      assert s[0] in multiset(t) && t[0] in multiset(s);
      hide AtMost;
      LeastFirst(s, t[0]);
      LeastFirst(t, s[0]);
      AtMostTotal(s[0], t[0]);
      WithoutFirst(s);
      WithoutFirst(t);
      SortedIsCanonical(s[1..], t[1..]);
    }
  }

  lemma WithoutFirst(s: seq<Bytes32>)
    requires s != []
    ensures s == [s[0]] + s[1..] && multiset(s[1..]) == multiset(s) - multiset{s[0]}
    ensures IsSorted(s) ==> IsSorted(s[1..])
  {
    hide AtMost;
    assert s == [s[0]] + s[1..];
  }

  lemma LeastFirst(s: seq<Bytes32>, x: Bytes32)
    requires IsSorted(s) && x in s
    ensures AtMost(s[0], x)
  {
    AtMostTotal(x, x);
  }

  /** The fingerprint depends on which nonces there are, not on whose they are or how they were listed. */
  lemma FingerprintIsCanonical(p: Primitives, a: seq<Bytes32>, b: seq<Bytes32>, hash: Bytes32)
    requires multiset(a) == multiset(b)
    ensures Fingerprint(p, a, hash) == Fingerprint(p, b, hash)
  {
    SortSorts(a);
    SortSorts(b);
    SortedIsCanonical(Sort(a), Sort(b));
  }

  // ---------------------------------------------------------------- what a fingerprint is made of

  /** The order is that of the first byte in which two nonces differ. */
  lemma {:induction false} AtMostExactly(a: Binary, b: Binary)
    requires |a| == |b|
    ensures AtMost(a, b) <==> a == b || exists i :: FirstLess(a, b, i)
  {
    if a != [] {
      AtMostExactly(a[1..], b[1..]);
      assert a == [a[0]] + a[1..] && b == [b[0]] + b[1..];
      if a[0] == b[0] {
        FirstLessShifts(a, b);
      } else if a[0] < b[0] {
        assert FirstLess(a, b, 0);
      } else {
        forall i ensures !FirstLess(a, b, i) {
          assert 0 < i <= |a| ==> a[..i][0] == a[0] && b[..i][0] == b[0];
        }
      }
    }
  }

  predicate FirstLess(a: Binary, b: Binary, i: int)
    requires |a| == |b|
  {
    0 <= i < |a| && a[..i] == b[..i] && a[i] < b[i]
  }

  lemma FirstLessShifts(a: Binary, b: Binary)
    requires |a| == |b| && a != [] && a[0] == b[0]
    ensures (exists i :: FirstLess(a, b, i)) <==> (exists i :: FirstLess(a[1..], b[1..], i))
  {
    if i :| FirstLess(a, b, i) {
      assert i > 0 && a[1..][..i - 1] == a[..i][1..] && b[1..][..i - 1] == b[..i][1..];
      assert FirstLess(a[1..], b[1..], i - 1);
    }
    if i :| FirstLess(a[1..], b[1..], i) {
      assert a[..i + 1] == [a[0]] + a[1..][..i] && b[..i + 1] == [b[0]] + b[1..][..i];
      assert FirstLess(a, b, i + 1);
    }
  }

  /** The nonces one after the other, 32 bytes each. */
  predicate LaidOut(nonces: seq<Bytes32>, full: Binary) {
    && |full| == 32 * |nonces|
    && forall i :: 0 <= i < |nonces| ==> full[32 * i..32 * i + 32] == nonces[i]
  }

  lemma {:induction false} ConcatIsLaidOut(nonces: seq<Bytes32>)
    ensures LaidOut(nonces, Concat(nonces))
  {
    if nonces != [] {
      var first: Binary, rest: Binary := nonces[0], Concat(nonces[1..]);
      ConcatIsLaidOut(nonces[1..]);
      forall i | 0 <= i < |nonces| ensures (first + rest)[32 * i..32 * i + 32] == nonces[i] {
        if i > 0 {
          assert (first + rest)[32 * i..32 * i + 32] == rest[32 * (i - 1)..32 * (i - 1) + 32] == nonces[1..][i - 1];
        }
      }
    }
  }

  lemma LaidOutOnce(a: seq<Bytes32>, b: seq<Bytes32>, full: Binary)
    requires LaidOut(a, full) && LaidOut(b, full)
    ensures a == b
  {
  }

  function Revealers(revealed: map<int64, Bytes32>, x: Bytes32): set<int64> { set u | u in revealed && revealed[u] == x }

  /** Each value is listed as often as there are participants that revealed it. */
  ghost predicate ListsEveryNonce(nonces: seq<Bytes32>, revealed: map<int64, Bytes32>) {
    |nonces| == |revealed| && forall x: Bytes32 :: multiset(nonces)[x] == |Revealers(revealed, x)|
  }

  function KeysWith<K, V(==)>(m: map<K, V>, ks: seq<K>, x: V): set<K>
    requires forall k :: k in ks ==> k in m
  {
    set k | k in ks && m[k] == x
  }

  lemma CountSnoc<V>(front: seq<V>, last: V, x: V)
    ensures multiset(front + [last])[x] == multiset(front)[x] + if last == x then 1 else 0
  {
  }

  lemma KeysSnoc<K, V>(m: map<K, V>, front: seq<K>, last: K, x: V)
    requires last in m && last !in front && forall k :: k in front ==> k in m
    ensures |KeysWith(m, front + [last], x)| == |KeysWith(m, front, x)| + if m[last] == x then 1 else 0
  {
    assert KeysWith(m, front + [last], x) == KeysWith(m, front, x) + if m[last] == x then {last} else {};
  }

  lemma {:induction false} CountByKey<K, V>(m: map<K, V>, ks: seq<K>, vs: seq<V>, x: V)
    requires |ks| == |vs| && (forall k :: k in ks ==> k in m) && forall i :: 0 <= i < |ks| ==> vs[i] == m[ks[i]]
    requires forall i, j :: 0 <= i < j < |ks| ==> ks[i] != ks[j]
    ensures multiset(vs)[x] == |KeysWith(m, ks, x)|
    decreases |ks|
  {
    hide KeysWith;
    if ks == [] {
      NoKeys(m, x);
      assert vs == [];
    } else {
      var n := |ks| - 1;
      CountByKey(m, ks[..n], vs[..n], x);
      CountSnoc(vs[..n], vs[n], x);
      KeysSnoc(m, ks[..n], ks[n], x);
      assert vs == vs[..n] + [vs[n]] && ks == ks[..n] + [ks[n]];
    }
  }

  lemma NoKeys<K, V>(m: map<K, V>, x: V)
    ensures KeysWith(m, [], x) == {}
  {
  }

  lemma NonceListListsAll(revealed: map<int64, Bytes32>)
    ensures ListsEveryNonce(NonceList(revealed), revealed)
  {
    var ids := IdsOf(revealed);
    forall x: Bytes32 ensures multiset(NonceList(revealed))[x] == |Revealers(revealed, x)| {
      CountByKey(revealed, ids, NonceList(revealed), x);
      assert KeysWith(revealed, ids, x) == Revealers(revealed, x);
    }
  }

  lemma IdsOf(revealed: map<int64, Bytes32>) returns (ids: seq<int64>)
    ensures |ids| == |revealed| == |NonceList(revealed)| && forall u :: u in ids <==> u in revealed
    ensures forall i, j :: 0 <= i < j < |ids| ==> ids[i] != ids[j]
    ensures forall i :: 0 <= i < |ids| ==> NonceList(revealed)[i] == revealed[ids[i]]
  {
    AscendingListsAll(revealed.Keys);
    var all := Ascending(revealed.Keys);
    ids := seq<int64>(|all|, i requires 0 <= i < |all| => assert all[i] in revealed.Keys; var id: int64 := all[i]; id);
    assert |revealed| == |revealed.Keys|;
    forall u ensures u in ids <==> u in revealed {
      if u in revealed {
        var i :| 0 <= i < |all| && all[i] == u;
        assert ids[i] == u;
      }
    }
  }

  /** At its end a round has the digest, under its block hash, of all nonces in ascending order. */
  lemma FingerprintHoldsAllNonces(c: Codec, r: Round) returns (nonces: seq<Bytes32>, full: Binary)
    requires Sound(c, r) && r.phase == End
    ensures |nonces| == |r.keys| && IsSorted(nonces) && ListsEveryNonce(nonces, r.revealed)
    ensures LaidOut(nonces, full) && r.emojiHash == Some(c.p.hmacSha512(full, r.hash))
  {
    hide NonceList, AtMost;
    var list := NonceList(r.revealed);
    nonces := Sort(list);
    full := Concat(nonces);
    SortSorts(list);
    ConcatIsLaidOut(nonces);
    NonceListListsAll(r.revealed);
    assert |nonces| == |multiset(nonces)| == |multiset(list)| == |list|;
    assert |r.revealed| == |r.revealed.Keys| == |r.keys.Keys| == |r.keys|;
  }

  /** Two messages with one digest under one key. */
  ghost predicate OneHmac(p: Primitives, key: Bytes32) {
    exists x, y :: x != y && p.hmacSha512(x, key) == p.hmacSha512(y, key)
  }

  lemma SameRevealers(nonces: seq<Bytes32>, a: map<int64, Bytes32>, b: map<int64, Bytes32>)
    requires ListsEveryNonce(nonces, a) && ListsEveryNonce(nonces, b)
    ensures forall x: Bytes32 :: |Revealers(a, x)| == |Revealers(b, x)|
  {
    forall x: Bytes32 ensures |Revealers(a, x)| == |Revealers(b, x)| {
      assert multiset(nonces)[x] == |Revealers(a, x)|;
    }
  }

  /** Two ends with one fingerprint for one block saw the same nonces, or there are two messages with one digest. */
  lemma EqualFingerprintsMeanEqualNonces(c: Codec, r: Round, s: Round)
    requires Sound(c, r) && Sound(c, s) && r.phase == s.phase == End && r.hash == s.hash
    requires r.emojiHash == s.emojiHash
    ensures || OneHmac(c.p, r.hash)
            || forall x: Bytes32 :: |Revealers(r.revealed, x)| == |Revealers(s.revealed, x)|
  {
    hide Sound, IsSorted;
    var a, x := FingerprintHoldsAllNonces(c, r);
    var b, y := FingerprintHoldsAllNonces(c, s);
    if x == y {
      LaidOutOnce(a, b, x);
      SameRevealers(a, r.revealed, s.revealed);
    }
  }

  // ---------------------------------------------------------------- who is on record

  /** Each id stands for its first participant. */
  lemma {:induction false} KeysAreThoseOfTheFirst(ps: seq<Participant>, u: int64)
    ensures u in KeysOf(ps) <==> FindById(ps, u).Some?
    ensures u in KeysOf(ps) ==> KeysOf(ps)[u] == FindById(ps, u).value.publicKey
    decreases |ps|
  {
    if ps != [] {
      var front, last := ps[..|ps| - 1], ps[|ps| - 1];
      KeysAreThoseOfTheFirst(front, u);
      FindInFront(front, last, u);
      assert ps == front + [last];
    }
  }

  lemma {:induction false} FindInFront(front: seq<Participant>, last: Participant, u: int64)
    ensures FindById(front + [last], u) ==
            if FindById(front, u).Some? then FindById(front, u) else if last.userId == u then Some(last) else None
  {
    if front == [] {
      assert (front + [last])[1..] == [];
    } else {
      assert (front + [last])[1..] == front[1..] + [last];
      FindInFront(front[1..], last, u);
    }
  }

  /** About the block, and signed with a key over the whole message with zeros in the place of the signature. */
  predicate SignedBy(c: Codec, key: Bytes32, hash: Bytes32, m: Broadcast) {
    m.chainHash == hash && c.p.verify(key, c.encode(m.(signature := Zeros(64))), m.signature)
  }

  ghost predicate CommittedBy(c: Codec, r: Round, ms: seq<Broadcast>, u: int64, nonceHash: Bytes32) {
    && u in r.keys
    && exists m :: m in ms && m.NonceCommit? && m.userId == u && m.nonceHash == nonceHash && SignedBy(c, r.keys[u], r.hash, m)
  }

  ghost predicate RevealedBy(c: Codec, r: Round, ms: seq<Broadcast>, u: int64, nonce: Bytes32) {
    && u in r.keys
    && exists m :: m in ms && m.NonceReveal? && m.userId == u && m.nonce == nonce && SignedBy(c, r.keys[u], r.hash, m)
  }

  lemma {:induction false} RecordedWasSent(c: Codec, r: Round, ms: seq<Broadcast>)
    requires r.committed == map[] && r.revealed == map[]
    ensures var end := ProcessAll(c, r, ms);
            && end.hash == r.hash && end.keys == r.keys
            && (forall u :: u in end.committed ==> CommittedBy(c, r, ms, u, end.committed[u]))
            && (forall u :: u in end.revealed ==> RevealedBy(c, r, ms, u, end.revealed[u]))
    decreases |ms|
  {
    hide Fingerprint, NonceList, CommittedBy, RevealedBy;
    if ms != [] {
      var n := |ms| - 1;
      var before, end := ProcessAll(c, r, ms[..n]), ProcessAll(c, r, ms);
      RecordedWasSent(c, r, ms[..n]);
      forall u | u in end.committed ensures CommittedBy(c, r, ms, u, end.committed[u]) {
        OneMoreOnRecord(c, r, ms, u, end.committed[u]);
      }
      forall u | u in end.revealed ensures RevealedBy(c, r, ms, u, end.revealed[u]) {
        OneMoreOnRecord(c, r, ms, u, end.revealed[u]);
      }
    }
  }

  lemma OneMoreOnRecord(c: Codec, r: Round, ms: seq<Broadcast>, u: int64, value: Bytes32)
    requires ms != []
    ensures CommittedBy(c, r, ms[..|ms| - 1], u, value) ==> CommittedBy(c, r, ms, u, value)
    ensures RevealedBy(c, r, ms[..|ms| - 1], u, value) ==> RevealedBy(c, r, ms, u, value)
    ensures var m := ms[|ms| - 1];
            Authentic(c, r, m) && m.userId == u ==>
              && (m.NonceCommit? && m.nonceHash == value ==> CommittedBy(c, r, ms, u, value))
              && (m.NonceReveal? && m.nonce == value ==> RevealedBy(c, r, ms, u, value))
  {
    var m := ms[|ms| - 1];
    assert m in ms && forall x :: x in ms[..|ms| - 1] ==> x in ms;
    assert Authentic(c, r, m) ==> SignedBy(c, r.keys[m.userId], r.hash, m);
  }

  /** Whatever arrives in a round: all that is on record for an id was signed by the participant of that id. */
  lemma RecordedWasSigned(c: Codec, hash: Bytes32, ps: seq<Participant>, ms: seq<Broadcast>, u: int64)
    ensures var end := ProcessAll(c, NewRound(hash, ps), ms);
            && (u in end.committed ==>
                  && FindById(ps, u).Some?
                  && exists m :: && m in ms && m.NonceCommit? && m.userId == u && m.nonceHash == end.committed[u]
                                 && SignedBy(c, FindById(ps, u).value.publicKey, hash, m))
            && (u in end.revealed ==>
                  && FindById(ps, u).Some?
                  && exists m :: && m in ms && m.NonceReveal? && m.userId == u && m.nonce == end.revealed[u]
                                 && SignedBy(c, FindById(ps, u).value.publicKey, hash, m))
  {
    hide KeysOf, SignedBy;
    RecordedWasSent(c, NewRound(hash, ps), ms);
    KeysAreThoseOfTheFirst(ps, u);
  }
}
