/** Any number of threads pass a reading turn and an emitting turn around; all interleavings of their atomic steps. */
module ThreadedReader {
  import opened Common

  type Frame = Binary
  type Chunk = seq<Frame>

  /** Where a thread is, with the chunk it holds, that chunk's number c, and how many frames j of it are out. */
  datatype Pc =
    | Start | Top | WaitRead | Reading | Passing(data: Chunk)
    | Splitting(c: nat, data: Chunk) | WaitEmit(c: nat, data: Chunk) | Woken(c: nat, data: Chunk)
    | Emitting(c: nat, data: Chunk, j: nat) | Sending(c: nat, data: Chunk, j: nat, frame: Frame) | HandingOn(c: nat, data: Chunk, j: nat)
    | Leaving | Done
  {
    predicate Reads() { Reading? || Passing? }

    predicate Holds() { Splitting? || WaitEmit? || Woken? || Emits() }

    predicate Emits() { Emitting? || Sending? || HandingOn? }

    /** Registered and not yet gone. */
    predicate Counted() { !Start? && !Done? }
  }

  /** The shared fields, with everything read and emitted so far and how often each turn was passed on. */
  datatype State = State(
    pc: seq<Pc>, nextRead: nat, active: nat, running: bool, enabled: bool, count: int, eofs: nat,
    read: seq<Chunk>, emitted: seq<Frame>, passed: nat, handed: nat)
  {
    function N(): nat { |pc| }

    function Goes(i: nat, p: Pc): State
      requires i < N()
    {
      this.(pc := pc[i := p])
    }
  }

  function Initial(n: nat, enabled: bool): State {
    State(seq(n, _ => Start), 0, 0, true, enabled, 0, 0, [], [], 0, 0)
  }

  function Flatten(chunks: seq<Chunk>): seq<Frame> {
    if chunks == [] then [] else Flatten(chunks[..|chunks| - 1]) + chunks[|chunks| - 1]
  }

  // ---------------------------------------------------------------- steps

  /** Only the two waits can block. */
  predicate CanStep(s: State, i: nat) {
    && i < s.N()
    && match s.pc[i]
       case WaitRead => !s.running || s.nextRead == i
       case WaitEmit(_, _) => !s.running || (s.active == i && s.enabled)
       case Done => false
       case _ => true
  }

  function Stop(s: State, i: nat): State
    requires i < s.N()
  {
    s.Goes(i, Leaving).(running := false)
  }

  /** One atomic step of thread i; `result` is what reading or splitting yields, or nothing if it throws. */
  function Step(s: State, i: nat, result: Option<Chunk>): (s': State)
    requires CanStep(s, i)
    ensures s'.N() == s.N()
  {
    match s.pc[i]
    case Start => s.Goes(i, Top).(count := s.count + 1)
    case Top => s.Goes(i, if s.running then WaitRead else Leaving)
    case WaitRead => s.Goes(i, if s.running then Reading else Leaving)
    case Reading => if result.None? then Stop(s, i) else s.Goes(i, Passing(result.value)).(read := s.read + [result.value])
    case Passing(data) => s.Goes(i, Splitting(s.passed, data)).(nextRead := (s.nextRead + 1) % s.N(), passed := s.passed + 1)
    case Splitting(c, data) => if result.None? then Stop(s, i) else s.Goes(i, WaitEmit(c, data))
    case WaitEmit(c, data) => s.Goes(i, Woken(c, data))
    case Woken(c, data) => s.Goes(i, if s.running then Emitting(c, data, 0) else Leaving)
    case Emitting(c, data, j) =>
      s.Goes(i, if s.running && j < |data| then Sending(c, data, j, data[j]) else HandingOn(c, data, j))
    case Sending(c, data, j, frame) => s.Goes(i, Emitting(c, data, j + 1)).(emitted := s.emitted + [frame])
    case HandingOn(_, _, _) => s.Goes(i, Top).(active := (s.active + 1) % s.N(), handed := s.handed + 1)
    case Leaving => s.Goes(i, Done).(count := s.count - 1, eofs := if s.count == 1 then s.eofs + 1 else s.eofs)
  }

  datatype Event = Thread(i: nat, result: Option<Chunk>) | SetEnabled(on: bool) | Close

  predicate Possible(s: State, e: Event) {
    e.Thread? ==> CanStep(s, e.i)
  }

  function After(s: State, e: Event): State
    requires Possible(s, e)
  {
    match e
    case Thread(i, result) => Step(s, i, result)
    case SetEnabled(on) => s.(enabled := on)
    case Close => s.(running := false)
  }

  // ---------------------------------------------------------------- invariant

  /** The turns are where their counters say, and only the thread whose turn it is reads. */
  predicate Turns(s: State) {
    && s.N() > 0
    && s.nextRead == s.passed % s.N()
    && s.active == s.handed % s.N()
    && (forall i :: 0 <= i < s.N() && s.pc[i].Reads() ==> i == s.nextRead)
    && |s.read| == s.passed + (if s.pc[s.nextRead].Passing? then 1 else 0)
    && (s.pc[s.nextRead].Passing? ==> s.read[s.passed] == s.pc[s.nextRead].data)
    && (forall i :: 0 <= i < s.N() && s.pc[i].Holds() ==> s.pc[i].c < s.passed && s.read[s.pc[i].c] == s.pc[i].data)
  }

  /** Whoever emits is the thread whose turn it is, and is as far as what went out says. */
  predicate Emission(s: State) {
    && (forall i :: 0 <= i < s.N() && s.pc[i].Emits() ==> s.active == i && EmittedUpTo(s, s.pc[i].c, s.pc[i].j))
    && (forall i :: 0 <= i < s.N() && s.pc[i].Sending? ==> s.pc[i].j < |s.pc[i].data| && s.pc[i].frame == s.pc[i].data[s.pc[i].j])
    && s.emitted <= Flatten(s.read)
  }

  predicate EmittedUpTo(s: State, c: nat, j: nat) {
    c < |s.read| && j <= |s.read[c]| && s.emitted == Flatten(s.read[..c]) + s.read[c][..j]
  }

  /** While running: the chunks held are exactly those read and not handed on, each by the thread that read it. */
  predicate Buffered(s: State) {
    && s.N() > 0
    && s.handed <= s.passed <= s.handed + s.N()
    && (forall i :: 0 <= i < s.N() && s.pc[i].Holds() ==> s.handed <= s.pc[i].c && s.pc[i].c % s.N() == i)
    && (forall c :: s.handed <= c < s.passed ==> HeldByReader(s, c))
    && (forall i :: 0 <= i < s.N() ==> !s.pc[i].Leaving? && !s.pc[i].Done?)
  }

  predicate HeldByReader(s: State, c: nat)
    requires s.N() > 0
  {
    s.pc[c % s.N()].Holds() && s.pc[c % s.N()].c == c
  }

  /** While running: what went out are whole chunks, and the part of the one that is being emitted. */
  predicate InStep(s: State)
    requires s.active < s.N()
  {
    && (forall i :: 0 <= i < s.N() && s.pc[i].Woken? ==> s.active == i)
    && (forall i :: 0 <= i < s.N() && s.pc[i].HandingOn? ==> s.pc[i].j == |s.pc[i].data|)
    && (!s.pc[s.active].Emits() ==> s.handed <= |s.read| && s.emitted == Flatten(s.read[..s.handed]))
  }

  predicate Inv(s: State) {
    && Turns(s)
    && Emission(s)
    && (s.running ==> Buffered(s) && InStep(s))
  }

  // ---------------------------------------------------------------- arithmetic of turns

  lemma NextTurn(k: nat, n: nat)
    requires n > 0
    ensures (k + 1) % n == (k % n + 1) % n
  {
    var q, r := k / n, k % n;
    assert k == n * q + r;
    assert n * (q + 1) == n * q + n;
    if r == n - 1 {
      UniqueRemainder(k + 1, n, q + 1, 0);
      UniqueRemainder(n, n, 1, 0);
    } else {
      UniqueRemainder(k + 1, n, q, r + 1);
      UniqueRemainder(r + 1, n, 0, r + 1);
    }
  }

  lemma OneTurnPerRound(a: nat, b: nat, n: nat)
    requires n > 0 && a % n == b % n && a <= b < a + n
    ensures a == b
  {
    var qa, qb := a / n, b / n;
    assert a == n * qa + a % n && b == n * qb + b % n;
    if qa < qb {
      ScaleUp(n, qa + 1, qb);
    } else if qb < qa {
      ScaleUp(n, qb + 1, qa);
    }
  }

  lemma FlattenSnoc(chunks: seq<Chunk>, c: nat)
    requires c < |chunks|
    ensures Flatten(chunks[..c + 1]) == Flatten(chunks[..c]) + chunks[c]
  {
    assert chunks[..c + 1][..c] == chunks[..c];
  }

  lemma {:induction false} FlattenPrefix(chunks: seq<Chunk>, c: nat)
    requires c <= |chunks|
    ensures Flatten(chunks[..c]) <= Flatten(chunks)
    decreases |chunks|
  {
    if c == |chunks| {
      assert chunks[..c] == chunks;
    } else {
      assert chunks[..|chunks| - 1][..c] == chunks[..c];
      FlattenPrefix(chunks[..|chunks| - 1], c);
    }
  }

  // ---------------------------------------------------------------- one step keeps the invariant

  /** Thread i moves between places where it neither reads, holds nor leaves. */
  lemma IdleMove(s: State, i: nat, p: Pc)
    requires Inv(s) && i < s.N()
    requires !s.pc[i].Holds() && !s.pc[i].Passing? && (s.pc[i].Reading? ==> !p.Reads())
    requires p in {Top, WaitRead} || (p == Reading && s.nextRead == i) || (p in {Leaving, Done} && !s.running)
    ensures Inv(s.Goes(i, p))
  {
    var s' := s.Goes(i, p);
    if s.running {
      forall c | s.handed <= c < s.passed ensures HeldByReader(s', c) {
        assert HeldByReader(s, c);
      }
    }
  }

  lemma StopKeepsInv(s: State, i: nat)
    requires Inv(s) && i < s.N() && !s.pc[i].Emits() && !s.pc[i].Passing?
    ensures Inv(Stop(s, i))
  {
  }

  lemma ReadKeepsInv(s: State, i: nat, chunk: Chunk)
    requires Inv(s) && i < s.N() && s.pc[i].Reading?
    ensures Inv(s.Goes(i, Passing(chunk)).(read := s.read + [chunk]))
  {
    var s' := s.Goes(i, Passing(chunk)).(read := s.read + [chunk]);
    assert s'.read[..|s.read|] == s.read;
    FlattenPrefix(s'.read, |s.read|);
    forall c | 0 <= c <= |s.read| ensures s'.read[..c] == s.read[..c] {
    }
    if s.running {
      forall c | s.handed <= c < s.passed ensures HeldByReader(s', c) {
        assert HeldByReader(s, c);
      }
    }
  }

  function Passed(s: State, i: nat): State
    requires i < s.N() && s.pc[i].Passing?
  {
    s.Goes(i, Splitting(s.passed, s.pc[i].data)).(nextRead := (s.nextRead + 1) % s.N(), passed := s.passed + 1)
  }

  lemma PassKeepsTurns(s: State, i: nat)
    requires Turns(s) && Emission(s) && i < s.N() && s.pc[i].Passing?
    ensures Turns(Passed(s, i)) && Emission(Passed(s, i))
  {
    var s' := Passed(s, i);
    NextTurn(s.passed, s.N());
    assert forall k :: 0 <= k < s.N() && s'.pc[k].Reads() ==> s.pc[k].Reads() && k != i;
  }

  lemma PassKeepsBuffered(s: State, i: nat)
    requires Turns(s) && Buffered(s) && InStep(s) && i < s.N() && s.pc[i].Passing?
    ensures Buffered(Passed(s, i)) && InStep(Passed(s, i))
  {
    hide Flatten;
    var n := s.N();
    var s' := Passed(s, i);
    if s.passed == s.handed + n {
      assert HeldByReader(s, s.handed);
      UniqueRemainder(s.passed, n, s.handed / n + 1, s.handed % n);
    }
    forall c | s.handed <= c < s'.passed ensures HeldByReader(s', c) {
      if c < s.passed {
        assert HeldByReader(s, c);
      }
    }
  }

  /** Thread i moves on with the chunk it holds, short of emitting. */
  lemma HoldingMove(s: State, i: nat, p: Pc)
    requires Inv(s) && i < s.N() && s.pc[i].Holds() && !s.pc[i].Emits()
    requires p.Holds() && !p.Emits() && p.c == s.pc[i].c && p.data == s.pc[i].data
    requires p.Woken? && s.running ==> s.active == i
    ensures Inv(s.Goes(i, p))
  {
    var s' := s.Goes(i, p);
    if s.running {
      forall c | s.handed <= c < s.passed ensures HeldByReader(s', c) {
        assert HeldByReader(s, c);
      }
    }
  }

  lemma ActiveHoldsNext(s: State, i: nat)
    requires Inv(s) && s.running && i < s.N() && s.pc[i].Holds() && s.active == i
    ensures s.pc[i].c == s.handed < s.passed
  {
    OneTurnPerRound(s.handed, s.pc[i].c, s.N());
  }

  /** Thread i is past its wait for the emitting turn while still running: it starts on its chunk. */
  lemma StartEmittingKeepsInv(s: State, i: nat)
    requires Inv(s) && s.running && i < s.N() && s.pc[i].Woken?
    ensures Inv(s.Goes(i, Emitting(s.pc[i].c, s.pc[i].data, 0)))
  {
    var s' := s.Goes(i, Emitting(s.pc[i].c, s.pc[i].data, 0));
    ActiveHoldsNext(s, i);
    forall c | s.handed <= c < s.passed ensures HeldByReader(s', c) {
      assert HeldByReader(s, c);
    }
  }

  /** Thread i stays with the frame it is at. */
  lemma EmittingMove(s: State, i: nat, p: Pc)
    requires Inv(s) && i < s.N() && s.pc[i].Emitting?
    requires p.Emits() && p.c == s.pc[i].c && p.data == s.pc[i].data && p.j == s.pc[i].j
    requires p.Sending? ==> p.j < |p.data| && p.frame == p.data[p.j]
    requires p.HandingOn? && s.running ==> p.j == |p.data|
    ensures Inv(s.Goes(i, p))
  {
    var s' := s.Goes(i, p);
    assert EmittedUpTo(s, s.pc[i].c, s.pc[i].j);
    if s.running {
      forall c | s.handed <= c < s.passed ensures HeldByReader(s', c) {
        assert HeldByReader(s, c);
      }
    }
  }

  function Sent(s: State, i: nat): State
    requires i < s.N() && s.pc[i].Sending?
  {
    s.Goes(i, Emitting(s.pc[i].c, s.pc[i].data, s.pc[i].j + 1)).(emitted := s.emitted + [s.pc[i].frame])
  }

  lemma SendKeepsInv(s: State, i: nat)
    requires Inv(s) && i < s.N() && s.pc[i].Sending?
    ensures Inv(Sent(s, i))
  {
    hide Flatten;
    var s', c, j := Sent(s, i), s.pc[i].c, s.pc[i].j;
    assert EmittedUpTo(s, c, j);
    assert s.read[c][..j + 1] == s.read[c][..j] + [s.read[c][j]];
    assert s'.emitted == Flatten(s.read[..c]) + s.read[c][..j + 1];
    FlattenSnoc(s.read, c);
    FlattenPrefix(s.read, c + 1);
    assert s'.emitted <= Flatten(s.read[..c + 1]);
    if s.running {
      forall c | s.handed <= c < s.passed ensures HeldByReader(s', c) {
        assert HeldByReader(s, c);
      }
    }
  }

  function HandedOn(s: State, i: nat): State
    requires i < s.N()
  {
    s.Goes(i, Top).(active := (s.active + 1) % s.N(), handed := s.handed + 1)
  }

  lemma HandOnKeepsTurns(s: State, i: nat)
    requires Turns(s) && Emission(s) && i < s.N() && s.pc[i].HandingOn?
    ensures Turns(HandedOn(s, i)) && Emission(HandedOn(s, i))
  {
    NextTurn(s.handed, s.N());
    assert forall k :: 0 <= k < s.N() && k != i ==> !s.pc[k].Emits();
  }

  lemma HandOnKeepsBuffered(s: State, i: nat)
    requires Inv(s) && s.running && i < s.N() && s.pc[i].HandingOn?
    ensures Buffered(HandedOn(s, i)) && InStep(HandedOn(s, i))
  {
    var s' := HandedOn(s, i);
    ActiveHoldsNext(s, i);
    NextTurn(s.handed, s.N());
    FlattenSnoc(s.read, s.handed);
    assert EmittedUpTo(s, s.handed, s.pc[i].j);
    assert s.read[s.handed][..s.pc[i].j] == s.read[s.handed];
    forall c | s'.handed <= c < s.passed ensures HeldByReader(s', c) {
      assert HeldByReader(s, c);
    }
    forall k | 0 <= k < s.N() && s'.pc[k].Holds() ensures s'.handed <= s'.pc[k].c && !s'.pc[k].Woken? && !s'.pc[k].Emits() {
      assert k != i && s.pc[k].Holds();
    }
  }

  // ---------------------------------------------------------------- every interleaving

  lemma {:induction false} InitialInv(n: nat, enabled: bool)
    requires n > 0
    ensures Inv(Initial(n, enabled))
  {
  }

  lemma WaitingStep(s: State, i: nat)
    requires Inv(s) && CanStep(s, i) && (s.pc[i].WaitEmit? || s.pc[i].Woken?)
    ensures Inv(Step(s, i, None))
  {
    if s.pc[i].WaitEmit? {
      HoldingMove(s, i, Woken(s.pc[i].c, s.pc[i].data));
    } else if s.running {
      StartEmittingKeepsInv(s, i);
    } else {
      LeaveWithChunk(s, i);
    }
  }

  lemma LeaveWithChunk(s: State, i: nat)
    requires Inv(s) && !s.running && i < s.N() && s.pc[i].Woken?
    ensures Inv(s.Goes(i, Leaving))
  {
  }

  lemma CountsDoNotMatter(s: State, count: int, eofs: nat)
    requires Inv(s)
    ensures Inv(s.(count := count, eofs := eofs))
  {
    var s' := s.(count := count, eofs := eofs);
    if s.running {
      forall c | s.handed <= c < s.passed ensures HeldByReader(s', c) {
        assert HeldByReader(s, c);
      }
    }
  }

  lemma StepKeepsInv(s: State, i: nat, result: Option<Chunk>)
    requires Inv(s) && CanStep(s, i)
    ensures Inv(Step(s, i, result))
  {
    hide Turns, Emission, InStep, Flatten;
    match s.pc[i]
    case Start =>
      IdleMove(s, i, Top);
      CountsDoNotMatter(s.Goes(i, Top), s.count + 1, s.eofs);
    case Top => IdleMove(s, i, if s.running then WaitRead else Leaving);
    case WaitRead => IdleMove(s, i, if s.running then Reading else Leaving);
    case Reading => if result.None? { StopKeepsInv(s, i); } else { ReadKeepsInv(s, i, result.value); }
    case Passing(_) => PassKeepsInv(s, i);
    case Splitting(c, data) => if result.None? { StopKeepsInv(s, i); } else { HoldingMove(s, i, WaitEmit(c, data)); }
    case WaitEmit(_, _) => WaitingStep(s, i);
    case Woken(_, _) => WaitingStep(s, i);
    case Emitting(_, _, _) => EmittingStep(s, i);
    case Sending(_, _, _, _) => SendKeepsInv(s, i);
    case HandingOn(_, _, _) => HandOnKeepsInv(s, i);
    case Leaving =>
      LeavingMeansStopped(s, i);
      IdleMove(s, i, Done);
      CountsDoNotMatter(s.Goes(i, Done), s.count - 1, if s.count == 1 then s.eofs + 1 else s.eofs);
  }

  lemma LeavingMeansStopped(s: State, i: nat)
    requires Inv(s) && i < s.N() && s.pc[i].Leaving?
    ensures !s.running
  {
  }

  lemma PassKeepsInv(s: State, i: nat)
    requires Inv(s) && i < s.N() && s.pc[i].Passing?
    ensures Inv(Passed(s, i))
  {
    hide Turns, Emission, Buffered, InStep;
    PassKeepsTurns(s, i);
    if s.running {
      PassKeepsBuffered(s, i);
    }
  }

  lemma HandOnKeepsInv(s: State, i: nat)
    requires Inv(s) && i < s.N() && s.pc[i].HandingOn?
    ensures Inv(HandedOn(s, i))
  {
    hide Turns, Emission, Buffered, InStep;
    HandOnKeepsTurns(s, i);
    if s.running {
      HandOnKeepsBuffered(s, i);
    }
  }

  lemma EmittingStep(s: State, i: nat)
    requires Inv(s) && i < s.N() && s.pc[i].Emitting?
    ensures Inv(Step(s, i, None))
  {
    var c, data, j := s.pc[i].c, s.pc[i].data, s.pc[i].j;
    assert EmittedUpTo(s, c, j);
    EmittingMove(s, i, if s.running && j < |data| then Sending(c, data, j, data[j]) else HandingOn(c, data, j));
  }

  /** States reached by a sequence of events, each of them possible when it happens. */
  ghost predicate Reaches(s: State, events: seq<Event>, s': State)
    decreases |events|
  {
    if events == [] then s == s'
    else Possible(s, events[0]) && Reaches(After(s, events[0]), events[1..], s')
  }

  lemma EventKeepsInv(s: State, e: Event)
    requires Inv(s) && Possible(s, e)
    ensures Inv(After(s, e)) && After(s, e).N() == s.N()
  {
    hide Inv, CanStep, Step;
    match e
    case Thread(i, result) => StepKeepsInv(s, i, result);
    case SetEnabled(on) => EnablingKeepsInv(s, on);
    case Close => ClosingKeepsInv(s);
  }

  lemma ClosingKeepsInv(s: State)
    requires Inv(s)
    ensures Inv(s.(running := false))
  {
  }

  lemma EnablingKeepsInv(s: State, on: bool)
    requires Inv(s)
    ensures Inv(s.(enabled := on))
  {
    var s' := s.(enabled := on);
    if s.running {
      forall c | s.handed <= c < s.passed ensures HeldByReader(s', c) {
        assert HeldByReader(s, c);
      }
    }
  }

  lemma {:induction false} EveryReachableStateIsOrdered(s: State, events: seq<Event>, s': State)
    requires Inv(s) && Reaches(s, events, s')
    ensures Inv(s') && s'.N() == s.N()
    decreases |events|
  {
    if events != [] {
      EventKeepsInv(s, events[0]);
      EveryReachableStateIsOrdered(After(s, events[0]), events[1..], s');
    }
  }

  /** Never two readers nor two emitters, and what went out is the beginning of what was read, frame by frame. */
  lemma OneReaderOneEmitter(n: nat, enabled: bool, events: seq<Event>, s: State, i: nat, k: nat)
    requires n > 0 && Reaches(Initial(n, enabled), events, s) && i < n && k < n
    ensures s.N() == n
    ensures s.pc[i].Reads() && s.pc[k].Reads() ==> i == k
    ensures s.pc[i].Emits() && s.pc[k].Emits() ==> i == k
    ensures s.emitted <= Flatten(s.read)
  {
    InitialInv(n, enabled);
    EveryReachableStateIsOrdered(Initial(n, enabled), events, s);
  }

  /** While running, the chunks in the threads' hands are exactly those from the handed-on count to the read count. */
  lemma BufferIsTheGap(n: nat, enabled: bool, events: seq<Event>, s: State, c: nat)
    requires n > 0 && Reaches(Initial(n, enabled), events, s) && s.running
    ensures s.N() == n && s.handed <= s.passed <= s.handed + n
    ensures s.handed <= c < s.passed <==> exists i :: 0 <= i < n && s.pc[i].Holds() && s.pc[i].c == c
    ensures forall i, k :: 0 <= i < n && 0 <= k < n && s.pc[i].Holds() && s.pc[k].Holds() && s.pc[i].c == s.pc[k].c ==> i == k
    ensures forall i :: 0 <= i < n && s.pc[i].Holds() ==> s.pc[i].c < |s.read| && s.pc[i].data == s.read[s.pc[i].c]
  {
    InitialInv(n, enabled);
    EveryReachableStateIsOrdered(Initial(n, enabled), events, s);
    if s.handed <= c < s.passed {
      assert HeldByReader(s, c);
      var i := c % n;
      assert s.pc[i].Holds() && s.pc[i].c == c;
    }
  }

  /** While running and enabled there is always a thread that can go on. */
  lemma NeverDeadlocks(n: nat, enabled: bool, events: seq<Event>, s: State)
    requires n > 0 && Reaches(Initial(n, enabled), events, s) && s.running && s.enabled
    ensures exists i :: CanStep(s, i)
  {
    InitialInv(n, enabled);
    EveryReachableStateIsOrdered(Initial(n, enabled), events, s);
    if s.handed < s.passed {
      assert HeldByReader(s, s.handed);
      assert CanStep(s, s.active);
    } else {
      assert !s.pc[s.nextRead].Holds();
      assert CanStep(s, s.nextRead);
    }
  }

  // ---------------------------------------------------------------- end of file

  function CountedThreads(pc: seq<Pc>): set<int> {
    set i | 0 <= i < |pc| && pc[i].Counted()
  }

  /** The counter counts, and the end is signalled by whoever leaves last, never while running. */
  predicate EofInv(s: State) {
    && s.count == |CountedThreads(s.pc)|
    && (s.eofs > 0 ==> !s.running)
    && ((exists i :: 0 <= i < s.N() && s.pc[i].Done?) ==> s.eofs > 0 || s.count > 0)
  }

  lemma SameCount(s: State, i: nat, p: Pc)
    requires i < s.N() && s.pc[i].Counted() && p.Counted()
    ensures CountedThreads(s.Goes(i, p).pc) == CountedThreads(s.pc)
  {
  }

  lemma OneMoreCounted(s: State, i: nat, p: Pc)
    requires i < s.N() && !s.pc[i].Counted() && p.Counted()
    ensures |CountedThreads(s.Goes(i, p).pc)| == |CountedThreads(s.pc)| + 1
  {
    assert CountedThreads(s.Goes(i, p).pc) == CountedThreads(s.pc) + {i};
  }

  lemma OneFewerCounted(s: State, i: nat)
    requires i < s.N() && s.pc[i].Counted()
    ensures |CountedThreads(s.Goes(i, Done).pc)| == |CountedThreads(s.pc)| - 1
  {
    assert CountedThreads(s.Goes(i, Done).pc) == CountedThreads(s.pc) - {i};
    assert i in CountedThreads(s.pc);
  }

  lemma StepKeepsEof(s: State, i: nat, result: Option<Chunk>)
    requires Inv(s) && EofInv(s) && CanStep(s, i)
    ensures EofInv(Step(s, i, result))
  {
    hide Inv, CountedThreads;
    var s' := Step(s, i, result);
    if s.pc[i].Start? {
      OneMoreCounted(s, i, Top);
    } else if s.pc[i].Leaving? {
      LeavingMeansStopped(s, i);
      OneFewerCounted(s, i);
    } else {
      assert s'.pc == s.Goes(i, s'.pc[i]).pc;
      SameCount(s, i, s'.pc[i]);
    }
  }

  lemma {:induction false} EveryReachableStateCounts(s: State, events: seq<Event>, s': State)
    requires Inv(s) && EofInv(s) && Reaches(s, events, s')
    ensures EofInv(s')
    decreases |events|
  {
    hide Inv;
    if events != [] {
      var e := events[0];
      EventKeepsInv(s, e);
      if e.Thread? {
        StepKeepsEof(s, e.i, e.result);
      }
      EveryReachableStateCounts(After(s, e), events[1..], s');
    }
  }

  /** The end is never signalled while running, and has been signalled once every thread is gone. */
  lemma EofIsSignalled(n: nat, enabled: bool, events: seq<Event>, s: State)
    requires n > 0 && Reaches(Initial(n, enabled), events, s)
    ensures s.N() == n && (s.eofs > 0 ==> !s.running)
    ensures (forall i :: 0 <= i < n ==> s.pc[i].Done?) ==> s.eofs > 0
  {
    var start := Initial(n, enabled);
    InitialInv(n, enabled);
    assert CountedThreads(start.pc) == {};
    EveryReachableStateCounts(start, events, s);
    EveryReachableStateIsOrdered(start, events, s);
    if forall i :: 0 <= i < n ==> s.pc[i].Done? {
      assert CountedThreads(s.pc) == {};
      assert s.pc[0].Done?;
    }
  }

  // ---------------------------------------------------------------- how often the end is signalled

  lemma {:induction false} ReachesConcat(s: State, a: seq<Event>, m: State, b: seq<Event>, end: State)
    requires Reaches(s, a, m) && Reaches(m, b, end)
    ensures Reaches(s, a + b, end)
    decreases |a|
  {
    if a == [] {
      assert a + b == b;
    } else {
      ReachesConcat(After(s, a[0]), a[1..], m, b, end);
      assert (a + b)[0] == a[0] && (a + b)[1..] == a[1..] + b;
    }
  }

  lemma NoStep(s: State)
    ensures Reaches(s, [], s)
  {
  }

  lemma OneStep(s: State, e: Event, rest: seq<Event>, end: State)
    requires Possible(s, e) && Reaches(After(s, e), rest, end)
    ensures Reaches(s, [e] + rest, end)
  {
    assert ([e] + rest)[1..] == rest;
  }

  /** How many steps a thread is from its end once the reader has stopped and reads and splits throw. */
  function StepsLeft(p: Pc): nat {
    match p
    case Done => 0
    case Leaving => 1
    case Top => 2
    case WaitRead => 2
    case Reading => 2
    case Splitting(_, _) => 2
    case Woken(_, _) => 2
    case Start => 3
    case Passing(_) => 3
    case WaitEmit(_, _) => 3
    case HandingOn(_, _, _) => 3
    case Emitting(_, _, _) => 4
    case Sending(_, _, _, _) => 5
  }

  lemma StoppedStep(s: State, i: nat)
    requires !s.running && i < s.N() && !s.pc[i].Done?
    ensures CanStep(s, i)
    ensures var s' := Step(s, i, None);
            && !s'.running && s'.pc == s.pc[i := s'.pc[i]]
            && StepsLeft(s'.pc[i]) < StepsLeft(s.pc[i])
            && (if s.pc[i].Leaving? then
                  s'.pc[i].Done? && s'.count == s.count - 1 && s'.eofs == s.eofs + (if s.count == 1 then 1 else 0)
                else
                  && !s'.pc[i].Done? && s'.eofs == s.eofs
                  && s'.count == s.count + (if s.pc[i].Start? then 1 else 0)
                  && !s'.pc[i].Start?)
  {
  }

  /** Once stopped, any thread can go on to its end alone, and signals if it is the only one registered then. */
  lemma {:induction false} ThreadFinishes(s: State, i: nat) returns (events: seq<Event>, end: State)
    requires !s.running && i < s.N() && !s.pc[i].Done?
    ensures Reaches(s, events, end)
    ensures !end.running && end.pc == s.pc[i := Done]
    ensures var others := if s.pc[i].Start? then s.count else s.count - 1;
            end.count == others && end.eofs == s.eofs + (if others == 0 then 1 else 0)
    decreases StepsLeft(s.pc[i])
  {
    var e := Thread(i, None);
    StoppedStep(s, i);
    var m := Step(s, i, None);
    assert Possible(s, e) && After(s, e) == m;
    hide Reaches, Step, StepsLeft;
    if s.pc[i].Leaving? {
      end := m;
      NoStep(end);
      OneStep(s, e, [], end);
      events := [e] + [];
    } else {
      var rest;
      rest, end := ThreadFinishes(m, i);
      OneStep(s, e, rest, end);
      events := [e] + rest;
    }
  }

  lemma NobodyCounted(pc: seq<Pc>)
    requires forall k :: 0 <= k < |pc| ==> !pc[k].Counted()
    ensures CountedThreads(pc) == {}
  {
  }

  lemma AtLeastOneCounted(pc: seq<Pc>, i: nat)
    requires i < |pc| && pc[i].Counted()
    ensures |CountedThreads(pc)| > 0
  {
    assert i in CountedThreads(pc);
  }

  lemma SomeoneCounted(s: State) returns (i: nat)
    requires s.count == |CountedThreads(s.pc)| && s.count > 0
    ensures i < s.N() && s.pc[i].Counted()
  {
    if forall k :: 0 <= k < s.N() ==> !s.pc[k].Counted() {
      NobodyCounted(s.pc);
    }
    i :| 0 <= i < s.N() && s.pc[i].Counted();
  }

  /** Once stopped, a thread that is not gone can always bring about one more signal. */
  lemma {:induction false} OneMoreSignal(s: State, i: nat) returns (events: seq<Event>, end: State)
    requires !s.running && s.count == |CountedThreads(s.pc)| && i < s.N() && !s.pc[i].Done?
    ensures Reaches(s, events, end) && end.eofs > s.eofs
    decreases s.count
  {
    hide Reaches;
    if s.count == 0 {
      assert s.pc[i].Start? by {
        if s.pc[i].Counted() {
          AtLeastOneCounted(s.pc, i);
        }
      }
      events, end := ThreadFinishes(s, i);
    } else {
      var k := SomeoneCounted(s);
      var first, m := ThreadFinishes(s, k);
      if s.count == 1 {
        events, end := first, m;
      } else {
        OneFewerCounted(s, k);
        assert m.pc == s.Goes(k, Done).pc;
        var l := SomeoneCounted(m);
        var rest;
        rest, end := OneMoreSignal(m, l);
        ReachesConcat(s, first, m, rest, end);
        events := first + rest;
      }
    }
  }

  /** When every thread is gone nothing signals any more. */
  lemma {:induction false} SilenceAfterAll(s: State, events: seq<Event>, end: State)
    requires Reaches(s, events, end) && forall i :: 0 <= i < s.N() ==> s.pc[i].Done?
    ensures end.eofs == s.eofs
    decreases |events|
  {
    if events != [] {
      SilenceAfterAll(After(s, events[0]), events[1..], end);
    }
  }

  ghost predicate MaySignalAgain(s: State) {
    exists events, end :: Reaches(s, events, end) && end.eofs > s.eofs
  }

  /**
   * For any number of threads and any reachable state in which the reader has stopped: there can be another signal
   * exactly if some thread is not gone yet, be it still to register.
   */
  lemma SignalsAgainExactly(n: nat, enabled: bool, events: seq<Event>, s: State)
    requires n > 0 && Reaches(Initial(n, enabled), events, s) && !s.running
    ensures s.N() == n
    ensures MaySignalAgain(s) <==> exists i :: 0 <= i < n && !s.pc[i].Done?
  {
    hide Reaches;
    CountsOf(n, enabled, events, s);
    if i :| 0 <= i < n && !s.pc[i].Done? {
      var more, end := OneMoreSignal(s, i);
    } else {
      forall more, end | Reaches(s, more, end) ensures end.eofs == s.eofs {
        SilenceAfterAll(s, more, end);
      }
    }
  }

  lemma CountsOf(n: nat, enabled: bool, events: seq<Event>, s: State)
    requires n > 0 && Reaches(Initial(n, enabled), events, s)
    ensures s.N() == n && EofInv(s)
  {
    var start := Initial(n, enabled);
    InitialInv(n, enabled);
    assert CountedThreads(start.pc) == {};
    EveryReachableStateCounts(start, events, s);
    EveryReachableStateIsOrdered(start, events, s);
  }

  /** After a signal with nobody registered the only thing that can bring another is a thread that was late to register. */
  lemma OnlyLatecomersSignalAgain(n: nat, enabled: bool, events: seq<Event>, s: State)
    requires n > 0 && Reaches(Initial(n, enabled), events, s) && s.eofs > 0 && s.count == 0
    ensures s.N() == n
    ensures MaySignalAgain(s) <==> exists i :: 0 <= i < n && s.pc[i].Start?
  {
    CountsOf(n, enabled, events, s);
    SignalsAgainExactly(n, enabled, events, s);
    forall i | 0 <= i < n ensures s.pc[i].Done? || s.pc[i].Start? {
      if s.pc[i].Counted() {
        AtLeastOneCounted(s.pc, i);
      }
    }
  }

  /** If every thread has registered by the first signal, that signal is the only one, whatever happens afterwards. */
  lemma EofComesOnce(n: nat, enabled: bool, before: seq<Event>, s: State, e: Event, later: seq<Event>, end: State)
    requires n > 0 && Reaches(Initial(n, enabled), before, s) && s.eofs == 0
    requires Possible(s, e) && After(s, e).eofs > 0 && Reaches(After(s, e), later, end)
    requires s.N() == n && forall i :: 0 <= i < n ==> !s.pc[i].Start?
    ensures end.eofs == 1
  {
    var t := After(s, e);
    assert t.eofs == 1 && t.count == 0 && forall i :: 0 <= i < n ==> !t.pc[i].Start?;
    NoStep(t);
    OneStep(s, e, [], t);
    ReachesConcat(Initial(n, enabled), before, s, [e] + [], t);
    OnlyLatecomersSignalAgain(n, enabled, before + ([e] + []), t);
    SignalsOnlyGrow(t, later, end);
    assert !MaySignalAgain(t);
  }

  lemma {:induction false} SignalsOnlyGrow(s: State, events: seq<Event>, end: State)
    requires Reaches(s, events, end)
    ensures s.eofs <= end.eofs
    decreases |events|
  {
    if events != [] {
      SignalsOnlyGrow(After(s, events[0]), events[1..], end);
    }
  }

  /** A thread that fails its first read and leaves before the others register: from there on a second signal is possible. */
  lemma EofCanComeTwice(n: nat)
    requires n > 1
    ensures exists events, s :: Reaches(Initial(n, true), events, s) && s.eofs >= 2
  {
    var go := Thread(0, None);
    var s0 := Initial(n, true);
    var s1 := After(s0, go);
    var s2 := After(s1, go);
    var s3 := After(s2, go);
    var s4 := After(s3, go);
    var s5 := After(s4, go);
    assert s5.eofs == 1 && s5.count == 0 && s5.pc[1].Start?;
    hide Reaches;
    NoStep(s5);
    OneStep(s4, go, [], s5);
    OneStep(s3, go, [go] + [], s5);
    OneStep(s2, go, [go] + ([go] + []), s5);
    OneStep(s1, go, [go] + ([go] + ([go] + [])), s5);
    var first := [go] + ([go] + ([go] + ([go] + ([go] + []))));
    OneStep(s0, go, [go] + ([go] + ([go] + ([go] + []))), s5);
    OnlyLatecomersSignalAgain(n, true, first, s5);
    var more, end :| Reaches(s5, more, end) && end.eofs > s5.eofs;
    ReachesConcat(s0, first, s5, more, end);
  }

  // ---------------------------------------------------------------- while disabled

  predicate NeverEnables(events: seq<Event>) { SetEnabled(true) !in events }

  /** Nobody emits or, while running, is about to. */
  predicate NobodyPastWait(s: State) {
    forall i :: 0 <= i < s.N() ==> !s.pc[i].Emits() && (s.running ==> !s.pc[i].Woken?)
  }

  lemma SilentStep(s: State, e: Event)
    requires Possible(s, e) && e != SetEnabled(true) && !s.enabled && NobodyPastWait(s)
    ensures var t := After(s, e); !t.enabled && NobodyPastWait(t) && t.emitted == s.emitted && t.handed == s.handed
  {
  }

  /** Nothing starts to be emitted while disabled, whatever the threads do and also if the reader is closed. */
  lemma {:induction false} DisabledMeansSilent(s: State, events: seq<Event>, end: State)
    requires Reaches(s, events, end) && NeverEnables(events) && !s.enabled && NobodyPastWait(s)
    ensures NobodyPastWait(end) && end.emitted == s.emitted && end.handed == s.handed
    decreases |events|
  {
    hide NobodyPastWait;
    if events != [] {
      SilentStep(s, events[0]);
      DisabledMeansSilent(After(s, events[0]), events[1..], end);
    }
  }

  lemma FinishingStep(s: State, e: Event)
    requires Inv(s) && Possible(s, e) && e != SetEnabled(true) && !s.enabled
    ensures var t := After(s, e);
            !t.enabled && (t.handed == s.handed || (t.handed == s.handed + 1 && NobodyPastWait(t)))
  {
  }

  /** From any reachable state on, at most the chunk under way is handed on while disabled, and then all is silent. */
  lemma {:induction false} AtMostOneChunkMore(s: State, events: seq<Event>, end: State)
    requires Inv(s) && Reaches(s, events, end) && NeverEnables(events) && !s.enabled
    ensures end.handed == s.handed || (end.handed == s.handed + 1 && NobodyPastWait(end))
    decreases |events|
  {
    hide Inv, NobodyPastWait;
    if events != [] {
      var t := After(s, events[0]);
      EventKeepsInv(s, events[0]);
      FinishingStep(s, events[0]);
      assert NeverEnables(events[1..]);
      if t.handed == s.handed {
        AtMostOneChunkMore(t, events[1..], end);
      } else {
        DisabledMeansSilent(t, events[1..], end);
      }
    }
  }

  // ---------------------------------------------------------------- after the stop

  lemma StoppedThreadSends(s: State, i: nat, result: Option<Chunk>)
    requires CanStep(s, i) && !s.running
    ensures var t := Step(s, i, result);
            && !t.running && t.pc == s.pc[i := t.pc[i]] && !t.pc[i].Sending?
            && (if s.pc[i].Sending? then |t.emitted| == |s.emitted| + 1 else t.emitted == s.emitted)
  {
  }

  lemma StoppedStepSends(s: State, e: Event)
    requires Emission(s) && Possible(s, e) && !s.running
    ensures var t := After(s, e);
            && !t.running
            && (NobodySends(s) ==> NobodySends(t))
            && (t.emitted == s.emitted || (|t.emitted| == |s.emitted| + 1 && NobodySends(t) && !NobodySends(s)))
  {
    hide Flatten, Step, EmittedUpTo;
    if e.Thread? {
      StoppedThreadSends(s, e.i, e.result);
    }
  }

  predicate NobodySends(s: State) { forall i :: 0 <= i < s.N() ==> !s.pc[i].Sending? }

  /** Once stopped, the frame being sent is the last to go out. */
  lemma {:induction false} AtMostOneFrameAfterTheStop(s: State, events: seq<Event>, end: State)
    requires Inv(s) && Reaches(s, events, end) && !s.running
    ensures !end.running && |end.emitted| <= |s.emitted| + 1
    ensures NobodySends(s) ==> end.emitted == s.emitted
    decreases |events|
  {
    hide Inv;
    if events != [] {
      var t := After(s, events[0]);
      InvHasEmission(s);
      StoppedStepSends(s, events[0]);
      EventKeepsInv(s, events[0]);
      AtMostOneFrameAfterTheStop(t, events[1..], end);
    }
  }

  lemma InvHasEmission(s: State)
    requires Inv(s)
    ensures Emission(s)
  {
  }
}
