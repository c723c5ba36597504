/** The bounded set of sequence numbers a receiver remembers per sender and channel. */
module ReplayWindow {
  import opened Common

  const WINDOW := 1024

  /** The last sequence number to which 1024 can be added in 32 bits. */
  const LAST_SAFE: uint32 := TWO_TO_THE_32 - 1 - WINDOW

  /** `q + 1024` in unsigned 32-bit arithmetic. */
  function Reach(q: uint32): uint32 { (q + WINDOW) % TWO_TO_THE_32 }

  predicate NotSeen(kept: set<uint32>, q: uint32) {
    kept == {} || (Min(kept) <= q && q !in kept)
  }

  // ---------------------------------------------------------------- trimming

  /** Small enough, and the oldest kept number still reaches the newest one. */
  predicate Fits(kept: set<uint32>, q: uint32) {
    |kept| <= WINDOW && (kept == {} || Reach(Min(kept)) >= q)
  }

  function Trim(s: set<uint32>, q: uint32): (r: set<uint32>)
    ensures r <= s && Fits(r, q)
    decreases |s|
  {
    if Fits(s, q) then s else Trim(s - {Min(s)}, q)
  }

  /** Part of a set from some number on. */
  predicate IsUpper(r: set<uint32>, s: set<uint32>) {
    r <= s && forall x, y :: x in s && x !in r && y in r ==> x < y
  }

  lemma UpperFromTheStart(r: set<uint32>, s: set<uint32>)
    requires s != {} && IsUpper(r, s) && Min(s) in r
    ensures r == s
  {
    assert forall x :: x in s && x !in r ==> x < Min(s);
  }

  /** Trimming keeps the largest upper part that fits: only older numbers go, and no more of them than have to. */
  lemma {:induction false} TrimKeepsTheMost(s: set<uint32>, q: uint32)
    ensures IsUpper(Trim(s, q), s)
    ensures forall r :: IsUpper(r, s) && Fits(r, q) ==> r <= Trim(s, q)
    decreases |s|
  {
    if !Fits(s, q) {
      var rest := s - {Min(s)};
      TrimKeepsTheMost(rest, q);
      forall r | IsUpper(r, s) && Fits(r, q) ensures r <= Trim(s, q) {
        if Min(s) in r {
          UpperFromTheStart(r, s);
        } else {
          assert IsUpper(r, rest);
        }
      }
    }
  }

  method MarkAsSeen(kept: set<uint32>, q: uint32) returns (r: set<uint32>)
    ensures r == Trim(kept + {q}, q)
    ensures IsUpper(r, kept + {q})
    ensures forall u :: IsUpper(u, kept + {q}) && Fits(u, q) ==> u <= r
  {
    r := kept + {q};
    while |r| > WINDOW || (r != {} && Reach(Min(r)) < q)
      invariant Trim(r, q) == Trim(kept + {q}, q)
      decreases |r|
    {
      r := r - {Min(r)};
    }
    TrimKeepsTheMost(kept + {q}, q);
  }

  // ---------------------------------------------------------------- runs

  /** What is kept after one more packet, which is accepted if it was not seen. */
  function Next(kept: set<uint32>, q: uint32): set<uint32> {
    if NotSeen(kept, q) then Trim(kept + {q}, q) else kept
  }

  function Kept(arrivals: seq<uint32>): set<uint32> {
    if arrivals == [] then {}
    else Next(Kept(arrivals[..|arrivals| - 1]), arrivals[|arrivals| - 1])
  }

  predicate Accepted(arrivals: seq<uint32>, i: nat)
    requires i < |arrivals|
  {
    NotSeen(Kept(arrivals[..i]), arrivals[i])
  }

  /** The full history: everything ever accepted. */
  function History(arrivals: seq<uint32>): set<uint32> {
    if arrivals == [] then {}
    else
      var front, q := arrivals[..|arrivals| - 1], arrivals[|arrivals| - 1];
      if NotSeen(Kept(front), q) then History(front) + {q} else History(front)
  }

  predicate Safe(arrivals: seq<uint32>) {
    forall q :: q in arrivals ==> q <= LAST_SAFE
  }

  /** What is kept is the recent end of the history, within the bounds of the window. */
  predicate Refines(kept: set<uint32>, history: set<uint32>) {
    && IsUpper(kept, history)
    && (history != {} ==> kept != {})
    && |kept| <= WINDOW
    && (forall x, y :: x in kept && y in kept ==> y - x <= WINDOW)
    && (forall x :: x in history ==> x <= LAST_SAFE)
  }

  /** The part of a set from a number on. */
  function NotBelow(s: set<uint32>, m: uint32): set<uint32> { set x | x in s && m <= x }

  lemma NotBelowIsUpper(s: set<uint32>, m: uint32)
    requires m in s
    ensures IsUpper(NotBelow(s, m), s) && m in NotBelow(s, m) && Min(NotBelow(s, m)) == m
  {
  }

  lemma AcceptedNumberIsKept(kept: set<uint32>, q: uint32)
    requires NotSeen(kept, q) && |kept| <= WINDOW && q <= LAST_SAFE
    ensures q in Trim(kept + {q}, q)
  {
    var s := kept + {q};
    var u := NotBelow(s, q);
    NotBelowIsUpper(s, q);
    assert |u| <= WINDOW by {
      if kept == {} {
        SubsetIsSmaller(u, {q});
      } else {
        assert Min(kept) !in u && Min(kept) in s;
        SubsetIsSmaller(u, s - {Min(kept)});
      }
    }
    TrimKeepsTheMost(s, q);
  }

  lemma OneMoreAccepted(kept: set<uint32>, history: set<uint32>, q: uint32)
    requires Refines(kept, history) && NotSeen(kept, q) && q <= LAST_SAFE
    ensures Refines(Trim(kept + {q}, q), history + {q})
    ensures q !in history
  {
    var s := kept + {q};
    var r := Trim(s, q);
    AcceptedNumberIsKept(kept, q);
    TrimKeepsTheMost(s, q);
    assert q !in history;
    assert Min(r) + WINDOW >= q;
    assert IsUpper(r, history + {q}) by {
      assert IsUpper(s, history + {q});
    }
  }

  /** While 1024 can be added without wrapping, the bounded window stands for the full history. */
  lemma {:induction false} WindowRefinesHistory(arrivals: seq<uint32>)
    requires Safe(arrivals)
    ensures Refines(Kept(arrivals), History(arrivals))
    decreases |arrivals|
  {
    if arrivals != [] {
      var front, q := arrivals[..|arrivals| - 1], arrivals[|arrivals| - 1];
      assert forall x :: x in front ==> x in arrivals;
      assert arrivals[|arrivals| - 1] in arrivals;
      WindowRefinesHistory(front);
      if NotSeen(Kept(front), q) {
        OneMoreAccepted(Kept(front), History(front), q);
      }
    }
  }

  lemma {:induction false} AcceptedIsHistory(arrivals: seq<uint32>, i: nat)
    requires i < |arrivals| && Accepted(arrivals, i)
    ensures arrivals[i] in History(arrivals)
    decreases |arrivals|
  {
    hide Kept, NotSeen;
    var n := |arrivals| - 1;
    var front := arrivals[..n];
    if i < n {
      assert front[..i] == arrivals[..i];
      AcceptedIsHistory(front, i);
    }
  }

  /** A sender that counts up is never refused, in the unsafe range either. */
  lemma {:induction false} CountingUpIsAccepted(arrivals: seq<uint32>, i: nat)
    requires forall j, k :: 0 <= j < k < |arrivals| ==> arrivals[j] < arrivals[k]
    requires i < |arrivals|
    ensures Accepted(arrivals, i)
  {
    KeptComesFromArrivals(arrivals[..i]);
  }

  lemma {:induction false} KeptComesFromArrivals(arrivals: seq<uint32>)
    ensures forall q :: q in Kept(arrivals) ==> q in arrivals
    decreases |arrivals|
  {
    if arrivals != [] {
      KeptComesFromArrivals(arrivals[..|arrivals| - 1]);
    }
  }

  // ---------------------------------------------------------------- where the addition wraps

  /** An older number still in reach of q, with room for it and everything newer. */
  ghost predicate Anchored(kept: set<uint32>, q: uint32) {
    exists m :: m in kept && q - WINDOW <= m <= LAST_SAFE && |NotBelow(kept + {q}, m)| <= WINDOW
  }

  /** An accepted packet can be replayed at once exactly if 1024 wraps for its number and no older one anchors it. */
  lemma ReplayedAtOnceExactly(kept: set<uint32>, q: uint32)
    requires NotSeen(kept, q) && |kept| <= WINDOW
    ensures NotSeen(Trim(kept + {q}, q), q) <==> q > LAST_SAFE && !Anchored(kept, q)
  {
    var s := kept + {q};
    var r := Trim(s, q);
    TrimKeepsTheMost(s, q);
    if q <= LAST_SAFE {
      AcceptedNumberIsKept(kept, q);
    } else {
      if r != {} {
        KeptIsAnchored(kept, q);
      }
      if Anchored(kept, q) {
        var m :| m in kept && q - WINDOW <= m <= LAST_SAFE && |NotBelow(s, m)| <= WINDOW;
        NotBelowIsUpper(s, m);
        assert Fits(NotBelow(s, m), q) && q in NotBelow(s, m);
      }
    }
  }

  lemma KeptIsAnchored(kept: set<uint32>, q: uint32)
    requires q > LAST_SAFE && Trim(kept + {q}, q) != {}
    ensures Anchored(kept, q)
  {
    var s := kept + {q};
    var r := Trim(s, q);
    TrimKeepsTheMost(s, q);
    var m := Min(r);
    assert Reach(m) >= q;
    assert m in kept && q - WINDOW <= m <= LAST_SAFE;
    assert r == NotBelow(s, m);
  }

  /** The first packet of a channel with such a number is forgotten as soon as it is marked. */
  lemma LastNumberIsForgotten(q: uint32)
    requires q > LAST_SAFE
    ensures Trim({} + {q}, q) == {} && NotSeen(Trim({} + {q}, q), q)
  {
    var s: set<uint32> := {} + {q};
    assert Min(s) == q && !Fits(s, q);
    assert s - {q} == {};
  }

  // ---------------------------------------------------------------- runs in general

  /** Number j is safe, or anchored where it was accepted. */
  ghost predicate Held(arrivals: seq<uint32>, j: nat)
    requires j < |arrivals|
  {
    Accepted(arrivals, j) ==> arrivals[j] <= LAST_SAFE || Anchored(Kept(arrivals[..j]), arrivals[j])
  }

  ghost predicate AllHeld(arrivals: seq<uint32>) {
    forall j :: 0 <= j < |arrivals| ==> Held(arrivals, j)
  }

  /** What is kept is the recent end of the history, and not nothing. */
  predicate Covers(kept: set<uint32>, history: set<uint32>) {
    && IsUpper(kept, history)
    && (history != {} ==> kept != {})
    && |kept| <= WINDOW
  }

  lemma OneMoreHeld(kept: set<uint32>, history: set<uint32>, q: uint32)
    requires Covers(kept, history) && NotSeen(kept, q)
    requires q <= LAST_SAFE || Anchored(kept, q)
    ensures Covers(Trim(kept + {q}, q), history + {q})
    ensures q !in history
  {
    var s := kept + {q};
    var r := Trim(s, q);
    ReplayedAtOnceExactly(kept, q);
    TrimKeepsTheMost(s, q);
    assert IsUpper(s, history + {q});
  }

  lemma HeldInFront(arrivals: seq<uint32>, n: nat)
    requires AllHeld(arrivals) && n <= |arrivals|
    ensures AllHeld(arrivals[..n])
  {
    hide Anchored, NotSeen, Kept;
    var front := arrivals[..n];
    forall j | 0 <= j < n ensures Held(front, j) {
      assert Held(arrivals, j) && front[..j] == arrivals[..j];
    }
  }

  lemma {:induction false} HeldRunsCover(arrivals: seq<uint32>)
    requires AllHeld(arrivals)
    ensures Covers(Kept(arrivals), History(arrivals))
    decreases |arrivals|
  {
    if arrivals != [] {
      var n := |arrivals| - 1;
      HeldInFront(arrivals, n);
      HeldRunsCover(arrivals[..n]);
      assert Held(arrivals, n);
      if Accepted(arrivals, n) {
        OneMoreHeld(Kept(arrivals[..n]), History(arrivals[..n]), arrivals[n]);
      }
    }
  }

  lemma UnseenIsNew(kept: set<uint32>, history: set<uint32>, q: uint32)
    requires Covers(kept, history)
    ensures NotSeen(kept, q) <==> q !in history && (kept == {} || Min(kept) <= q)
  {
  }

  /**
   * As long as every accepted number was held, no number is accepted twice, and an unseen one is refused exactly if it
   * is older than everything kept.
   */
  lemma NoneAcceptedTwice(arrivals: seq<uint32>, j: nat)
    requires j < |arrivals| && AllHeld(arrivals[..j])
    ensures Accepted(arrivals, j) ==> forall i :: 0 <= i < j && Accepted(arrivals, i) ==> arrivals[i] != arrivals[j]
    ensures Accepted(arrivals, j) <==>
              var kept := Kept(arrivals[..j]);
              arrivals[j] !in History(arrivals[..j]) && (kept == {} || Min(kept) <= arrivals[j])
  {
    hide Kept, NotSeen, Anchored;
    var before := arrivals[..j];
    HeldRunsCover(before);
    UnseenIsNew(Kept(before), History(before), arrivals[j]);
    forall i | 0 <= i < j && Accepted(arrivals, i) ensures arrivals[i] in History(before) {
      assert before[..i] == arrivals[..i];
      AcceptedIsHistory(before, i);
    }
  }

  /** Numbers up to the last safe one are always held. */
  lemma SafeRunsAreHeld(arrivals: seq<uint32>)
    requires Safe(arrivals)
    ensures AllHeld(arrivals)
  {
    forall j | 0 <= j < |arrivals| ensures Held(arrivals, j) {
      assert arrivals[j] in arrivals;
    }
  }

  /** At some moment of the run a number accepted before would be accepted once more. */
  ghost predicate Replayable(arrivals: seq<uint32>) {
    exists i, k :: 0 <= i < k <= |arrivals| && ReplayableAt(arrivals, i, k)
  }

  predicate ReplayableAt(arrivals: seq<uint32>, i: nat, k: nat)
    requires i < k <= |arrivals|
  {
    Accepted(arrivals, i) && NotSeen(Kept(arrivals[..k]), arrivals[i])
  }

  lemma KeptIsSmall(arrivals: seq<uint32>)
    ensures |Kept(arrivals)| <= WINDOW
  {
    if arrivals != [] {
      KeptIsSmall(arrivals[..|arrivals| - 1]);
    }
  }

  /** Over every run: something accepted can be replayed at some moment exactly if some accepted number was not held. */
  lemma ReplayableExactly(arrivals: seq<uint32>)
    ensures Replayable(arrivals) <==> !AllHeld(arrivals)
  {
    if AllHeld(arrivals) {
      forall i, k | 0 <= i < k <= |arrivals| ensures !ReplayableAt(arrivals, i, k) {
        HeldIsNotReplayable(arrivals, i, k);
      }
    } else {
      var j :| 0 <= j < |arrivals| && !Held(arrivals, j);
      UnheldIsReplayable(arrivals, j);
    }
  }

  lemma HeldIsNotReplayable(arrivals: seq<uint32>, i: nat, k: nat)
    requires AllHeld(arrivals) && i < k <= |arrivals|
    ensures !ReplayableAt(arrivals, i, k)
  {
    hide Kept, NotSeen, Anchored, AllHeld;
    var before := arrivals[..k];
    HeldInFront(arrivals, k);
    HeldRunsCover(before);
    UnseenIsNew(Kept(before), History(before), arrivals[i]);
    if Accepted(arrivals, i) {
      assert before[..i] == arrivals[..i];
      AcceptedIsHistory(before, i);
    }
  }

  /** The first copy after a number that was not held is accepted. */
  lemma UnheldIsReplayable(arrivals: seq<uint32>, j: nat)
    requires j < |arrivals| && !Held(arrivals, j)
    ensures ReplayableAt(arrivals, j, j + 1) && Replayable(arrivals)
  {
    hide Anchored;
    KeptIsSmall(arrivals[..j]);
    ReplayedAtOnceExactly(Kept(arrivals[..j]), arrivals[j]);
    assert arrivals[..j + 1][..j] == arrivals[..j];
  }

  /** One unanchored number beyond the bound empties the window: the older number before it is accepted again. */
  lemma OlderNumberComesBack(q: uint32, u: uint32)
    requires u > LAST_SAFE && q + WINDOW < u
    ensures var run := [q, u, q];
            Accepted(run, 0) && Accepted(run, 1) && Accepted(run, 2)
  {
    var run := [q, u, q];
    assert run[..0] == [] && run[..1] == [q] && run[..2] == [q, u];
    assert [q][..0] == [] && [q, u][..1] == [q];
    assert Kept([]) == {};
    var kept: set<uint32> := {q};
    assert {} + kept == kept && Fits(kept, q);
    assert Kept([q]) == kept;
    assert NotSeen(kept, u);
    if Trim(kept + {u}, u) != {} {
      KeptIsAnchored(kept, u);
    }
    assert Kept([q, u]) == {};
  }

  lemma FiveComesBack()
    ensures var run := [5, 0xffff_fc00, 5];
            Accepted(run, 0) && Accepted(run, 2) && !AllHeld(run)
  {
    var run := [5, 0xffff_fc00, 5];
    assert run[1] == LAST_SAFE + 1;
    OlderNumberComesBack(5, LAST_SAFE + 1);
    assert run[..2][..0] == run[..0];
    assert ReplayableAt(run, 0, 2);
    assert Replayable(run);
    ReplayableExactly(run);
  }
}
