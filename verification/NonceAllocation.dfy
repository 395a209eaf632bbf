/** How the sender picks the nonce of a fresh attempt (client/lib/chain/tx-sender.ts, allocateNonce). */
module NonceAllocation {
  import opened Arithmetic
  import opened TxProtocol
  import opened Wrappers

  datatype Allocation = Allocation(nonce: nat, cursor: nat)

  /** The lowest nonce in [from, upTo) without an open job, or upTo. */
  function LowestGap(from: nat, upTo: nat, open: set<nat>): (n: nat)
    requires from <= upTo
    ensures from <= n <= upTo && (n < upTo ==> n !in open)
    ensures forall m :: from <= m < n ==> m in open
    decreases upTo - from
  {
    if from == upTo || from !in open then from else LowestGap(from + 1, upTo, open)
  }

  function Allocate(cursor: Option<nat>, pending: nat, open: set<nat>): Allocation {
    if cursor.None? || pending > cursor.value then Allocation(pending, pending)
    else Allocation(LowestGap(pending, cursor.value, open), cursor.value)
  }

  lemma AllocateUnknown(pending: nat, open: set<nat>, open': set<nat>)
    ensures Allocate(None, pending, open) == Allocate(None, pending, open')
  {}

  /** Nonces at or above the pending count and below the cursor that no open job holds. */
  ghost function Gaps(pending: nat, cursor: nat, open: set<nat>): set<nat> {
    set n | pending <= n < cursor && n !in open
  }

  /** Never below the node's count, never moving the cursor back, always the lowest gap when there is one. */
  lemma AllocationFacts(cursor: Option<nat>, pending: nat, open: set<nat>)
    ensures var a := Allocate(cursor, pending, open);
      && a.nonce >= pending
      && (cursor.Some? ==> cursor.value <= a.cursor)
      && (cursor.Some? && Gaps(pending, cursor.value, open) != {} ==>
            a.nonce in Gaps(pending, cursor.value, open)
            && forall n <- Gaps(pending, cursor.value, open) :: a.nonce <= n)
      && (cursor.Some? && Gaps(pending, cursor.value, open) == {} ==> a.nonce == a.cursor)
  {
    if cursor.Some? && pending <= cursor.value {
      var g := LowestGap(pending, cursor.value, open);
      if g < cursor.value { assert g in Gaps(pending, cursor.value, open); }
    }
  }

  /**
    * While the cursor is known and every open job lies below it, the chosen nonce is free. Right after a
    * restart or a resync it is free exactly when no job left open sits at the node's pending count.
    */
  lemma AllocatedIsFreeIff(cursor: Option<nat>, pending: nat, open: set<nat>)
    requires cursor.Some? ==> forall n <- open :: n < cursor.value
    ensures Allocate(cursor, pending, open).nonce in open <==> cursor.None? && pending in open
  {}

  /** A restart over a job still open at nonce 5, the node counting 5: the next attempt takes nonce 5 again. */
  lemma RestartTakesOpenNonce()
    ensures Allocate(None, 5, {5, 6}).nonce == 5
    ensures Allocate(Some(7), 5, {5, 6}) == Allocation(7, 7)
  {
    assert LowestGap(5, 7, {5, 6}) == LowestGap(6, 7, {5, 6}) == LowestGap(7, 7, {5, 6});
  }

  // ---------------------------------------------------------------- closing gaps

  /** What a successful submit leaves: its job is open, the cursor past it. */
  datatype Slots = Slots(cursor: nat, open: set<nat>)

  /** Where a landed attempt leaves the cursor: past its nonce, and never moved back to a gap it filled. */
  function CursorAfter(a: Allocation): nat {
    if a.nonce + 1 > a.cursor then a.nonce + 1 else a.cursor
  }

  function SubmitOnce(s: Slots, pending: nat): Slots {
    var a := Allocate(Some(s.cursor), pending, s.open);
    Slots(CursorAfter(a), s.open + {a.nonce})
  }

  function SubmitEach(s: Slots, pendings: seq<nat>): Slots {
    if pendings == [] then s
    else SubmitOnce(SubmitEach(s, pendings[..|pendings| - 1]), pendings[|pendings| - 1])
  }

  predicate Rising(pendings: seq<nat>) {
    forall i, j :: 0 <= i < j < |pendings| ==> pendings[i] <= pendings[j]
  }

  lemma SubmitClosesOne(s: Slots, pending: nat)
    ensures var t := SubmitOnce(s, pending);
      && s.cursor <= t.cursor
      && Gaps(pending, t.cursor, t.open) <= Gaps(pending, s.cursor, s.open)
      && (Gaps(pending, s.cursor, s.open) != {} ==>
            t.cursor == s.cursor
            && |Gaps(pending, t.cursor, t.open)| == |Gaps(pending, s.cursor, s.open)| - 1)
  {
    var t, a := SubmitOnce(s, pending), Allocate(Some(s.cursor), pending, s.open);
    AllocationFacts(Some(s.cursor), pending, s.open);
    if Gaps(pending, s.cursor, s.open) != {} {
      assert Gaps(pending, t.cursor, t.open) == Gaps(pending, s.cursor, s.open) - {a.nonce};
    } else {
      forall n | n in Gaps(pending, t.cursor, t.open) ensures n in Gaps(pending, s.cursor, s.open) {}
    }
  }

  /** k successful submits leave at most g - k of the g gaps, whatever the node's rising count reads. */
  lemma {:induction false} SubmitsCloseGaps(s: Slots, pendings: seq<nat>)
    requires pendings != [] && Rising(pendings)
    ensures var t := SubmitEach(s, pendings);
      var left := |Gaps(pendings[|pendings| - 1], t.cursor, t.open)|;
      var g := |Gaps(pendings[0], s.cursor, s.open)|;
      s.cursor <= t.cursor && left <= if g < |pendings| then 0 else g - |pendings|
  {
    var n := |pendings| - 1;
    var before, last := pendings[..n], pendings[n];
    var mid := SubmitEach(s, before);
    SubmitClosesOne(mid, last);
    if n == 0 {
      assert mid == s;
    } else {
      SubmitsCloseGaps(s, before);
      SubsetSize(Gaps(last, mid.cursor, mid.open), Gaps(before[n - 1], mid.cursor, mid.open));
    }
    var t := SubmitEach(s, pendings);
    SubsetSize(Gaps(last, t.cursor, t.open), Gaps(last, mid.cursor, mid.open));
  }
}
