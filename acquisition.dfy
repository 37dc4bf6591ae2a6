/**
 * Address arithmetic of the acquisition ring: one allocation of
 * `NumBuffers * imageSize + 8` bytes, its start rounded up to an 8-byte
 * boundary, and `NumBuffers` consecutive slots of `imageSize` bytes from there.
 */
module Acquisition {
  import opened AndorErrors

  const NumBuffers: nat := 10

  /** Bytes allocated for a ring of slots of `imageSize` bytes. */
  function AllocationSize(imageSize: nat): nat
  {
    NumBuffers * imageSize + 8
  }

  /** `(base + 7) & ~0x7` on an address: clearing the low three bits of `base + 7`. */
  function AlignUp8(base: nat): (aligned: nat)
    ensures aligned % 8 == 0 && base <= aligned <= base + 7
  {
    (base + 7) - (base + 7) % 8
  }

  /** No multiple of 8 lies in [base, AlignUp8(base)): the aligned start is the least one. */
  lemma AlignUp8Least(base: nat, m: nat)
    requires m % 8 == 0 && base <= m
    ensures AlignUp8(base) <= m
  {
  }

  /** The start address of slot `i`. */
  function SlotAddress(aligned: nat, imageSize: nat, i: nat): nat
  {
    aligned + i * imageSize
  }

  /**
   * The ring's slot addresses in the order they are queued: the first at the
   * aligned start, the last ending `NumBuffers * imageSize` bytes after it.
   */
  function SlotLayout(aligned: nat, imageSize: nat): (slots: seq<nat>)
    ensures |slots| == NumBuffers && slots[0] == aligned
    ensures slots[NumBuffers - 1] + imageSize == aligned + NumBuffers * imageSize
  {
    seq(NumBuffers, i requires 0 <= i => SlotAddress(aligned, imageSize, i))
  }

  /** Each slot starts where the previous one ends: the ring has no gaps. */
  lemma SlotsContiguous(aligned: nat, imageSize: nat, i: nat)
    requires i + 1 < NumBuffers
    ensures SlotLayout(aligned, imageSize)[i] + imageSize == SlotLayout(aligned, imageSize)[i + 1]
  {
    assert (i + 1) * imageSize == i * imageSize + imageSize;
  }

  lemma MulStep(i: nat, j: nat, size: nat)
    requires i < j
    ensures i * size + size <= j * size
  {
    var d := j - i;
    assert j * size == i * size + d * size;
    assert d * size == size + (d - 1) * size;
  }

  /**
   * The queued slots of a nonempty image size: each spans [address, address + imageSize),
   * they do not overlap, and all lie inside the allocation that starts at `base`.
   */
  lemma {:induction false} SlotsDisjointInside(base: nat, imageSize: nat)
    requires imageSize > 0
    ensures var slots := SlotLayout(AlignUp8(base), imageSize);
      (forall i, j :: 0 <= i < j < |slots| ==> slots[i] + imageSize <= slots[j]) &&
      (forall i :: 0 <= i < |slots| ==> base <= slots[i] && slots[i] + imageSize <= base + AllocationSize(imageSize))
  {
    var a := AlignUp8(base);
    var slots := SlotLayout(a, imageSize);
    forall i, j | 0 <= i < j < |slots| ensures slots[i] + imageSize <= slots[j] {
      MulStep(i, j, imageSize);
    }
    forall i | 0 <= i < |slots| ensures base <= slots[i] && slots[i] + imageSize <= base + AllocationSize(imageSize) {
      MulStep(i, NumBuffers, imageSize);
    }
  }

  /** No address occurs twice. */
  predicate Distinct(s: seq<nat>)
  {
    forall a, b :: 0 <= a < b < |s| ==> s[a] != s[b]
  }

  /**
   * The slots the device accepted when each was queued in order with the status
   * at the same position: those whose queue call returned `Success`, in order.
   */
  function Accepted(slots: seq<nat>, statuses: seq<int>): seq<nat>
    requires |slots| == |statuses|
    decreases |slots|
  {
    if slots == [] then []
    else
      var n := |slots| - 1;
      Accepted(slots[..n], statuses[..n]) + (if statuses[n] == Success then [slots[n]] else [])
  }

  /** One more queue call extends the accepted slots by that slot exactly when it succeeds. */
  lemma AcceptedStep(slots: seq<nat>, statuses: seq<int>, i: nat)
    requires |slots| == |statuses| && i < |slots|
    ensures Accepted(slots[..i + 1], statuses[..i + 1]) ==
      Accepted(slots[..i], statuses[..i]) + (if statuses[i] == Success then [slots[i]] else [])
  {
    assert slots[..i + 1][..i] == slots[..i];
    assert statuses[..i + 1][..i] == statuses[..i];
  }

  /** Every call returned `Success`. */
  predicate AllSucceeded(statuses: seq<int>)
  {
    forall k :: 0 <= k < |statuses| ==> statuses[k] == Success
  }

  /** When every queue call succeeds, every slot is accepted, in order. */
  lemma {:induction false} AcceptedAll(slots: seq<nat>, statuses: seq<int>)
    requires |slots| == |statuses| && AllSucceeded(statuses)
    ensures Accepted(slots, statuses) == slots
  {
    if slots != [] {
      var n := |slots| - 1;
      assert AllSucceeded(statuses[..n]);
      AcceptedAll(slots[..n], statuses[..n]);
      assert slots == slots[..n] + [slots[n]];
    }
  }

  /** An address is accepted exactly when it is a slot whose own queue call succeeded. */
  lemma {:induction false} AcceptedMembers(slots: seq<nat>, statuses: seq<int>, x: nat)
    requires |slots| == |statuses|
    ensures x in Accepted(slots, statuses) <==>
      exists i :: 0 <= i < |slots| && slots[i] == x && statuses[i] == Success
  {
    if slots != [] {
      var n := |slots| - 1;
      AcceptedMembers(slots[..n], statuses[..n], x);
      if x in Accepted(slots[..n], statuses[..n]) {
        var i :| 0 <= i < n && slots[..n][i] == x && statuses[..n][i] == Success;
        assert slots[i] == x && statuses[i] == Success;
      }
      if exists i :: 0 <= i < |slots| && slots[i] == x && statuses[i] == Success {
        var i :| 0 <= i < |slots| && slots[i] == x && statuses[i] == Success;
        if i < n {
          assert slots[..n][i] == x && statuses[..n][i] == Success;
        }
      }
    }
  }

  /** Queuing distinct slots queues each at most once. */
  lemma {:induction false} AcceptedDistinct(slots: seq<nat>, statuses: seq<int>)
    requires |slots| == |statuses| && Distinct(slots)
    ensures Distinct(Accepted(slots, statuses))
  {
    if slots != [] {
      var n := |slots| - 1;
      var pre := Accepted(slots[..n], statuses[..n]);
      assert Distinct(slots[..n]);
      AcceptedDistinct(slots[..n], statuses[..n]);
      AcceptedMembers(slots[..n], statuses[..n], slots[n]);
      forall i | 0 <= i < n ensures slots[..n][i] != slots[n] {
        assert slots[..n][i] == slots[i];
      }
    }
  }

  /**
   * Whatever the queue calls return, the slots accepted from a ring of a nonempty
   * image size are distinct slots of that ring.
   */
  lemma AcceptedFromRing(base: nat, imageSize: nat, statuses: seq<int>)
    requires imageSize > 0 && |statuses| == NumBuffers
    ensures var slots := SlotLayout(AlignUp8(base), imageSize);
      var q := Accepted(slots, statuses);
      Distinct(q) && forall k :: 0 <= k < |q| ==> q[k] in slots
  {
    var slots := SlotLayout(AlignUp8(base), imageSize);
    var q := Accepted(slots, statuses);
    SlotsDisjointInside(base, imageSize);
    assert Distinct(slots);
    AcceptedDistinct(slots, statuses);
    forall k | 0 <= k < |q| ensures q[k] in slots {
      AcceptedMembers(slots, statuses, q[k]);
    }
  }

  lemma MulAssoc8(i: nat, k: nat)
    ensures i * (8 * k) == 8 * (i * k)
  {
  }

  /** 8-byte alignment of every slot holds when the image size is a multiple of 8. */
  lemma {:induction false} SlotsAligned(base: nat, imageSize: nat)
    requires imageSize % 8 == 0
    ensures forall i :: 0 <= i < NumBuffers ==> SlotLayout(AlignUp8(base), imageSize)[i] % 8 == 0
  {
    forall i | 0 <= i < NumBuffers ensures SlotLayout(AlignUp8(base), imageSize)[i] % 8 == 0 {
      var k := imageSize / 8;
      assert imageSize == 8 * k;
      MulAssoc8(i, k);
    }
  }
}
