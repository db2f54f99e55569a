/** Snapshots divide the sequence numbers into stripes whose members no reader can tell apart. */
module SnapshotStripes {
  import opened Records

  ghost predicate Ascending(snapshots: seq<SequenceNumber>) {
    forall i, j :: 0 <= i < j < |snapshots| ==> snapshots[i] <= snapshots[j]
  }

  /** The sequence numbers a reader may use: any live snapshot, or the tip. */
  ghost predicate IsView(snapshots: seq<SequenceNumber>, s: nat) {
    s in snapshots || s == MAX_SEQUENCE
  }

  /** The stripe of `q`, named by the earliest view that can see `q`. */
  ghost function Stripe(snapshots: seq<SequenceNumber>, q: SequenceNumber): (r: SequenceNumber)
    requires Ascending(snapshots)
    ensures IsView(snapshots, r)
    ensures forall s :: IsView(snapshots, s) ==> (q <= s <==> r <= s)
  {
    if snapshots == [] then MAX_SEQUENCE
    else if q <= snapshots[0] then snapshots[0]
    else
      assert forall s :: IsView(snapshots, s) <==> s == snapshots[0] || IsView(snapshots[1..], s);
      Stripe(snapshots[1..], q)
  }

  /** A view sees both members of a stripe or neither. */
  lemma SameStripe(snapshots: seq<SequenceNumber>, q: SequenceNumber, p: SequenceNumber)
    requires Ascending(snapshots) && p <= q
    ensures Stripe(snapshots, q) == Stripe(snapshots, p) <==>
            !exists s: nat :: IsView(snapshots, s) && p <= s < q
  {
    var sp := Stripe(snapshots, p);
    assert IsView(snapshots, sp);
    if sp >= q {
      assert IsView(snapshots, Stripe(snapshots, q));
    }
  }

  /** The first view at or after `q`, and the last snapshot before it, 0 standing for none. */
  method FindEarliestVisibleSnapshot(snapshots: seq<SequenceNumber>, q: SequenceNumber)
    returns (earliest: SequenceNumber, prev: SequenceNumber)
    requires Ascending(snapshots)
    ensures earliest == Stripe(snapshots, q)
    ensures prev == 0 || (prev in snapshots && prev < q)
    ensures forall s :: s in snapshots && s < q ==> s <= prev
  {
    var i := 0;
    while i < |snapshots| && snapshots[i] < q
      invariant 0 <= i <= |snapshots|
      invariant forall j :: 0 <= j < i ==> snapshots[j] < q
    {
      i := i + 1;
    }
    prev := if i == 0 then 0 else snapshots[i - 1];
    assert prev < q || i == 0;
    earliest := if i < |snapshots| then snapshots[i] else MAX_SEQUENCE;
    StripeIs(snapshots, q, earliest);
  }

  lemma StripeIs(snapshots: seq<SequenceNumber>, q: SequenceNumber, r: SequenceNumber)
    requires Ascending(snapshots)
    requires IsView(snapshots, r) && q <= r
    requires forall s :: IsView(snapshots, s) && q <= s ==> r <= s
    ensures Stripe(snapshots, q) == r
  {
    assert IsView(snapshots, Stripe(snapshots, q));
  }
}
