/** No legal set of register reads is smaller than the one `coalesce` produces,
    and when that set is itself legal (src/reader/modbus/batch.rs:47-72). */
module Minimality {
  import opened Wrappers
  import opened MetricTypes
  import opened Coalesce

  /** The positions, among the first n items, at which a new range is opened. */
  function HeadsTo(items: seq<Item>, n: nat): (h: seq<nat>)
    requires n <= |items|
    ensures forall k :: 0 <= k < |h| ==> h[k] < n
  {
    if n == 0 then []
    else if Joins(CoalescedTo(items, n - 1), items[n - 1]) then HeadsTo(items, n - 1)
    else HeadsTo(items, n - 1) + [n - 1]
  }

  function Heads(items: seq<Item>): seq<nat> { HeadsTo(items, |items|) }

  // ----- what a legal read is -----

  /** A read of the items at the positions in `g`: it spans at most 125 registers,
      and every window of 11 registers inside the span touches one of its own
      items, so it never skips more than 10 registers. */
  ghost predicate LegalRead(items: seq<Item>, g: set<nat>)
  {
    && (forall i <- g :: i < |items|)
    && (forall i, j :: i in g && j in g ==> items[j].End() - items[i].addr <= 125)
    && (forall w: int, i, j :: i in g && j in g && items[i].addr <= w && w + 10 < items[j].End()
          ==> TouchesWindow(items, g, w))
  }

  ghost predicate TouchesWindow(items: seq<Item>, g: set<nat>, w: int)
    requires forall i <- g :: i < |items|
  {
    exists k :: k in g && items[k].addr <= w + 10 && w < items[k].End()
  }

  /** `plan` serves every item; an item may be read more than once. */
  ghost predicate Covers(items: seq<Item>, plan: seq<set<nat>>) {
    forall i :: 0 <= i < |items| ==> ReadSomewhere(plan, i)
  }

  ghost predicate ReadSomewhere(plan: seq<set<nat>>, i: nat) {
    exists r :: 0 <= r < |plan| && i in plan[r]
  }

  // ----- why each range had to be opened -----

  /** The item at j could not join the range opened at i: too long a read, or
      too far from everything before it. */
  predicate Blocked(items: seq<Item>, i: nat, j: nat)
    requires i < |items| && j < |items|
  {
    || items[j].SatEnd() - items[i].addr > MAX_REGISTERS_PER_READ
    || (forall p :: 0 <= p < j ==> items[j].addr - items[p].SatEnd() > MAX_COALESCE_GAP)
  }

  /** The item at j ends strictly after every earlier item. */
  predicate EndsFurthest(items: seq<Item>, j: nat)
    requires j < |items|
  {
    forall p :: 0 <= p < j ==> items[p].SatEnd() < items[j].SatEnd()
  }

  /** The last range reaches the furthest of the first n items, within the limit. */
  predicate LastReaches(items: seq<Item>, n: nat, ranges: seq<MergedRange>)
    requires n <= |items|
  {
    ranges != [] ==>
      var last := ranges[|ranges| - 1];
      && last.end <= last.start + MAX_REGISTERS_PER_READ
      && forall p :: 0 <= p < n ==> items[p].SatEnd() <= last.end
  }

  predicate StartsAtHeads(items: seq<Item>, ranges: seq<MergedRange>, heads: seq<nat>) {
    && |heads| == |ranges|
    && forall k :: 0 <= k < |heads| ==> heads[k] < |items| && ranges[k].start == items[heads[k]].addr
  }

  ghost predicate HeadsExplained(items: seq<Item>, heads: seq<nat>)
  {
    && (forall k :: 0 <= k < |heads| ==> heads[k] < |items| && EndsFurthest(items, heads[k]))
    && (forall k :: 0 < k < |heads| ==> heads[k - 1] < heads[k] && Blocked(items, heads[k - 1], heads[k]))
  }

  /** What the greedy loop knows after n items. */
  ghost predicate GreedyInvariant(items: seq<Item>, n: nat)
    requires n <= |items|
  {
    && (n > 0 ==> HeadsTo(items, n) != [])
    && HeadsExplained(items, HeadsTo(items, n))
    && StartsAtHeads(items, CoalescedTo(items, n), HeadsTo(items, n))
    && LastReaches(items, n, CoalescedTo(items, n))
  }

  lemma {:induction false} GrowKeepsReach(items: seq<Item>, n: nat, ranges: seq<MergedRange>, heads: seq<nat>)
    requires n < |items| && Sorted(items) && Joins(ranges, items[n])
    requires LastReaches(items, n, ranges) && StartsAtHeads(items, ranges, heads)
    requires heads[|heads| - 1] <= n
    ensures LastReaches(items, n + 1, Add(ranges, items[n]))
    ensures StartsAtHeads(items, Add(ranges, items[n]), heads)
  {
    assert ranges[|ranges| - 1].start == items[heads[|heads| - 1]].addr <= items[n].addr;
  }

  lemma {:induction false} OpenKeepsReach(items: seq<Item>, n: nat, ranges: seq<MergedRange>, heads: seq<nat>)
    requires n < |items| && Sized(items) && !Joins(ranges, items[n])
    requires ranges == [] ==> n == 0
    requires LastReaches(items, n, ranges) && StartsAtHeads(items, ranges, heads)
    ensures LastReaches(items, n + 1, Add(ranges, items[n]))
    ensures StartsAtHeads(items, Add(ranges, items[n]), heads + [n])
    ensures EndsFurthest(items, n)
    ensures heads != [] ==> Blocked(items, heads[|heads| - 1], n)
  {
    if heads != [] {
      assert ranges[|ranges| - 1].start == items[heads[|heads| - 1]].addr;
    }
  }

  lemma {:induction false} GreedyStep(items: seq<Item>, n: nat)
    requires Sorted(items) && Sized(items) && n < |items|
    requires GreedyInvariant(items, n)
    ensures GreedyInvariant(items, n + 1)
  {
    var ranges, heads := CoalescedTo(items, n), HeadsTo(items, n);
    if Joins(ranges, items[n]) {
      GrowKeepsReach(items, n, ranges, heads);
    } else {
      OpenKeepsReach(items, n, ranges, heads);
      OpenIsExplained(items, n, heads);
    }
  }

  lemma {:induction false} OpenIsExplained(items: seq<Item>, n: nat, heads: seq<nat>)
    requires n < |items| && HeadsExplained(items, heads) && EndsFurthest(items, n)
    requires forall k :: 0 <= k < |heads| ==> heads[k] < n
    requires heads != [] ==> Blocked(items, heads[|heads| - 1], n)
    ensures HeadsExplained(items, heads + [n])
  {}

  lemma {:induction false} GreedyInvariantHolds(items: seq<Item>, n: nat)
    requires Sorted(items) && Sized(items) && n <= |items|
    ensures GreedyInvariant(items, n)
  {
    if n == 0 {
    } else {
      GreedyInvariantHolds(items, n - 1);
      GreedyStep(items, n - 1);
    }
  }

  // ----- minimality -----

  lemma {:induction false} HeadsAscend(items: seq<Item>, heads: seq<nat>, a: nat, b: nat)
    requires HeadsExplained(items, heads) && a <= b < |heads|
    ensures a < b ==> heads[a] < heads[b]
    decreases b - a
  {
    if a < b {
      HeadsAscend(items, heads, a, b - 1);
    }
  }

  lemma {:induction false} BlockedHeadsApart(items: seq<Item>, i: nat, j: nat, h: nat, g: set<nat>)
    requires Sorted(items) && LegalRead(items, g)
    requires i < j <= h < |items|
    requires Blocked(items, i, j) && EndsFurthest(items, h)
    ensures !(i in g && h in g)
  {
    if items[j].SatEnd() - items[i].addr > MAX_REGISTERS_PER_READ {
      assert items[j].SatEnd() <= items[h].SatEnd();
      assert items[h].End() - items[i].addr > MAX_REGISTERS_PER_READ;
    } else {
      // The registers between everything before j and j itself.
      var w := items[j].addr - MAX_COALESCE_GAP - 1;
      assert items[i].addr <= w && w + MAX_COALESCE_GAP < items[h].End();
      forall k | 0 <= k < |items| ensures !(items[k].addr <= w + MAX_COALESCE_GAP && w < items[k].End()) {
        if k < j {
          assert items[j].addr - items[k].SatEnd() > MAX_COALESCE_GAP;
        }
      }
      assert !TouchesWindow(items, g, w);
    }
  }

  /** No legal read holds the heads of two different ranges. */
  lemma {:induction false} HeadsNeedDifferentReads(items: seq<Item>, a: nat, b: nat, g: set<nat>)
    requires Sorted(items) && Sized(items) && LegalRead(items, g)
    requires a < b < |Heads(items)|
    ensures !(Heads(items)[a] in g && Heads(items)[b] in g)
  {
    GreedyInvariantHolds(items, |items|);
    var heads := Heads(items);
    HeadsAscend(items, heads, a + 1, b);
    BlockedHeadsApart(items, heads[a], heads[a + 1], heads[b], g);
  }

  lemma {:induction false} Pigeonhole(f: seq<nat>, n: nat)
    requires forall k :: 0 <= k < |f| ==> f[k] < n
    requires forall a, b :: 0 <= a < b < |f| ==> f[a] != f[b]
    ensures |f| <= n
    decreases n
  {
    if f == [] {
    } else {
      assert f[0] < n;
      if k :| 0 <= k < |f| && f[k] == n - 1 {
        Pigeonhole(f[..k] + f[k + 1..], n - 1);
      } else {
        Pigeonhole(f, n - 1);
      }
    }
  }

  /** Minimality: no covering collection of legal reads, contiguous in the
      sorted order or not, is smaller than the one `coalesce` produces. */
  lemma {:induction false} CoalescedIsMinimal(items: seq<Item>, plan: seq<set<nat>>)
    requires Sorted(items) && Sized(items)
    requires Covers(items, plan) && forall g <- plan :: LegalRead(items, g)
    ensures |Coalesced(items)| <= |plan|
  {
    GreedyInvariantHolds(items, |items|);
    var heads := Heads(items);
    var f: seq<nat> := [];
    while |f| < |heads|
      invariant |f| <= |heads|
      invariant forall k :: 0 <= k < |f| ==> f[k] < |plan| && heads[k] in plan[f[k]]
    {
      assert ReadSomewhere(plan, heads[|f|]);
      var r :| 0 <= r < |plan| && heads[|f|] in plan[r];
      f := f + [r];
    }
    forall a, b | 0 <= a < b < |f| ensures f[a] != f[b] {
      HeadsNeedDifferentReads(items, a, b, plan[f[a]]);
    }
    Pigeonhole(f, |plan|);
  }

  // ----- when the minimum is attained -----

  function OwnersTo(items: seq<Item>, n: nat): (o: seq<nat>)
    requires n <= |items|
    ensures |o| == n
  {
    if n == 0 then [] else OwnersTo(items, n - 1) + [LastHead(HeadsTo(items, n))]
  }

  function LastHead(heads: seq<nat>): nat {
    if heads == [] then 0 else heads[|heads| - 1]
  }

  /** For each item, the head of the range it was put into. */
  function Owners(items: seq<Item>): (o: seq<nat>)
    ensures |o| == |items|
  {
    OwnersTo(items, |items|)
  }

  lemma {:induction false} OwnerAt(items: seq<Item>, n: nat, i: nat)
    requires i < n <= |items|
    ensures OwnersTo(items, n)[i] == LastHead(HeadsTo(items, i + 1)) <= i
  {
    if i < n - 1 {
      OwnerAt(items, n - 1, i);
      assert OwnersTo(items, n)[i] == OwnersTo(items, n - 1)[i];
    }
  }

  /** The positions read by the range opened at `head`. */
  ghost function Group(o: seq<nat>, head: nat): set<nat> {
    set i | 0 <= i < |o| && o[i] == head
  }

  ghost function Groups(items: seq<Item>): seq<set<nat>> {
    seq(|Heads(items)|, k requires 0 <= k < |Heads(items)| => Group(Owners(items), Heads(items)[k]))
  }

  /** The item at i lies at or after its head, within 125 registers of it, and
      unless it is the head starts within 10 registers of an earlier item of the
      same range. */
  ghost predicate Linked(items: seq<Item>, o: seq<nat>, i: nat)
    requires |o| == |items| && i < |items|
  {
    var h := o[i];
    && h <= i && o[h] == h
    && items[i].SatEnd() - items[h].addr <= MAX_REGISTERS_PER_READ
    && (i != h ==> HasNeighbour(items, o, h, i))
  }

  ghost predicate HasNeighbour(items: seq<Item>, o: seq<nat>, h: nat, i: nat)
    requires |o| == |items| && i < |items|
  {
    exists p :: h <= p < i && o[p] == h && items[i].addr - items[p].SatEnd() <= MAX_COALESCE_GAP
  }

  ghost predicate AllLinked(items: seq<Item>, o: seq<nat>, n: nat)
    requires |o| == |items| && n <= |items|
  {
    forall i :: 0 <= i < n ==> Linked(items, o, i)
  }

  /** The last range's end is the end of one of its own items. */
  ghost predicate LastAttained(items: seq<Item>, o: seq<nat>, n: nat, ranges: seq<MergedRange>)
    requires |o| == |items| && 0 < n <= |items|
  {
    ranges != [] ==>
      exists p :: 0 <= p < n && o[p] == o[n - 1] && items[p].SatEnd() == ranges[|ranges| - 1].end
  }

  lemma {:induction false} StartsHold(items: seq<Item>, n: nat)
    requires Sorted(items) && Sized(items) && n <= |items|
    ensures StartsAtHeads(items, CoalescedTo(items, n), HeadsTo(items, n))
    ensures CoalescedTo(items, n) == [] <==> n == 0
  {
    GreedyInvariantHolds(items, n);
  }

  lemma {:induction false} GrowOwner(items: seq<Item>, n: nat)
    requires n < |items| && Joins(CoalescedTo(items, n), items[n])
    ensures n > 0 && Owners(items)[n] == Owners(items)[n - 1] == LastHead(HeadsTo(items, n))
  {
    OwnerAt(items, |items|, n);
    OwnerAt(items, |items|, n - 1);
  }

  lemma {:induction false} OpenOwner(items: seq<Item>, n: nat)
    requires n < |items| && !Joins(CoalescedTo(items, n), items[n])
    ensures Owners(items)[n] == n
  {
    OwnerAt(items, |items|, n);
  }

  lemma {:induction false} LinkedUpTo(items: seq<Item>, n: nat)
    requires Sorted(items) && Sized(items) && n <= |items|
    ensures AllLinked(items, Owners(items), n)
    ensures n > 0 ==> LastAttained(items, Owners(items), n, CoalescedTo(items, n))
  {
    if n == 0 {
    } else {
      LinkedUpTo(items, n - 1);
      if Joins(CoalescedTo(items, n - 1), items[n - 1]) {
        StartsHold(items, n - 1);
        GrowOwner(items, n - 1);
        GrowIsLinked(items, Owners(items), n - 1, CoalescedTo(items, n - 1), HeadsTo(items, n - 1));
      } else {
        OpenOwner(items, n - 1);
        OpenIsLinked(items, Owners(items), n - 1, CoalescedTo(items, n - 1));
      }
    }
  }

  lemma {:induction false} OpenIsLinked(items: seq<Item>, o: seq<nat>, n: nat, ranges: seq<MergedRange>)
    requires Sized(items) && |o| == |items| && n < |items|
    requires !Joins(ranges, items[n]) && o[n] == n
    requires AllLinked(items, o, n)
    ensures AllLinked(items, o, n + 1)
    ensures LastAttained(items, o, n + 1, Add(ranges, items[n]))
  {
    assert Add(ranges, items[n])[|ranges|] == Open(items[n]);
  }

  lemma {:induction false} GrowIsLinked(items: seq<Item>, o: seq<nat>, n: nat, ranges: seq<MergedRange>, heads: seq<nat>)
    requires Sorted(items) && |o| == |items| && 0 < n < |items|
    requires StartsAtHeads(items, ranges, heads) && Joins(ranges, items[n])
    requires o[n] == o[n - 1] == LastHead(heads)
    requires AllLinked(items, o, n) && LastAttained(items, o, n, ranges)
    ensures AllLinked(items, o, n + 1)
    ensures LastAttained(items, o, n + 1, Add(ranges, items[n]))
  {
    var last, h := ranges[|ranges| - 1], LastHead(heads);
    var p :| 0 <= p < n && o[p] == h && items[p].SatEnd() == last.end;
    assert Linked(items, o, p);
    assert last.start == items[h].addr;
    assert HasNeighbour(items, o, h, n);
    assert Linked(items, o, n);
    var q := if last.end < items[n].SatEnd() then n else p;
    assert items[q].SatEnd() == Add(ranges, items[n])[|ranges| - 1].end;
  }

  /** No item ends more than 125 registers after the head of its range; ends
      are taken before saturation. */
  ghost predicate SpansFit(items: seq<Item>, o: seq<nat>)
    requires |o| == |items|
  {
    forall i :: 0 <= i < |items| ==> o[i] < |items| && items[i].End() - items[o[i]].addr <= 125
  }

  lemma {:induction false} HeadIndex(items: seq<Item>, n: nat, i: nat) returns (k: nat)
    requires Sorted(items) && Sized(items) && i < n <= |items|
    ensures k < |HeadsTo(items, n)| && HeadsTo(items, n)[k] == LastHead(HeadsTo(items, i + 1))
  {
    if i == n - 1 {
      StartsHold(items, n);
      k := |HeadsTo(items, n)| - 1;
    } else {
      k := HeadIndex(items, n - 1, i);
    }
  }

  lemma {:induction false} InItsGroup(items: seq<Item>, i: nat) returns (k: nat)
    requires Sorted(items) && Sized(items) && i < |items|
    ensures var o := Owners(items);
            && o[i] <= i && k < |Groups(items)| && Heads(items)[k] == o[i]
            && i in Groups(items)[k] && o[i] in Groups(items)[k]
  {
    k := HeadIndex(items, |items|, i);
    OwnerAt(items, |items|, i);
    LinkedUpTo(items, |items|);
    assert Linked(items, Owners(items), i);
  }

  lemma {:induction false} WideGroupIsIllegal(items: seq<Item>, i: nat)
    requires Sorted(items) && Sized(items) && i < |items|
    requires Owners(items)[i] < |items| ==> items[i].End() - items[Owners(items)[i]].addr > MAX_REGISTERS_PER_READ
    ensures exists g <- Groups(items) :: !LegalRead(items, g)
  {
    var k := InItsGroup(items, i);
    assert !LegalRead(items, Groups(items)[k]);
  }

  /** Walks back from an item beyond the window to one that touches it. */
  lemma {:induction false} FirstBeyond(items: seq<Item>, o: seq<nat>, head: nat, w: int, i: nat, j: nat)
    requires Sorted(items) && |o| == |items| && AllLinked(items, o, |items|)
    requires i in Group(o, head) && j in Group(o, head)
    requires items[i].addr <= w && w < items[j].End()
    ensures TouchesWindow(items, Group(o, head), w)
    decreases j
  {
    if items[j].addr > w + MAX_COALESCE_GAP {
      assert Linked(items, o, i) && Linked(items, o, j);
      assert items[head].addr <= items[i].addr;
      assert HasNeighbour(items, o, head, j);
      var p :| head <= p < j && o[p] == head && items[j].addr - items[p].SatEnd() <= MAX_COALESCE_GAP;
      FirstBeyond(items, o, head, w, i, p);
    }
  }

  lemma {:induction false} FittingGroupIsLegal(items: seq<Item>, o: seq<nat>, head: nat)
    requires Sorted(items) && |o| == |items| && AllLinked(items, o, |items|) && SpansFit(items, o)
    ensures LegalRead(items, Group(o, head))
  {
    var g := Group(o, head);
    forall i, j | i in g && j in g ensures items[j].End() - items[i].addr <= MAX_REGISTERS_PER_READ {
      assert Linked(items, o, i) && Linked(items, o, j);
    }
    forall w: int, i, j | i in g && j in g && items[i].addr <= w && w + MAX_COALESCE_GAP < items[j].End()
      ensures TouchesWindow(items, g, w)
    {
      FirstBeyond(items, o, head, w, i, j);
    }
  }

  /** The ranges `coalesce` builds cover every item, and they are legal reads
      themselves, so that the minimum is reached, exactly when no range exceeds
      125 registers once the end of its last item is not cut off at 65535. */
  lemma {:induction false} CoalescedIsLegal(items: seq<Item>)
    requires Sorted(items) && Sized(items)
    ensures |Groups(items)| == |Coalesced(items)|
    ensures Covers(items, Groups(items))
    ensures (forall g <- Groups(items) :: LegalRead(items, g)) <==> SpansFit(items, Owners(items))
  {
    GreedyInvariantHolds(items, |items|);
    forall i | 0 <= i < |items| ensures ReadSomewhere(Groups(items), i) {
      var k := InItsGroup(items, i);
    }
    var o := Owners(items);
    if SpansFit(items, o) {
      LinkedUpTo(items, |items|);
      forall k | 0 <= k < |Groups(items)| ensures LegalRead(items, Groups(items)[k]) {
        FittingGroupIsLegal(items, o, Heads(items)[k]);
      }
    } else {
      var i :| 0 <= i < |items| && !(o[i] < |items| && items[i].End() - items[o[i]].addr <= MAX_REGISTERS_PER_READ);
      WideGroupIsIllegal(items, i);
    }
  }

  /** Below the last register nothing is cut off. */
  lemma {:induction false} SpansFitBelowLastRegister(items: seq<Item>)
    requires Sorted(items) && Sized(items)
    requires forall i :: 0 <= i < |items| ==> items[i].End() <= 0xFFFF
    ensures SpansFit(items, Owners(items))
  {
    var o := Owners(items);
    LinkedUpTo(items, |items|);
    forall i | 0 <= i < |items|
      ensures o[i] < |items| && items[i].End() - items[o[i]].addr <= MAX_REGISTERS_PER_READ
    {
      assert Linked(items, o, i);
    }
  }

  // ----- groups are the members of the ranges -----

  /** One past the last item of range k, among the first n items. */
  function RangeEnd(heads: seq<nat>, k: nat, n: nat): nat {
    if k + 1 < |heads| then heads[k + 1] else n
  }

  /** Range k holds the items from its head to the next head, and no others are
      in its group. */
  ghost predicate IsSlice(items: seq<Item>, n: nat, ranges: seq<MergedRange>, heads: seq<nat>, o: seq<nat>, k: nat)
    requires n <= |items| && k < |heads| == |ranges| && |o| == |items|
  {
    var to := RangeEnd(heads, k, n);
    && heads[k] < to <= n
    && ranges[k].members == items[heads[k]..to]
    && forall i :: 0 <= i < n ==> (o[i] == heads[k] <==> heads[k] <= i < to)
  }

  ghost predicate AllSlices(items: seq<Item>, n: nat, ranges: seq<MergedRange>, heads: seq<nat>, o: seq<nat>)
    requires n <= |items| && |o| == |items|
  {
    && |heads| == |ranges|
    && forall k :: 0 <= k < |heads| ==> IsSlice(items, n, ranges, heads, o, k)
  }

  /** The same for the first n items of a batch; folded like `Flattens`. */
  ghost predicate Sliced(items: seq<Item>, n: nat) {
    forall b {:trigger Unfold(b)} :: Unfold(b) ==>
      n <= |items| && AllSlices(items, n, CoalescedTo(items, n), HeadsTo(items, n), Owners(items))
  }

  lemma {:induction false} SlicesNone(items: seq<Item>, n: nat)
    requires n == 0
    ensures Sliced(items, n)
  {
  }

  lemma {:induction false} SlicesNext(items: seq<Item>, m: nat, n: nat)
    requires Sorted(items) && Sized(items) && n == m + 1 <= |items| && Sliced(items, m)
    ensures Sliced(items, n)
  {
    assert Unfold(true);
    var ranges, heads, o := CoalescedTo(items, m), HeadsTo(items, m), Owners(items);
    if Joins(ranges, items[m]) {
      HeadsHold(items, m);
      GrowOwner(items, m);
      GrowSlices(items, m, ranges, heads, o);
    } else {
      OpenOwner(items, m);
      OwnersBelow(items, m);
      OpenSlices(items, m, ranges, heads, o);
    }
  }

  lemma {:induction false} SlicesUpTo(items: seq<Item>, n: nat)
    requires Sorted(items) && Sized(items) && n <= |items|
    ensures Sliced(items, n)
    decreases n
  {
    if n == 0 {
      SlicesNone(items, n);
    } else {
      SlicesUpTo(items, n - 1);
      SlicesNext(items, n - 1, n);
    }
  }

  /** Nine 64-bit items, each ten registers behind the one before, and a 32-bit item in
      the last two registers. */
  predicate Crowded(items: seq<Item>) {
    && |items| == 10
    && (forall k :: 0 <= k < 9 ==> items[k].addr == 65410 + 14 * k && items[k].count == 4)
    && items[9].addr == 65534 && items[9].count == 2
  }

  lemma {:induction false} CrowdedIsOneRange(items: seq<Item>, n: nat)
    requires Crowded(items) && 1 <= n <= |items|
    ensures |CoalescedTo(items, n)| == 1 && CoalescedTo(items, n)[0].start == 65410
    ensures CoalescedTo(items, n)[0].end == if n < 10 then 65400 + 14 * n else 0xFFFF
    ensures HeadsTo(items, n) == [0]
  {
    if n == 1 {
      assert CoalescedTo(items, n - 1) == [];
    } else {
      CrowdedIsOneRange(items, n - 1);
      assert Merges(CoalescedTo(items, n - 1)[0], items[n - 1]);
    }
  }

  /** The condition can fail: these items make one range of 125 registers by the
      saturated end, but span 126. */
  lemma {:induction false} CrowdedSpanDoesNotFit(items: seq<Item>)
    requires Crowded(items)
    ensures Sorted(items) && Sized(items) && !SpansFit(items, Owners(items))
    ensures |Coalesced(items)| == 1 && exists g :: g in Groups(items) && !LegalRead(items, g)
  {
    var n := |items|;
    CrowdedIsOneRange(items, n);
    OwnerAt(items, n, n - 1);
    assert items[n - 1].End() - items[0].addr == 126;
    CoalescedIsLegal(items);
  }

  lemma {:induction false} HeadsHold(items: seq<Item>, n: nat)
    requires Sorted(items) && Sized(items) && n <= |items|
    ensures HeadsExplained(items, HeadsTo(items, n))
  {
    GreedyInvariantHolds(items, n);
  }

  lemma {:induction false} GrowSlices(items: seq<Item>, n: nat, ranges: seq<MergedRange>, heads: seq<nat>, o: seq<nat>)
    requires n < |items| && |o| == |items|
    requires Joins(ranges, items[n]) && o[n] == LastHead(heads)
    requires AllSlices(items, n, ranges, heads, o) && HeadsExplained(items, heads)
    ensures AllSlices(items, n + 1, Add(ranges, items[n]), heads, o)
  {
    var m, all := n + 1, Add(ranges, items[n]);
    forall k | 0 <= k < |heads| ensures IsSlice(items, m, all, heads, o, k) {
      GrowSlice(items, n, ranges, heads, o, k);
    }
  }

  lemma {:induction false} OpenSlices(items: seq<Item>, n: nat, ranges: seq<MergedRange>, heads: seq<nat>, o: seq<nat>)
    requires n < |items| && |o| == |items|
    requires !Joins(ranges, items[n]) && o[n] == n && forall i :: 0 <= i < n ==> o[i] <= i
    requires AllSlices(items, n, ranges, heads, o)
    ensures AllSlices(items, n + 1, Add(ranges, items[n]), heads + [n], o)
  {
    var m, all, grown := n + 1, Add(ranges, items[n]), heads + [n];
    forall k | 0 <= k < |grown| ensures IsSlice(items, m, all, grown, o, k) {
      OpenSlice(items, n, ranges, heads, o, k);
    }
  }

  lemma {:induction false} OwnersBelow(items: seq<Item>, n: nat)
    requires n <= |items|
    ensures forall i :: 0 <= i < n ==> Owners(items)[i] <= i
  {
    forall i | 0 <= i < n ensures Owners(items)[i] <= i {
      OwnerAt(items, |items|, i);
    }
  }

  lemma {:induction false} GrowSlice(items: seq<Item>, n: nat, ranges: seq<MergedRange>, heads: seq<nat>, o: seq<nat>, k: nat)
    requires n < |items| && k < |heads| == |ranges| && |o| == |items|
    requires Joins(ranges, items[n]) && o[n] == LastHead(heads)
    requires IsSlice(items, n, ranges, heads, o, k) && HeadsExplained(items, heads)
    ensures IsSlice(items, n + 1, Add(ranges, items[n]), heads, o, k)
  {
    HeadsAscend(items, heads, k, |heads| - 1);
    if k == |ranges| - 1 {
      assert items[heads[k]..n + 1] == items[heads[k]..n] + [items[n]];
    }
  }

  lemma {:induction false} OpenSlice(items: seq<Item>, n: nat, ranges: seq<MergedRange>, heads: seq<nat>, o: seq<nat>, k: nat)
    requires n < |items| && k <= |heads| == |ranges| && |o| == |items|
    requires !Joins(ranges, items[n]) && o[n] == n && forall i :: 0 <= i < n ==> o[i] <= i
    requires k < |heads| ==> IsSlice(items, n, ranges, heads, o, k)
    ensures IsSlice(items, n + 1, Add(ranges, items[n]), heads + [n], o, k)
  {
    var grown := heads + [n];
    if k == |ranges| {
      assert items[n..n + 1] == [items[n]];
    } else {
      assert RangeEnd(grown, k, n + 1) == RangeEnd(heads, k, n);
    }
  }

  /** Range k reads exactly the items of group k: the slice of the input from
      its head to the next head. */
  lemma {:induction false} GroupsAreRangeMembers(items: seq<Item>, k: nat) returns (from: nat, to: nat)
    requires Sorted(items) && Sized(items) && k < |Coalesced(items)|
    ensures from < to <= |items| && k < |Groups(items)|
    ensures Coalesced(items)[k].members == items[from..to]
    ensures forall i: nat :: i in Groups(items)[k] <==> from <= i < to
  {
    SlicesUpTo(items, |items|);
    assert Unfold(true);
    from, to := Heads(items)[k], RangeEnd(Heads(items), k, |items|);
    assert IsSlice(items, |items|, Coalesced(items), Heads(items), Owners(items), k);
  }
}
