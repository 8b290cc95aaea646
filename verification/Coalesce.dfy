/** Greedy merging of address-sorted register reads into few range reads
    (`coalesce`, src/reader/modbus/batch.rs:38-72), and its soundness. */
module Coalesce {
  import opened Wrappers
  import opened MetricTypes

  const MAX_COALESCE_GAP: int := 10
  const MAX_REGISTERS_PER_READ: int := 125

  /** A metric with its position in the input, its address and register count. */
  datatype Item = Item(idx: nat, metric: MetricConfig, addr: word, count: nat) {
    /** One past the last register, before any saturation. */
    function End(): nat { addr + count }

    /** The `u16` end the code computes with `saturating_add`. */
    function SatEnd(): word { SaturatingAdd(addr, count) }
  }

  /** Registers start..end (end exclusive) and the metrics read from them. */
  datatype MergedRange = MergedRange(start: word, end: word, members: seq<Item>) {
    function Count(): int { end - start }
  }

  function SaturatingAdd(a: nat, b: nat): word {
    if a + b > 0xFFFF then 0xFFFF else a + b
  }

  function SaturatingSub(a: int, b: int): int {
    if a < b then 0 else a - b
  }

  function Max(a: word, b: word): word { if a < b then b else a }

  predicate Sorted(items: seq<Item>) {
    forall i, j :: 0 <= i < j < |items| ==> items[i].addr <= items[j].addr
  }

  /** Every item is one a single FC03/FC04 request can read. */
  predicate Sized(items: seq<Item>) {
    forall i :: 0 <= i < |items| ==> 1 <= items[i].count <= MAX_REGISTERS_PER_READ
  }

  // ----- specification -----

  /** May the next item join the last range? */
  predicate Merges(last: MergedRange, item: Item) {
    && SaturatingSub(item.addr, last.end) <= MAX_COALESCE_GAP
    && SaturatingSub(item.SatEnd(), last.start) <= MAX_REGISTERS_PER_READ
  }

  predicate Joins(ranges: seq<MergedRange>, item: Item) {
    |ranges| > 0 && Merges(ranges[|ranges| - 1], item)
  }

  function Grow(last: MergedRange, item: Item): MergedRange {
    MergedRange(last.start, Max(last.end, item.SatEnd()), last.members + [item])
  }

  function Open(item: Item): MergedRange {
    MergedRange(item.addr, item.SatEnd(), [item])
  }

  function Add(ranges: seq<MergedRange>, item: Item): (r: seq<MergedRange>) {
    if Joins(ranges, item) then ranges[|ranges| - 1 := Grow(ranges[|ranges| - 1], item)]
    else ranges + [Open(item)]
  }

  /** The ranges after the first n items. */
  function CoalescedTo(items: seq<Item>, n: nat): seq<MergedRange>
    requires n <= |items|
  {
    if n == 0 then [] else Add(CoalescedTo(items, n - 1), items[n - 1])
  }

  function Coalesced(items: seq<Item>): seq<MergedRange> {
    CoalescedTo(items, |items|)
  }

  // ----- the loop -----

  method Coalesce(items: seq<Item>) returns (ranges: seq<MergedRange>)
    ensures ranges == Coalesced(items)
  {
    ranges := [];
    if |items| == 0 {
      return;
    }
    for i := 0 to |items|
      invariant ranges == CoalescedTo(items, i)
    {
      var item := items[i];
      var itemEnd := item.SatEnd();
      var merged := false;
      if |ranges| > 0 {
        var last := ranges[|ranges| - 1];
        var gap := SaturatingSub(item.addr, last.end);
        var mergedCount := SaturatingSub(itemEnd, last.start);
        if gap <= MAX_COALESCE_GAP && mergedCount <= MAX_REGISTERS_PER_READ {
          ranges := ranges[|ranges| - 1 := last.(end := Max(last.end, itemEnd), members := last.members + [item])];
          merged := true;
        }
      }
      if !merged {
        ranges := ranges + [MergedRange(item.addr, itemEnd, [item])];
      }
    }
  }

  // ----- soundness of the ranges -----

  function Flatten(ranges: seq<MergedRange>): seq<Item> {
    if ranges == [] then [] else Flatten(ranges[..|ranges| - 1]) + ranges[|ranges| - 1].members
  }

  /** Everything `batch_read_coalesced` relies on about one range: it starts at
      its first member, ends at its furthest, contains every member's start and
      saturated end, and fits one request; only a range starting at the very last
      register can be empty. */
  ghost predicate SoundRange(r: MergedRange) {
    && r.members != []
    && r.start == r.members[0].addr
    && (forall k :: 0 <= k < |r.members| ==> Contains(r, r.members[k]))
    && (exists k :: 0 <= k < |r.members| && r.members[k].SatEnd() == r.end)
    && r.start <= r.end <= r.start + 125
    && (r.start < r.end || r.start == 0xFFFF)
  }

  predicate Contains(r: MergedRange, m: Item) {
    r.start <= m.addr && m.SatEnd() <= r.end
  }

  ghost predicate AllSound(ranges: seq<MergedRange>) {
    forall k :: 0 <= k < |ranges| ==> SoundRange(ranges[k])
  }

  lemma {:induction false} GrowIsSound(last: MergedRange, item: Item)
    requires SoundRange(last) && Merges(last, item) && item.count >= 1
    requires last.start <= item.addr
    ensures SoundRange(Grow(last, item))
  {
    var grown := Grow(last, item);
    var members := grown.members;
    var e :| 0 <= e < |last.members| && last.members[e].SatEnd() == last.end;
    assert members[e] == last.members[e] && members[|last.members|] == item;
    forall k | 0 <= k < |members| ensures Contains(grown, members[k]) {
      if k < |last.members| {
        assert Contains(last, last.members[k]) && members[k] == last.members[k];
      }
    }
  }

  lemma {:induction false} OpenIsSound(item: Item)
    requires 1 <= item.count <= MAX_REGISTERS_PER_READ
    ensures SoundRange(Open(item))
  {
    assert Open(item).members[0].SatEnd() == Open(item).end;
  }

  lemma {:induction false} AddIsSound(ranges: seq<MergedRange>, item: Item)
    requires AllSound(ranges)
    requires 1 <= item.count <= MAX_REGISTERS_PER_READ
    requires LastStartsBy(ranges, item.addr)
    ensures AllSound(Add(ranges, item)) && LastStartsBy(Add(ranges, item), item.addr)
  {
    if Joins(ranges, item) {
      GrowIsSound(ranges[|ranges| - 1], item);
    } else {
      OpenIsSound(item);
    }
  }

  lemma {:induction false} FlattenAdd(ranges: seq<MergedRange>, item: Item)
    ensures Flatten(Add(ranges, item)) == Flatten(ranges) + [item]
  {
    var all, k := Add(ranges, item), |Add(ranges, item)| - 1;
    if Joins(ranges, item) {
      assert all[..k] == ranges[..k];
    } else {
      assert all[..k] == ranges;
    }
  }

  /** The members of the ranges of the first n items are these items. The guard keeps
      this folded in proofs that only pass it on. */
  ghost predicate Flattens(items: seq<Item>, n: nat) {
    forall b {:trigger Unfold(b)} :: Unfold(b) ==> n <= |items| && Flatten(CoalescedTo(items, n)) == items[..n]
  }

  lemma {:induction false} FlattenNone(items: seq<Item>, n: nat)
    requires n == 0
    ensures Flattens(items, n)
  {
  }

  lemma {:induction false} FlattenNext(items: seq<Item>, m: nat, n: nat)
    requires n == m + 1 <= |items| && Flattens(items, m)
    ensures Flattens(items, n)
  {
    assert Unfold(true);
    FlattenAdd(CoalescedTo(items, m), items[m]);
    assert items[..n] == items[..m] + [items[m]];
  }

  lemma {:induction false} FlattenTo(items: seq<Item>, n: nat)
    requires n <= |items|
    ensures Flattens(items, n)
    decreases n
  {
    if n == 0 {
      FlattenNone(items, n);
    } else {
      FlattenTo(items, n - 1);
      FlattenNext(items, n - 1, n);
    }
  }

  /** The last range starts no later than the last item. */
  predicate LastStartsBy(ranges: seq<MergedRange>, addr: word) {
    |ranges| > 0 ==> ranges[|ranges| - 1].start <= addr
  }

  lemma {:induction false} SoundTo(items: seq<Item>, n: nat)
    requires Sorted(items) && Sized(items) && n <= |items|
    ensures AllSound(CoalescedTo(items, n))
    ensures if n == 0 then CoalescedTo(items, n) == [] else LastStartsBy(CoalescedTo(items, n), items[n - 1].addr)
  {
    if n == 0 {
    } else {
      SoundTo(items, n - 1);
      assert LastStartsBy(CoalescedTo(items, n - 1), items[n - 1].addr);
      AddIsSound(CoalescedTo(items, n - 1), items[n - 1]);
    }
  }

  /** Concatenating the members gives back the input, and every range is sound. */
  lemma {:induction false} CoalescedIsSound(items: seq<Item>)
    requires Sorted(items) && Sized(items)
    ensures Flatten(Coalesced(items)) == items
    ensures AllSound(Coalesced(items))
  {
    SoundTo(items, |items|);
    FlattenTo(items, |items|);
    assert Unfold(true);
    assert items[..|items|] == items;
  }
}
