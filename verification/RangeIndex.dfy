/**
 The offsets of many items in a file, kept as gaps and lengths in fixed-size pages with an absolute
 offset every 1,024 entries (packages/db-core/src/rangeIndex.ts). The ghost field `ranges` is the
 plain list the index stands for.
 */
module RangeIndex {
  import opened Wrappers

  const PAGE_SIZE: nat := 65_536
  const CHECKPOINT_EVERY: nat := 1_024
  const MAX_U32: nat := 0xffff_ffff

  datatype Range = Range(start: int, end: int, flags: nat)

  // What `add` throws.
  datatype AddError = OutOfOrder | TooLarge

  // The flags as a `Uint8Array` keeps them.
  function StoredFlags(flags: int): nat {
    flags % 256
  }

  function LastEnd(ranges: seq<Range>): int {
    if |ranges| == 0 then 0 else ranges[|ranges| - 1].end
  }

  function Gap(ranges: seq<Range>, i: nat): int
    requires i < |ranges|
  {
    ranges[i].start - (if i == 0 then 0 else ranges[i - 1].end)
  }

  // In file order, without overlap, each gap and length in 32 bits.
  predicate Ordered(ranges: seq<Range>) {
    forall i :: 0 <= i < |ranges| ==> 0 <= Gap(ranges, i) <= MAX_U32 && 0 <= ranges[i].end - ranges[i].start <= MAX_U32
  }

  // Why a range cannot follow the ones that are there, if it cannot.
  function Refusal(ranges: seq<Range>, start: int, end: int): Option<AddError> {
    if start < LastEnd(ranges) || end < start then Some(OutOfOrder)
    else if start - LastEnd(ranges) > MAX_U32 || end - start > MAX_U32 then Some(TooLarge)
    else None
  }

  lemma {:induction false} EndsGrow(ranges: seq<Range>, i: nat, j: nat)
    requires Ordered(ranges) && i <= j < |ranges|
    ensures ranges[i].end <= ranges[j].end
    ensures i < j ==> ranges[i].end <= ranges[j].start
    decreases j - i
  {
    if i < j {
      EndsGrow(ranges, i, j - 1);
      assert 0 <= Gap(ranges, j);
    }
  }

  lemma OrderedAppend(ranges: seq<Range>, r: Range)
    requires Ordered(ranges) && Refusal(ranges, r.start, r.end) == None
    ensures Ordered(ranges + [r]) && LastEnd(ranges + [r]) == r.end
  {
    forall i | 0 <= i < |ranges| + 1
      ensures 0 <= Gap(ranges + [r], i) <= MAX_U32 && 0 <= (ranges + [r])[i].end - (ranges + [r])[i].start <= MAX_U32
    {
      if i < |ranges| {
        assert Gap(ranges + [r], i) == Gap(ranges, i);
      }
    }
  }

  datatype Page = Page(gap: array<int>, length: array<int>, flags: array<int>)

  class RangeIndex {
    ghost var ranges: seq<Range>
    ghost var Repr: set<object>

    var pages: seq<Page>
    var checkpoints: array<int>
    var total: nat
    var lastEnd: int

    // The pages are whole, and no two of their arrays are one.
    ghost predicate PagesShaped()
      reads `pages, `Repr, `checkpoints
    {
      && (forall p :: 0 <= p < |pages| ==> PageShaped(pages[p]))
      && (forall p, q :: 0 <= p < q < |pages| ==> Arrays(pages[p]) !! Arrays(pages[q]))
    }

    static ghost function Arrays(page: Page): set<object> {
      {page.gap, page.length, page.flags}
    }

    ghost predicate PageShaped(page: Page)
      reads `Repr, `checkpoints
    {
      && page.gap.Length == page.length.Length == page.flags.Length == PAGE_SIZE
      && page.gap != page.length && page.gap != page.flags && page.length != page.flags
      && Arrays(page) <= Repr && checkpoints !in Arrays(page)
    }

    // Cell `i` holds the gap, the length and the flags of range `i` of a list.
    ghost predicate Holds(list: seq<Range>, i: nat)
      requires PagesShaped() && i < |list| && i < |pages| * PAGE_SIZE
      reads `pages, `Repr, `checkpoints, Repr - {this}
    {
      && pages[i / PAGE_SIZE].gap[i % PAGE_SIZE] == Gap(list, i)
      && pages[i / PAGE_SIZE].length[i % PAGE_SIZE] == list[i].end - list[i].start
      && pages[i / PAGE_SIZE].flags[i % PAGE_SIZE] == list[i].flags
    }

    ghost predicate HoldsAll(list: seq<Range>)
      requires PagesShaped()
      reads `pages, `Repr, `checkpoints, Repr - {this}
    {
      |list| <= |pages| * PAGE_SIZE && forall i :: 0 <= i < |list| ==> Holds(list, i)
    }

    // Checkpoint `c` is the start of range `c * 1024`, for every one below `n`.
    ghost predicate CheckpointsHold(list: seq<Range>)
      reads `checkpoints, checkpoints
    {
      && checkpoints.Length > 0 && |list| <= checkpoints.Length * CHECKPOINT_EVERY
      && forall c {:trigger checkpoints[c]} :: 0 <= c < checkpoints.Length && c * CHECKPOINT_EVERY < |list| ==>
           checkpoints[c] == list[c * CHECKPOINT_EVERY].start
    }

    ghost predicate Valid()
      reads this, Repr
      ensures Valid() ==> this in Repr
    {
      && this in Repr && checkpoints in Repr
      && |ranges| == total && lastEnd == LastEnd(ranges) && Ordered(ranges)
      && |pages| == (total + PAGE_SIZE - 1) / PAGE_SIZE
      && PagesShaped() && HoldsAll(ranges) && CheckpointsHold(ranges)
    }

    constructor ()
      ensures Valid() && fresh(Repr) && ranges == []
    {
      ranges := [];
      pages := [];
      checkpoints := new int[64];
      total, lastEnd := 0, 0;
      new;
      Repr := {this, checkpoints};
    }

    method Add(start: int, end: int, flags: int) returns (error: Option<AddError>)
      requires Valid()
      modifies Repr
      ensures Valid() && fresh(Repr - old(Repr))
      ensures error == Refusal(old(ranges), start, end)
      ensures ranges == if error == None then old(ranges) + [Range(start, end, StoredFlags(flags))] else old(ranges)
    {
      var gap := start - lastEnd;
      var length := end - start;
      if gap < 0 || length < 0 {
        return Some(OutOfOrder);
      }
      if gap > MAX_U32 || length > MAX_U32 {
        return Some(TooLarge);
      }
      hide Holds, HoldsAll, CheckpointsHold, Ordered, PagesShaped;
      Store(start, gap, length, StoredFlags(flags));
      assert |pages| == (total + 1 + PAGE_SIZE - 1) / PAGE_SIZE && total < |pages| * PAGE_SIZE;
      ghost var r := Range(start, end, StoredFlags(flags));
      OrderedAppend(ranges, r);
      CheckpointsGrow(r);
      CellsGrow(r);
      ranges := ranges + [r];
      total := total + 1;
      lastEnd := end;
      error := None;
    }

    // The new cell, and a checkpoint where one is due; the counters do not move yet.
    method Store(start: int, gap: int, length: int, flags: nat)
      requires Valid()
      modifies Repr
      ensures this in Repr && checkpoints in Repr && fresh(Repr - old(Repr))
      ensures ranges == old(ranges) && total == old(total) && lastEnd == old(lastEnd)
      ensures PagesShaped() && HoldsAll(ranges) && CheckpointsHold(ranges) && |pages| == total / PAGE_SIZE + 1
      ensures var page := pages[total / PAGE_SIZE];
              page.gap[total % PAGE_SIZE] == gap && page.length[total % PAGE_SIZE] == length && page.flags[total % PAGE_SIZE] == flags
      ensures total % CHECKPOINT_EVERY == 0 ==>
                total / CHECKPOINT_EVERY < checkpoints.Length && checkpoints[total / CHECKPOINT_EVERY] == start
    {
      hide Holds, HoldsAll, CheckpointsHold, Ordered;
      if total % PAGE_SIZE == 0 {
        AddPage();
      }
      assert |pages| == total / PAGE_SIZE + 1;
      assert PageShaped(pages[total / PAGE_SIZE]);
      WriteCell(gap, length, flags);
      if total % CHECKPOINT_EVERY == 0 {
        SetCheckpoint(total / CHECKPOINT_EVERY, start);
        assert PageShaped(pages[total / PAGE_SIZE]);
      }
    }

    method AddPage()
      requires Valid() && total % PAGE_SIZE == 0
      modifies this`pages, this`Repr
      ensures this in Repr && checkpoints in Repr && fresh(Repr - old(Repr)) && old(Repr) <= Repr
      ensures PagesShaped() && HoldsAll(ranges) && CheckpointsHold(ranges)
      ensures |pages| == old(|pages|) + 1 && |pages| == total / PAGE_SIZE + 1
    {
      hide Ordered;
      var gap, length, flagBytes := new int[PAGE_SIZE], new int[PAGE_SIZE], new int[PAGE_SIZE];
      var page := Page(gap, length, flagBytes);
      ghost var n := |pages|;
      forall p | 0 <= p < n ensures Arrays(pages[p]) !! Arrays(page) {
        assert PageShaped(pages[p]);
      }
      pages := pages + [page];
      Repr := Repr + {gap, length, flagBytes};
      ShapedAfter(page);
      forall i | 0 <= i < |ranges| ensures Holds(ranges, i) {
        assert old(Holds(ranges, i));
        assert pages[i / PAGE_SIZE] == old(pages)[i / PAGE_SIZE];
      }
    }

    twostate lemma ShapedAfter(new page: Page)
      requires old(PagesShaped()) && old(Repr) + Arrays(page) == Repr && checkpoints == old(checkpoints)
      requires pages == old(pages) + [page]
      requires page.gap.Length == page.length.Length == page.flags.Length == PAGE_SIZE
      requires page.gap != page.length && page.gap != page.flags && page.length != page.flags && checkpoints !in Arrays(page)
      requires forall p :: 0 <= p < |old(pages)| ==> Arrays(old(pages)[p]) !! Arrays(page)
      ensures PagesShaped()
    {
      forall p | 0 <= p < |pages| ensures PageShaped(pages[p]) {
        if p < |old(pages)| {
          assert old(PageShaped(pages[p]));
        }
      }
    }

    // Writes the cell after the last one.
    method WriteCell(gap: int, length: int, flags: nat)
      requires this in Repr && checkpoints in Repr && |ranges| == total
      requires PagesShaped() && HoldsAll(ranges) && CheckpointsHold(ranges)
      requires |pages| == total / PAGE_SIZE + 1
      modifies pages[total / PAGE_SIZE].gap, pages[total / PAGE_SIZE].length, pages[total / PAGE_SIZE].flags
      ensures PagesShaped() && HoldsAll(ranges) && CheckpointsHold(ranges)
      ensures var page := pages[total / PAGE_SIZE];
              page.gap[total % PAGE_SIZE] == gap && page.length[total % PAGE_SIZE] == length && page.flags[total % PAGE_SIZE] == flags
    {
      var slot := total % PAGE_SIZE;
      var page := pages[|pages| - 1];
      page.gap[slot] := gap;
      page.length[slot] := length;
      page.flags[slot] := flags;
      forall i | 0 <= i < |ranges| ensures Holds(ranges, i) {
        assert old(Holds(ranges, i));
        OtherCell(i, total);
        if i / PAGE_SIZE < total / PAGE_SIZE {
          assert Arrays(pages[i / PAGE_SIZE]) !! Arrays(page);
          assert PageShaped(pages[i / PAGE_SIZE]);
        }
      }
    }

    static lemma OtherCell(i: nat, j: nat)
      requires i < j
      ensures i / PAGE_SIZE <= j / PAGE_SIZE
      ensures i / PAGE_SIZE < j / PAGE_SIZE || i % PAGE_SIZE != j % PAGE_SIZE
    {
    }

    method SetCheckpoint(slot: nat, value: int)
      requires this in Repr && checkpoints in Repr && |ranges| == total
      requires PagesShaped() && HoldsAll(ranges) && CheckpointsHold(ranges)
      requires slot * CHECKPOINT_EVERY == total
      modifies this`checkpoints, this`Repr, checkpoints
      ensures this in Repr && checkpoints in Repr && fresh(Repr - old(Repr)) && old(Repr) <= Repr
      ensures PagesShaped() && HoldsAll(ranges) && CheckpointsHold(ranges)
      ensures slot < checkpoints.Length && checkpoints[slot] == value
      ensures checkpoints == old(checkpoints) || fresh(checkpoints)
    {
      if slot >= checkpoints.Length {
        var grown := new int[checkpoints.Length * 2];
        forall c | 0 <= c < checkpoints.Length {
          grown[c] := checkpoints[c];
        }
        checkpoints := grown;
        Repr := Repr + {grown};
      }
      checkpoints[slot] := value;
      forall i | 0 <= i < |ranges| ensures Holds(ranges, i) {
        assert old(Holds(ranges, i));
        assert PageShaped(pages[i / PAGE_SIZE]);
      }
    }

    lemma CellsGrow(r: Range)
      requires |ranges| == total && PagesShaped() && HoldsAll(ranges) && total < |pages| * PAGE_SIZE
      requires var page := pages[total / PAGE_SIZE];
               && page.gap[total % PAGE_SIZE] == r.start - LastEnd(ranges)
               && page.length[total % PAGE_SIZE] == r.end - r.start
               && page.flags[total % PAGE_SIZE] == r.flags
      ensures HoldsAll(ranges + [r])
    {
      forall i | 0 <= i < total + 1 ensures Holds(ranges + [r], i) {
        if i < total {
          assert Holds(ranges, i);
          assert Gap(ranges + [r], i) == Gap(ranges, i);
        }
      }
    }

    lemma CheckpointsGrow(r: Range)
      requires |ranges| == total && CheckpointsHold(ranges)
      requires total % CHECKPOINT_EVERY == 0 ==>
                 total / CHECKPOINT_EVERY < checkpoints.Length && checkpoints[total / CHECKPOINT_EVERY] == r.start
      ensures CheckpointsHold(ranges + [r])
    {
      forall c {:trigger checkpoints[c]} | 0 <= c < checkpoints.Length && c * CHECKPOINT_EVERY < total + 1
        ensures checkpoints[c] == (ranges + [r])[c * CHECKPOINT_EVERY].start
      {
        if c * CHECKPOINT_EVERY == total {
          assert c == total / CHECKPOINT_EVERY;
        }
      }
    }

    /* ---------- Reading ---------- */

    function GapAt(index: nat): (gap: int)
      requires Valid() && index < total
      reads this, Repr
      ensures gap == Gap(ranges, index)
    {
      CellOf(index);
      pages[index / PAGE_SIZE].gap[index % PAGE_SIZE]
    }

    function LengthAt(index: nat): (length: int)
      requires Valid() && index < total
      reads this, Repr
      ensures length == ranges[index].end - ranges[index].start
    {
      CellOf(index);
      pages[index / PAGE_SIZE].length[index % PAGE_SIZE]
    }

    function FlagsAt(index: nat): (flags: nat)
      requires Valid() && index < total
      reads this, Repr
      ensures flags == ranges[index].flags
    {
      CellOf(index);
      pages[index / PAGE_SIZE].flags[index % PAGE_SIZE]
    }

    lemma CellOf(index: nat)
      requires Valid() && index < total
      ensures index / PAGE_SIZE < |pages| && PageShaped(pages[index / PAGE_SIZE]) && Holds(ranges, index)
    {
    }

    // The entry at `index`, or none past the end.
    method Get(index: int) returns (r: Option<Range>)
      requires Valid()
      ensures r == if 0 <= index < total then Some(ranges[index]) else None
    {
      if index < 0 || index >= total {
        return None;
      }
      hide PagesShaped, HoldsAll;
      var checkpoint := index / CHECKPOINT_EVERY;
      var first := checkpoint * CHECKPOINT_EVERY;
      var start := checkpoints[checkpoint];
      for i := first to index
        invariant start == ranges[i].start
      {
        start := start + LengthAt(i) + GapAt(i + 1);
      }
      var length := LengthAt(index);
      r := Some(Range(start, start + length, FlagsAt(index)));
    }

    // The entry that contains `offset`, or the next one after it; -1 past the last entry.
    method IndexAt(offset: int) returns (r: int)
      requires Valid()
      ensures r == -1 <==> forall i :: 0 <= i < total ==> ranges[i].end <= offset
      ensures r != -1 ==> 0 <= r < total && offset < ranges[r].end && forall i :: 0 <= i < r ==> ranges[i].end <= offset
    {
      hide PagesShaped, HoldsAll;
      if total == 0 || offset >= lastEnd {
        forall i | 0 <= i < total ensures ranges[i].end <= offset {
          EndsGrow(ranges, i, total - 1);
        }
        return -1;
      }
      var low, high := 0, (total - 1) / CHECKPOINT_EVERY;
      while low < high
        invariant 0 <= low <= high && low * CHECKPOINT_EVERY < total && high * CHECKPOINT_EVERY < total
        invariant low > 0 ==> checkpoints[low] <= offset
      {
        var middle := (low + high + 1) / 2;
        if checkpoints[middle] <= offset {
          low := middle;
        } else {
          high := middle - 1;
        }
      }
      var index := low * CHECKPOINT_EVERY;
      var start := checkpoints[low];
      forall i | 0 <= i < index ensures ranges[i].end <= offset {
        EndsGrow(ranges, i, index);
      }
      while index < total - 1 && start + LengthAt(index) <= offset
        invariant index < total && start == ranges[index].start
        invariant forall i :: 0 <= i < index ==> ranges[i].end <= offset
      {
        start := start + LengthAt(index) + GapAt(index + 1);
        index := index + 1;
      }
      r := index;
    }
  }
}
