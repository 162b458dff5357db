/** CorsaAllocator of corsa_alloc.h: equal-sized blocks out of segments that
    double in size, with the free blocks threaded into a list. */
module CorsaAllocators {

  /** A block's address: its segment and its place in it.  Different blocks
      of a segment are datasize bytes apart. */
  datatype Block = Block(segment: nat, place: nat)

  datatype Link = Null | To(block: Block)

  function Pow2(k: nat): (p: nat)
    ensures 1 <= p
  {
    if k == 0 then 1 else 2 * Pow2(k - 1)
  }

  /** The number of blocks in segment s. */
  function Blocks(first: nat, s: nat): (n: nat)
    ensures first <= n
  {
    var p := Pow2(s);
    assert first * p - first == first * (p - 1);
    first * p
  }

  /** The number of blocks in the first k segments. */
  function Total(first: nat, k: nat): nat {
    var p := Pow2(k) - 1;
    first * p
  }

  ghost function At(s: seq<Block>, i: nat): Link {
    if i < |s| then To(s[i]) else Null
  }

  ghost predicate NoRepeats(s: seq<Block>) {
    forall i, j :: 0 <= i < j < |s| ==> s[i] != s[j]
  }

  /** The words in the free blocks lead along the list to its end. */
  ghost predicate Threaded(free: seq<Block>, words: map<Block, Link>) {
    forall i :: 0 <= i < |free| ==> free[i] in words && words[free[i]] == At(free, i + 1)
  }

  /** Every block of the first segments is free or live, and none is both. */
  ghost predicate Partition(free: seq<Block>, live: set<Block>, segments: nat, first: nat) {
    && NoRepeats(free)
    && (forall b :: b in free ==> b !in live)
    && (forall b :: b in free || b in live <==> b.segment < segments && b.place < Blocks(first, b.segment))
  }

  /** The blocks of segment s from place i on. */
  ghost function Segment(s: nat, i: nat, n: nat): (blocks: seq<Block>)
    ensures |blocks| == (if i <= n then n - i else 0)
    ensures forall j :: 0 <= j < |blocks| ==> blocks[j] == Block(s, i + j)
    decreases n - i
  {
    if i >= n then [] else [Block(s, i)] + Segment(s, i + 1, n)
  }

  lemma SegmentHas(s: nat, n: nat, b: Block)
    ensures b in Segment(s, 0, n) <==> b.segment == s && b.place < n
    ensures NoRepeats(Segment(s, 0, n))
  {
    if b.segment == s && b.place < n {
      assert Segment(s, 0, n)[b.place] == b;
    }
  }

  lemma PartitionMore(live: set<Block>, segments: nat, first: nat)
    requires Partition([], live, segments, first)
    ensures Partition(Segment(segments, 0, Blocks(first, segments)), live, segments + 1, first)
  {
    var free := Segment(segments, 0, Blocks(first, segments));
    SegmentHas(segments, Blocks(first, segments), Block(0, 0));
    forall b: Block
      ensures b in free <==> b.segment == segments && b.place < Blocks(first, segments)
    {
      SegmentHas(segments, Blocks(first, segments), b);
    }
    forall b | b in free
      ensures b !in live
    {
    }
  }

  /** The first free block becomes live. */
  lemma PartitionTake(free: seq<Block>, live: set<Block>, segments: nat, first: nat, words: map<Block, Link>)
    requires Partition(free, live, segments, first) && Threaded(free, words) && free != []
    ensures Partition(free[1..], live + {free[0]}, segments, first) && Threaded(free[1..], words)
    ensures free[0] !in live && free[0] in words && words[free[0]] == At(free[1..], 0)
  {
    assert free == [free[0]] + free[1..];
  }

  /** A live block becomes the first free one. */
  lemma PartitionGive(free: seq<Block>, live: set<Block>, segments: nat, first: nat, words: map<Block, Link>, b: Block)
    requires Partition(free, live, segments, first) && Threaded(free, words) && b in live
    ensures Partition([b] + free, live - {b}, segments, first)
    ensures Threaded([b] + free, words[b := At(free, 0)])
  {
    hide Threaded, Partition;
    NotFree(free, live, segments, first, b);
    ThreadedGive(free, words, b);
    BlockGive(free, live, segments, first, b);
  }

  lemma NotFree(free: seq<Block>, live: set<Block>, segments: nat, first: nat, b: Block)
    requires Partition(free, live, segments, first) && b in live
    ensures b !in free
  {
  }

  lemma ThreadedGive(free: seq<Block>, words: map<Block, Link>, b: Block)
    requires Threaded(free, words) && b !in free
    ensures Threaded([b] + free, words[b := At(free, 0)])
  {
    var more := [b] + free;
    forall i | 0 <= i < |more|
      ensures more[i] in words[b := At(free, 0)] && words[b := At(free, 0)][more[i]] == At(more, i + 1)
    {
      assert i > 0 ==> more[i] == free[i - 1] && free[i - 1] in free;
    }
  }

  lemma BlockGive(free: seq<Block>, live: set<Block>, segments: nat, first: nat, b: Block)
    requires Partition(free, live, segments, first) && b in live
    ensures Partition([b] + free, live - {b}, segments, first)
  {
    hide Blocks;
    var more := [b] + free;
    assert forall x :: x in more <==> x == b || x in free;
    forall i, j | 0 <= i < j < |more|
      ensures more[i] != more[j]
    {
      assert more[j] == free[j - 1] && (i > 0 ==> more[i] == free[i - 1]);
    }
  }

  lemma FirstSizes(first: nat)
    ensures Blocks(first, 0) == first && Total(first, 1) == first
  {
    assert Pow2(1) == 2 * Pow2(0);
  }

  lemma NoBlocks(first: nat)
    ensures Partition([], {}, 0, first)
  {
  }

  lemma DoubleCapacity(first: nat, k: nat)
    requires 1 <= k
    ensures Total(first, k) + Blocks(first, k) == Total(first, k + 1)
    ensures 2 * Blocks(first, k - 1) == Blocks(first, k)
  {
    var p := Pow2(k - 1);
    assert Pow2(k) == 2 * p && Pow2(k + 1) == 4 * p;
    assert first * (2 * p - 1) + first * (2 * p) == first * (4 * p - 1);
    assert 2 * (first * p) == first * (2 * p);
  }

  class CorsaAllocator {
    const first: nat               // the size of the first segment
    var segments: array<nat>       // for each segment, how many blocks it has
    var segmentNumber: nat
    var segmentMax: nat
    var segmentSize: nat
    var freeList: Link
    var words: map<Block, Link>    // the first word of each block
    var size: int
    var capacity: int
    ghost var free: seq<Block>
    ghost var live: set<Block>

    ghost predicate Sizes()
      reads this, segments
    {
      && 16 <= first && 1 <= segmentNumber <= segmentMax == segments.Length
      && segmentSize == Blocks(first, segmentNumber - 1)
      && (forall s :: 0 <= s < segmentNumber ==> segments[s] == Blocks(first, s))
      && capacity == Total(first, segmentNumber) == |live| + |free|
      && size == |live|
    }

    ghost predicate Valid()
      reads this, segments
    {
      Partition(free, live, segmentNumber, first) && Sizes() && freeList == At(free, 0) && Threaded(free, words)
    }

    constructor (segSize: nat)
      ensures Valid() && live == {} && fresh(segments)
      ensures first == (if segSize < 16 then 16 else segSize) && capacity == first
    {
      hide Partition, Threaded, Blocks, Total, Segment, Pow2;
      var n := if segSize < 16 then 16 else segSize;
      first := n;
      segmentSize := n;
      segmentNumber := 1;
      segmentMax := n;
      segments := new nat[n](_ => n);
      size, capacity := 0, 0;
      freeList, words, free, live := Null, map[], [], {};
      new;
      FirstSizes(n);
      NoBlocks(n);
      PartitionMore({}, 0, n);
      InitSegment(0);
    }

    /** Threads the blocks of a new segment into the list, which is empty. */
    method InitSegment(s: nat)
      requires free == [] && 1 <= segmentSize
      modifies this`freeList, this`words, this`free, this`capacity
      ensures free == Segment(s, 0, segmentSize) && freeList == At(free, 0) && Threaded(free, words)
      ensures capacity == old(capacity) + segmentSize
    {
      var p := Block(s, 0);
      freeList := To(p);
      var i := 0;
      while i < segmentSize - 1
        modifies this`words
        invariant 0 <= i <= segmentSize - 1 && p == Block(s, i)
        invariant forall j :: 0 <= j < i ==> Block(s, j) in words && words[Block(s, j)] == To(Block(s, j + 1))
      {
        words := words[p := To(Block(s, p.place + 1))];
        i := i + 1;
        p := Block(s, p.place + 1);
      }
      words := words[p := Null];
      capacity := capacity + segmentSize;
      free := Segment(s, 0, segmentSize);
    }

    /** A pointer array twice as long. */
    method ExtendTable()
      requires segmentNumber <= segmentMax == segments.Length && 1 <= segmentMax
      modifies this`segments, this`segmentMax
      ensures fresh(segments) && segments.Length == segmentMax == 2 * old(segmentMax)
      ensures forall j :: 0 <= j < segmentNumber ==> segments[j] == old(segments[j])
    {
      segmentMax := segmentMax * 2;
      var buff := new nat[segmentMax](_ => 0);
      for i := 0 to segmentNumber
        modifies buff
        invariant forall j :: 0 <= j < i ==> buff[j] == segments[j]
      {
        buff[i] := segments[i];
      }
      segments := buff;
    }

    /** Another segment, twice as large as the last, in a pointer array twice
        as long if there is no room in it. */
    method AddSegment()
      requires Valid() && free == []
      modifies this`segments, segments, this`segmentNumber, this`segmentMax, this`segmentSize
      modifies this`freeList, this`words, this`free, this`capacity
      ensures Valid() && free != [] && live == old(live) && (segments == old(segments) || fresh(segments))
      ensures segmentNumber == old(segmentNumber) + 1
    {
      hide Partition, Threaded, Blocks, Total, Segment, Pow2;
      if segmentNumber == segmentMax {
        ExtendTable();
      }
      DoubleCapacity(first, segmentNumber);
      PartitionMore(live, segmentNumber, first);
      segmentSize := segmentSize * 2;
      segments[segmentNumber] := segmentSize;
      InitSegment(segmentNumber);
      segmentNumber := segmentNumber + 1;
    }

    /** A block that was not live. */
    method Alloc() returns (b: Block)
      requires Valid()
      modifies this`segments, segments, this`segmentNumber, this`segmentMax, this`segmentSize
      modifies this`freeList, this`words, this`free, this`capacity, this`live, this`size
      ensures Valid() && b !in old(live) && live == old(live) + {b}
      ensures (segments == old(segments) || fresh(segments))
      ensures segmentNumber == old(segmentNumber) + (if old(|live|) == old(capacity) then 1 else 0)
    {
      hide Partition, Threaded, Blocks, Total, Segment, Pow2;
      if freeList == Null {
        AddSegment();
      }
      PartitionTake(free, live, segmentNumber, first, words);
      b := freeList.block;
      freeList := words[b];
      size := size + 1;
      live := live + {b};
      free := free[1..];
    }

    /** The caller gives a live block back. */
    method Free(b: Block)
      requires Valid() && b in live
      modifies this`freeList, this`words, this`free, this`live, this`size
      ensures Valid() && live == old(live) - {b}
    {
      hide Partition, Threaded, Blocks, Total, Segment, Pow2;
      PartitionGive(free, live, segmentNumber, first, words, b);
      words := words[b := freeList];
      freeList := To(b);
      size := size - 1;
      live := live - {b};
      free := [b] + free;
    }
  }
}
