/**
 What holds of the heap over every sequence of allocations and releases: the blocks tile the
 heap segment, bytes are conserved, and releasing undoes allocating exactly when the address
 names the block.
 */
module HeapLaws {
  import opened Common
  import opened Words
  import opened Heap

  // Tiling

  function End(b: Block): int {
    b.begin + b.size
  }

  /** Blocks follow each other without gap or overlap from HEAP_BASE to STACK_BASE. */
  ghost predicate Tiled(h: seq<Block>) {
    && h != []
    && h[0].begin == HEAP_BASE
    && (forall i, j :: 0 <= i < j < |h| && j == i + 1 ==> End(h[i]) == h[j].begin)
    && End(h[|h| - 1]) == STACK_BASE
  }

  lemma {:induction false} TiledOrder(h: seq<Block>, i: nat, j: nat)
    requires Tiled(h) && i <= j < |h|
    ensures HEAP_BASE <= h[i].begin <= h[j].begin && End(h[j]) <= STACK_BASE
    ensures i < j ==> End(h[i]) <= h[j].begin
    decreases j, |h| - i, i
  {
    if i < j {
      TiledOrder(h, i, j - 1);
    } else if i > 0 {
      TiledOrder(h, i - 1, i - 1);
      TiledBelow(h, i);
    } else {
      TiledBelow(h, 0);
    }
    TiledBelow(h, j);
  }

  lemma {:induction false} TiledBelow(h: seq<Block>, j: nat)
    requires Tiled(h) && j < |h|
    ensures End(h[j]) <= STACK_BASE
    decreases |h| - j
  {
    if j + 1 < |h| { TiledBelow(h, j + 1); }
  }

  /** Two different blocks never share a byte, and every block lies in the heap segment. */
  lemma BlocksAreDisjoint(h: seq<Block>, i: nat, j: nat, byteAt: int)
    requires Tiled(h) && i < |h| && j < |h|
    requires h[i].begin <= byteAt < End(h[i]) && h[j].begin <= byteAt < End(h[j])
    ensures i == j && HEAP_BASE <= byteAt < STACK_BASE
  {
    if i <= j { TiledOrder(h, i, j); } else { TiledOrder(h, j, i); }
  }

  lemma SplitKeepsTiling(h: seq<Block>, k: nat, size: uint64)
    requires Tiled(h) && k < |h| && h[k].size >= size
    ensures Tiled(Split(h, k, size))
    ensures Split(h, k, size)[k + 1].begin == h[k].begin + size
  {
    TiledOrder(h, k, k);
    var t := Split(h, k, size);
    forall i, j | 0 <= i < j < |t| && j == i + 1
      ensures End(t[i]) == t[j].begin
    {
      if i > k + 1 {
        assert t[i] == h[i - 1] && t[j] == h[j - 1];
      } else if i == k + 1 {
        assert t[j] == h[k + 1];
      } else if j < k {
        assert t[i] == h[i] && t[j] == h[j];
      } else if j == k {
        assert t[i] == h[i] && h[j].begin == t[j].begin;
      }
    }
    if k + 1 < |h| { assert t[|t| - 1] == h[|h| - 1]; }
  }

  lemma ReleaseKeepsTiling(h: seq<Block>, k: nat)
    requires Tiled(h) && k < |h|
    ensures Tiled(Release(h, k))
  {
    var t := Release(h, k);
    if k + 1 < |h| && h[k + 1].free {
      TiledOrder(h, k, k + 1);
      forall i, j | 0 <= i < j < |t| && j == i + 1
        ensures End(t[i]) == t[j].begin
      {
        if i > k { assert t[i] == h[i + 1] && t[j] == h[j + 1]; }
        else if i == k { assert t[j] == h[k + 2] && End(h[k + 1]) == h[k + 2].begin; }
        else if j < k { assert t[i] == h[i] && t[j] == h[j]; }
        else { assert t[i] == h[i] && t[j].begin == h[j].begin; }
      }
      if k + 2 < |h| { assert t[|t| - 1] == h[|h| - 1]; }
    }
  }

  // Accounting

  function FreeBytes(h: seq<Block>): nat {
    if h == [] then 0 else FreeBytes(h[..|h| - 1]) + if h[|h| - 1].free then h[|h| - 1].size else 0
  }

  function TotalBytes(h: seq<Block>): nat {
    if h == [] then 0 else TotalBytes(h[..|h| - 1]) + h[|h| - 1].size
  }

  /** The live blocks, as a collection of (begin, size). */
  function Live(h: seq<Block>): multiset<(uint64, uint64)> {
    if h == [] then multiset{}
    else
      var last := h[|h| - 1];
      Live(h[..|h| - 1]) + if last.free then multiset{} else multiset{(last.begin, last.size)}
  }

  lemma SumsSnoc(a: seq<Block>, b: Block)
    ensures FreeBytes(a + [b]) == FreeBytes(a) + if b.free then b.size else 0
    ensures TotalBytes(a + [b]) == TotalBytes(a) + b.size
    ensures Live(a + [b]) == Live(a) + if b.free then multiset{} else multiset{(b.begin, b.size)}
  {
    assert (a + [b])[..|a + [b]| - 1] == a;
  }

  lemma SumsEmpty()
    ensures FreeBytes([]) == TotalBytes([]) == 0 && Live([]) == multiset{}
  {
  }

  lemma {:induction false} SumsAppend(a: seq<Block>, b: seq<Block>)
    ensures FreeBytes(a + b) == FreeBytes(a) + FreeBytes(b)
    ensures TotalBytes(a + b) == TotalBytes(a) + TotalBytes(b)
    ensures Live(a + b) == Live(a) + Live(b)
  {
    hide FreeBytes, TotalBytes, Live;
    if b == [] {
      assert a + b == a;
      SumsEmpty();
    } else {
      var front, last := b[..|b| - 1], b[|b| - 1];
      SumsAppend(a, front);
      SumsSnoc(front, last);
      SumsSnoc(a + front, last);
      assert b == front + [last] && a + b == a + front + [last];
    }
  }

  /** Replacing `mid` by `mid2` in the middle of a list changes the sums by the difference. */
  lemma SumsReplace(a: seq<Block>, mid: seq<Block>, mid2: seq<Block>, c: seq<Block>)
    ensures FreeBytes(a + mid2 + c) == FreeBytes(a + mid + c) - FreeBytes(mid) + FreeBytes(mid2)
    ensures TotalBytes(a + mid2 + c) == TotalBytes(a + mid + c) - TotalBytes(mid) + TotalBytes(mid2)
    ensures Live(a + mid + c) == Live(a) + Live(mid) + Live(c)
    ensures Live(a + mid2 + c) == Live(a) + Live(mid2) + Live(c)
  {
    SumsAppend(a, mid);
    SumsAppend(a + mid, c);
    SumsAppend(a, mid2);
    SumsAppend(a + mid2, c);
  }

  lemma OneBlock(b: Block)
    ensures FreeBytes([b]) == (if b.free then b.size else 0) && TotalBytes([b]) == b.size
    ensures Live([b]) == if b.free then multiset{} else multiset{(b.begin, b.size)}
  {
    assert [b][..0] == [];
    assert Live([]) == multiset{};
  }

  lemma TwoBlocks(b: Block, c: Block)
    ensures FreeBytes([b, c]) == (if b.free then b.size else 0) + (if c.free then c.size else 0)
    ensures TotalBytes([b, c]) == b.size + c.size
    ensures Live([b, c]) == Live([b]) + Live([c])
  {
    OneBlock(b);
    OneBlock(c);
    SumsAppend([b], [c]);
    assert [b] + [c] == [b, c];
  }

  lemma {:induction false} TotalIsSpan(h: seq<Block>, n: nat)
    requires Tiled(h) && 0 < n <= |h|
    ensures TotalBytes(h[..n]) == End(h[n - 1]) - HEAP_BASE
  {
    assert h[..n][..n - 1] == h[..n - 1];
    if n > 1 { TotalIsSpan(h, n - 1); }
  }

  /** The sizes of all blocks sum to the heap segment. */
  lemma BytesAreConserved(h: seq<Block>)
    requires Tiled(h)
    ensures TotalBytes(h) == STACK_BASE - HEAP_BASE == 256
  {
    TotalIsSpan(h, |h|);
    assert h[..|h|] == h;
  }

  /**
   vm_alloc succeeds exactly when some free block is large enough; it hands out the start of
   the first such block, inside the heap, overlapping no live block, and moves exactly `size`
   bytes from free to live.
   */
  lemma AllocLaw(h: seq<Block>, size: uint64)
    requires Tiled(h)
    ensures Alloc(h, size).Allocated? <==> exists k :: 0 <= k < |h| && Fits(h[k], size)
    ensures Alloc(h, size).Allocated? ==>
              var a := Alloc(h, size);
              var k := FirstFit(h, size);
              && k < |h| && a.addr == h[k].begin && Fits(h[k], size)
              && (forall j :: 0 <= j < k ==> !Fits(h[j], size))
              && HEAP_BASE <= a.addr && a.addr + size <= STACK_BASE
              && Tiled(a.heap)
              && FreeBytes(a.heap) == FreeBytes(h) - size
              && Live(a.heap) == Live(h) + multiset{(a.addr, size)}
  {
    hide FreeBytes, TotalBytes, Live, Tiled, FirstFit;
    var k := FirstFit(h, size);
    if k < |h| {
      var b := h[k];
      TiledOrder(h, k, k);
      SplitKeepsTiling(h, k, size);
      var head, rest := Block(b.begin, size, false), Block(WrapU(b.begin + size), b.size - size, true);
      assert h == h[..k] + [b] + h[k + 1..];
      SumsReplace(h[..k], [b], [head, rest], h[k + 1..]);
      OneBlock(b);
      TwoBlocks(head, rest);
      OneBlock(head);
      OneBlock(rest);
    }
  }

  /** A range handed out overlaps no block that was live before. */
  lemma AllocIsDisjoint(h: seq<Block>, size: uint64, j: nat, byteAt: int)
    requires Tiled(h) && Alloc(h, size).Allocated? && j < |h| && !h[j].free
    requires h[j].begin <= byteAt < End(h[j])
    ensures !(Alloc(h, size).addr <= byteAt < Alloc(h, size).addr + size)
  {
    var k := FirstFit(h, size);
    if h[k].begin <= byteAt < End(h[k]) {
      BlocksAreDisjoint(h, k, j, byteAt);
    }
  }

  /** What block k holds is live before, and free afterwards. */
  ghost predicate Moved(h: seq<Block>, k: nat, after: seq<Block>)
    requires k < |h|
  {
    && FreeBytes(after) == FreeBytes(h) + (if h[k].free then 0 else h[k].size)
    && Live(h) == Live(after) + Live([h[k]])
  }

  lemma ReleaseMerging(h: seq<Block>, k: nat)
    requires k + 1 < |h| && h[k + 1].free && h[k].size + h[k + 1].size < TWO64
    ensures Moved(h, k, Release(h, k))
  {
    hide FreeBytes, Live;
    var left, right := h[..k], h[k + 2..];
    assert h == left + [h[k], h[k + 1]] + right;
    assert Release(h, k) == left + [Block(h[k].begin, h[k].size + h[k + 1].size, true)] + right;
    MergeSums(left, h[k], h[k + 1], right);
  }

  lemma ReleaseAlone(h: seq<Block>, k: nat)
    requires k < |h| && (k + 1 < |h| ==> !h[k + 1].free)
    ensures Moved(h, k, Release(h, k))
  {
    hide FreeBytes, Live;
    var left, right := h[..k], h[k + 1..];
    assert h == left + [h[k]] + right;
    assert Release(h, k) == left + [h[k].(free := true)] + right;
    FlagSums(left, h[k], right);
  }

  /** Marking block k free moves its bytes, and only its bytes, from live to free. */
  lemma ReleaseSums(h: seq<Block>, k: nat)
    requires Tiled(h) && k < |h|
    ensures FreeBytes(Release(h, k)) == FreeBytes(h) + if h[k].free then 0 else h[k].size
    ensures Live(h) == Live(Release(h, k)) + if h[k].free then multiset{} else multiset{(h[k].begin, h[k].size)}
  {
    hide FreeBytes, Live, Tiled, Release;
    OneBlock(h[k]);
    if k + 1 < |h| && h[k + 1].free {
      TiledOrder(h, k, k + 1);
      ReleaseMerging(h, k);
    } else {
      ReleaseAlone(h, k);
    }
  }

  lemma FlagSums(left: seq<Block>, b: Block, right: seq<Block>)
    ensures FreeBytes(left + [b.(free := true)] + right)
            == FreeBytes(left + [b] + right) + (if b.free then 0 else b.size)
    ensures Live(left + [b] + right) == Live(left + [b.(free := true)] + right) + Live([b])
  {
    hide FreeBytes, TotalBytes, Live;
    SumsReplace(left, [b], [b.(free := true)], right);
    OneBlock(b);
    OneBlock(b.(free := true));
  }

  lemma MergeSums(left: seq<Block>, b: Block, c: Block, right: seq<Block>)
    requires c.free && b.size + c.size < TWO64
    ensures var merged := Block(b.begin, b.size + c.size, true);
            && FreeBytes(left + [merged] + right) == FreeBytes(left + [b, c] + right) + (if b.free then 0 else b.size)
            && Live(left + [b, c] + right) == Live(left + [merged] + right) + Live([b])
  {
    hide FreeBytes, TotalBytes, Live;
    var merged := Block(b.begin, b.size + c.size, true);
    SumsReplace(left, [b, c], [merged], right);
    TwoBlocks(b, c);
    OneBlock(b);
    OneBlock(c);
    OneBlock(merged);
  }

  /** Blocks before k that share its begin are empty, and so are all blocks in between. */
  lemma SharedBeginIsEmpty(h: seq<Block>, j: nat, k: nat)
    requires Tiled(h) && j < k < |h| && h[j].begin == h[k].begin
    ensures h[j].size == 0
  {
    TiledOrder(h, j, k);
  }

  /**
   vm_free of the address of a live block k succeeds exactly when that address lies below
   STACK_BASE (an empty block can begin right at it). It takes the block out of the live ones
   exactly when it succeeds and either no earlier block begins at the same address, or the first
   one that does is a live block indistinguishable from k: both are empty. The free bytes rise by
   the block's size in the first case and stay put in every other.
   */
  lemma FreeLaw(h: seq<Block>, k: nat)
    requires Tiled(h) && k < |h| && !h[k].free
    ensures var f, j := Free(h, h[k].begin), FirstAt(h, h[k].begin);
            && j <= k && Tiled(f.heap)
            && (f.status == VM_OK <==> h[k].begin < STACK_BASE)
            && (Live(h) == Live(f.heap) + multiset{(h[k].begin, h[k].size)}
                <==> h[k].begin < STACK_BASE && (j == k || (h[k].size == 0 && !h[j].free)))
            && FreeBytes(f.heap) == FreeBytes(h) + if h[k].begin < STACK_BASE && j == k then h[k].size else 0
  {
    hide Live, FreeBytes, Release;
    var j := FirstAt(h, h[k].begin);
    var x := (h[k].begin, h[k].size);
    TiledOrder(h, k, k);
    if h[k].begin < STACK_BASE {
      ReleaseKeepsTiling(h, j);
      ReleaseSums(h, j);
      if j < k {
        SharedBeginIsEmpty(h, j, k);
        var after := Live(Release(h, j));
        assert Live(h)[x] == if h[j].free || h[k].size > 0 then after[x] else after[x] + 1;
      }
    } else {
      assert Live(h)[x] != (Live(h) + multiset{x})[x];
    }
  }

  /** Freeing an address that no block begins at, or outside the heap, changes nothing. */
  lemma FreeErrors(h: seq<Block>, addr: uint64)
    requires Tiled(h)
    ensures Free(h, addr).status != VM_OK ==> Free(h, addr).heap == h
    ensures Free(h, addr).status == VM_OK <==>
            HEAP_BASE <= addr < STACK_BASE && exists k :: 0 <= k < |h| && h[k].begin == addr
    ensures Tiled(Free(h, addr).heap)
  {
    var k := FirstAt(h, addr);
    if k < |h| { ReleaseKeepsTiling(h, k); }
  }

  /** Freeing an address whose first block is free already succeeds and releases nothing. */
  lemma FreeTwiceLaw(h: seq<Block>, addr: uint64)
    requires Tiled(h) && HEAP_BASE <= addr < STACK_BASE
    requires FirstAt(h, addr) < |h| && h[FirstAt(h, addr)].free
    ensures var f := Free(h, addr);
            f.status == VM_OK && Tiled(f.heap) && Live(f.heap) == Live(h) && FreeBytes(f.heap) == FreeBytes(h)
  {
    hide Live, FreeBytes, Release, Tiled;
    ReleaseKeepsTiling(h, FirstAt(h, addr));
    ReleaseSums(h, FirstAt(h, addr));
  }

  /**
   Allocating and then freeing the returned address restores the list exactly when that address
   lies below STACK_BASE and the block that was cut is the first one to begin there.
   */
  lemma AllocThenFree(h: seq<Block>, size: uint64)
    requires Tiled(h) && Alloc(h, size).Allocated?
    ensures var a := Alloc(h, size);
            && (Free(a.heap, a.addr).status == VM_OK <==> a.addr < STACK_BASE)
            && (Free(a.heap, a.addr).heap == h <==> a.addr < STACK_BASE && FirstAt(h, a.addr) == FirstFit(h, size))
  {
    hide Tiled, FirstFit, FirstAt;
    var k := FirstFit(h, size);
    var t, addr := Split(h, k, size), h[k].begin;
    var j := FirstAt(h, addr);
    TiledOrder(h, k, k);
    SameFirstAt(h, k, size);
    if addr >= STACK_BASE {
      assert |t| == |h| + 1;
    } else if j == k {
      ReleaseUndoesSplit(h, k, size);
    } else if t[j + 1].free {
      NoEarlierMerge(h, j, size);
    } else {
      assert |Release(t, j)| == |h| + 1;
    }
  }

  lemma ReleaseUndoesSplit(h: seq<Block>, k: nat, size: uint64)
    requires Tiled(h) && k < |h| && Fits(h[k], size)
    ensures Release(Split(h, k, size), k) == h
  {
    hide Tiled;
    var t := Split(h, k, size);
    assert t[k + 1].free && t[k + 1].size == h[k].size - size;
    assert t[k + 2..] == h[k + 1..] && t[..k] == h[..k];
  }

  /** A merge of two earlier blocks would put the new live block where an empty one was. */
  lemma NoEarlierMerge(h: seq<Block>, j: nat, size: uint64)
    requires Tiled(h) && j < FirstFit(h, size) < |h| && h[j].begin == h[FirstFit(h, size)].begin
    requires Split(h, FirstFit(h, size), size)[j + 1].free
    ensures Release(Split(h, FirstFit(h, size), size), j) != h
  {
    hide Tiled, FirstFit;
    var k := FirstFit(h, size);
    var t := Split(h, k, size);
    assert !t[k].free && t[k].size == size;
    assert j + 1 < k && t[j + 1] == h[j + 1];
    assert !Fits(h[j + 1], size) && size > 0;
    TiledOrder(h, j, k - 1);
    TiledOrder(h, k - 1, k);
    assert Release(t, j)[k - 1] == t[k] && h[k - 1].size == 0;
  }

  lemma SplitKeepsPrefix(h: seq<Block>, k: nat, size: uint64)
    requires k < |h| && h[k].size >= size
    ensures |Split(h, k, size)| == |h| + 1 && Split(h, k, size)[k].begin == h[k].begin
    ensures forall m :: 0 <= m < k ==> Split(h, k, size)[m] == h[m]
  {
  }

  lemma SameFirstAt(h: seq<Block>, k: nat, size: uint64)
    requires k < |h| && h[k].size >= size
    ensures FirstAt(Split(h, k, size), h[k].begin) == FirstAt(h, h[k].begin) <= k
  {
    hide Split, FirstAt;
    SplitKeepsPrefix(h, k, size);
  }

  // Whole histories

  datatype HeapOp = DoAlloc(size: uint64) | DoFree(addr: uint64)

  function Apply(h: seq<Block>, op: HeapOp): seq<Block> {
    match op
    case DoAlloc(size) => if Alloc(h, size).Allocated? then Alloc(h, size).heap else h
    case DoFree(addr) => Free(h, addr).heap
  }

  function ApplyAll(h: seq<Block>, ops: seq<HeapOp>): seq<Block> {
    if ops == [] then h else Apply(ApplyAll(h, ops[..|ops| - 1]), ops[|ops| - 1])
  }

  lemma ApplyKeepsTiling(h: seq<Block>, op: HeapOp)
    requires Tiled(h)
    ensures Tiled(Apply(h, op))
  {
    match op
    case DoAlloc(size) => AllocLaw(h, size);
    case DoFree(addr) => FreeErrors(h, addr);
  }

  /** From initVM's heap, every history of allocations and releases keeps the tiling. */
  lemma {:induction false} EveryHistoryTiles(ops: seq<HeapOp>)
    ensures Tiled(ApplyAll(FRESH_HEAP, ops))
    ensures TotalBytes(ApplyAll(FRESH_HEAP, ops)) == 256
  {
    if ops != [] {
      EveryHistoryTiles(ops[..|ops| - 1]);
      ApplyKeepsTiling(ApplyAll(FRESH_HEAP, ops[..|ops| - 1]), ops[|ops| - 1]);
    }
    BytesAreConserved(ApplyAll(FRESH_HEAP, ops));
  }

  /**
   The release that is lost: after an exact-fit allocation an empty free block shares the next
   block's address, and freeing that address succeeds without releasing anything.
   */
  lemma LostRelease()
    ensures var h := [Block(1280, 16, false), Block(1296, 0, true), Block(1296, 8, false), Block(1304, 232, true)];
            && ApplyAll(FRESH_HEAP, [DoAlloc(16), DoAlloc(8), DoFree(1280), DoAlloc(16)]) == h
            && Free(h, 1296) == Freeing(VM_OK, h)
  {
    hide ApplyAll;
    var a, b, c, d := DoAlloc(16), DoAlloc(8), DoFree(1280), DoAlloc(16);
    LostReleaseSteps();
    HistoryStep(FRESH_HEAP, [], a);
    HistoryStep(FRESH_HEAP, [a], b);
    HistoryStep(FRESH_HEAP, [a, b], c);
    HistoryStep(FRESH_HEAP, [a, b, c], d);
    HistoryStart(FRESH_HEAP);
    assert [] + [a] == [a] && [a] + [b] == [a, b] && [a, b] + [c] == [a, b, c] && [a, b, c] + [d] == [a, b, c, d];
  }

  /**
   The allocation that cannot be freed: with the heap full, vm_alloc(0) hands out STACK_BASE, which
   no earlier block begins at and which vm_free refuses.
   */
  lemma UnfreeableAllocation()
    ensures var full := ApplyAll(FRESH_HEAP, [DoAlloc(256)]);
            var h := [Block(1280, 256, false), Block(1536, 0, false), Block(1536, 0, true)];
            && Alloc(full, 0) == Allocated(h, STACK_BASE)
            && FirstAt(full, STACK_BASE) == FirstFit(full, 0)
            && Free(h, STACK_BASE) == Freeing(VM_FREE_OUT_OF_THE_HEAP, h)
  {
    hide ApplyAll;
    HistoryStart(FRESH_HEAP);
    HistoryStep(FRESH_HEAP, [], DoAlloc(256));
    assert [] + [DoAlloc(256)] == [DoAlloc(256)];
    var full := [Block(1280, 256, false), Block(1536, 0, true)];
    assert Apply(FRESH_HEAP, DoAlloc(256)) == full;
    assert FirstFit(full, 0, 1) == 1 && FirstAt(full, STACK_BASE, 1) == 1;
    assert Split(full, 1, 0) == [Block(1280, 256, false), Block(1536, 0, false), Block(1536, 0, true)];
  }

  lemma LostReleaseSteps()
    ensures var h1 := [Block(1280, 16, false), Block(1296, 240, true)];
            var h2 := [Block(1280, 16, false), Block(1296, 8, false), Block(1304, 232, true)];
            var h3 := [Block(1280, 16, true), Block(1296, 8, false), Block(1304, 232, true)];
            var h4 := [Block(1280, 16, false), Block(1296, 0, true), Block(1296, 8, false), Block(1304, 232, true)];
            && Apply(FRESH_HEAP, DoAlloc(16)) == h1 && Apply(h1, DoAlloc(8)) == h2
            && Apply(h2, DoFree(1280)) == h3 && Apply(h3, DoAlloc(16)) == h4
            && Free(h4, 1296) == Freeing(VM_OK, h4)
  {
    var h1 := [Block(1280, 16, false), Block(1296, 240, true)];
    var h2 := [Block(1280, 16, false), Block(1296, 8, false), Block(1304, 232, true)];
    var h3 := [Block(1280, 16, true), Block(1296, 8, false), Block(1304, 232, true)];
    var h4 := [Block(1280, 16, false), Block(1296, 0, true), Block(1296, 8, false), Block(1304, 232, true)];
    assert FirstFit(FRESH_HEAP, 16) == 0 && Split(FRESH_HEAP, 0, 16) == h1;
    assert FirstFit(h1, 8) == 1 && Split(h1, 1, 8) == h2;
    assert FirstAt(h2, 1280) == 0 && Release(h2, 0) == h3;
    assert FirstFit(h3, 16) == 0 && Split(h3, 0, 16) == h4;
    assert FirstAt(h4, 1296) == 1 && Release(h4, 1) == h4;
  }

  lemma HistoryStart(h: seq<Block>)
    ensures ApplyAll(h, []) == h
  {
  }

  lemma HistoryStep(h: seq<Block>, ops: seq<HeapOp>, op: HeapOp)
    ensures ApplyAll(h, ops + [op]) == Apply(ApplyAll(h, ops), op)
  {
    assert (ops + [op])[..|ops|] == ops;
  }
}
