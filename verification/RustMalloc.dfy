/** The Rust allocator: 16-byte headers, growth in whole pages, no slop. It takes
    the same steps on the same abstract heap as the C allocator. */
module RustMalloc {
  import opened Bytes
  import opened Options
  import opened Sbrk
  import opened Blocks
  import opened BlockLemmas
  import opened Coalescing
  import opened Placement
  import opened HeapSpec
  import opened HeapSteps
  import opened Sorting
  import opened HeapSort
  import opened UsedBlocks
  import opened HeapInfoSpec

  const NULL: nat := 0
  const HEADER_SIZE: nat := 16
  const FREE: byte := 0
  const USED: byte := 1

  /** `(*block).size` */
  function SizeField(mem: array<byte>, a: nat): nat
    requires a + 16 <= mem.Length
    reads mem
  {
    Load(mem[..], a + 8, 8)
  }

  /** `*block = Header { state, size }`; what the padding becomes is not specified. */
  method WriteHeader(mem: array<byte>, a: nat, state: State, size: nat)
    requires a + 16 <= mem.Length && size < TWO64
    modifies mem
    ensures HeaderIs(Rust, mem[..], a, Block(state, 0, size))
    ensures forall x :: 0 <= x < mem.Length && !(a <= x < a + 16) ==> mem[x] == old(mem[x])
  {
    var padding := new byte[7];
    forall i | 0 <= i < 7 { mem[a + 1 + i] := padding[i]; }
    mem[a] := StateByte(Rust, state);
    PowValues();
    LoadStore(mem[..], a + 8, 8, size);
    StoreField(mem, a + 8, 8, size);
  }

  /** Takes the free block at `block`: split when at least a header is left over. */
  method SplitOrUse(mem: array<byte>, block: nat, need: nat, ghost size: nat, ghost sz: nat) returns (payload: nat)
    requires block + size <= mem.Length && size < TWO64
    requires HeaderIs(Rust, mem[..], block, Block(Free, 0, size))
    requires sz > 0 && need == Need(Rust, sz) <= size
    modifies mem
    ensures payload == block + 16 && Tiled(Rust, mem[..], block, Carve(Rust, size, sz))
    ensures forall x :: 0 <= x < mem.Length && !(block <= x < block + size) ==> mem[x] == old(mem[x])
  {
    ghost var m0 := mem[..];
    var remainder := SizeField(mem, block) - need;
    if remainder >= MIN_SPLIT {
      WriteHeader(mem, block, Used, need);
      ghost var m1 := mem[..];
      WriteHeader(mem, block + need, Free, remainder);
      HeaderFrame(Rust, m1, mem[..], block, Block(Used, 0, need));
      TiledTwo(Rust, mem[..], block, Carve(Rust, size, sz));
    } else {
      mem[block] := USED;
      LoadFrame(m0, mem[..], block + 8, 8);
      TiledOne(Rust, mem[..], block, Carve(Rust, size, sz)[0]);
    }
    payload := block + HEADER_SIZE;
  }

  /** The pages that a request makes the heap grow by. */
  function PagesFor(sz: nat): nat {
    (Need(Rust, sz) + 4095) / 4096
  }

  lemma {:induction false} GrowsByPages(sz: nat)
    ensures GrowBy(Rust, sz) == 4096 * PagesFor(sz) && Need(Rust, sz) <= GrowBy(Rust, sz)
  {
  }

  /** A request that is kept and for which a block fits has the exact block size. */
  lemma {:induction false} KeptFit(h: Heap, sz: u64)
    requires WellFormed(h) && h.format == Rust && Keeps(h, sz) && FirstFit(h.blocks, Need64(Rust, sz)) < |h.blocks|
    ensures Need64(Rust, sz) == Need(Rust, sz)
  {
    NeedExact(Rust, sz);
  }

  /** One for which none fits is refused without effect, or has the exact block size. */
  lemma {:induction false} KeptGrowth(h: Heap, sz: u64)
    requires WellFormed(h) && h.format == Rust && Keeps(h, sz) && sz > 0
    requires FirstFit(h.blocks, Need64(Rust, sz)) == |h.blocks|
    ensures if Accepts(h.original, h.brk, Signed64(Request64(Rust, sz)))
            then Supported(h, sz) && Need64(Rust, sz) == Need(Rust, sz)
            else Refuses(h, sz) && MallocStep(h, h, sz, 0)
  {
    if Refuses(h, sz) { RefusedStep(h, sz); } else { NeedExact(Rust, sz); }
  }

  class Allocator {
    const mem: array<byte>
    const originalBreak: nat
    var programBreak: nat

    /** HEAP_START and HEAP_END; HEAP_START is 0 until the first call. */
    var heapStart: nat
    var heapEnd: nat

    ghost var blocks: seq<Block>
    /** How many pages the heap has. */
    ghost var pages: nat

    ghost function View(): Heap
      reads this, mem
    {
      Heap(Rust, originalBreak, if heapStart != 0 then heapStart else programBreak, programBreak, blocks, mem[..])
    }

    /** The blocks tile [HEAP_START, HEAP_END), which is a whole number of pages. */
    ghost predicate Valid()
      reads this, mem
    {
      && WellFormed(View()) && 0 < originalBreak
      && (if heapStart != 0 then heapEnd == programBreak == heapStart + 4096 * pages
          else blocks == [] && heapEnd == 0)
    }

    constructor (original: nat, brk: nat)
      requires 0 < original <= brk < BREAK_LIMIT && brk % 8 == 0
      ensures Valid() && fresh(mem) && heapStart == 0 && originalBreak == original && programBreak == brk
    {
      mem := new byte[MEMSIZE_VIRTUAL];
      originalBreak, programBreak := original, brk;
      heapStart, heapEnd := 0, 0;
      blocks, pages := [], 0;
    }

    /** The system call, as the process sees it. */
    method SysSbrk(difference: i64) returns (r: nat)
      requires originalBreak <= programBreak < BREAK_LIMIT
      modifies this`programBreak
      ensures if Accepts(originalBreak, old(programBreak), difference)
              then r == old(programBreak) && programBreak == NewBreak(old(programBreak), difference)
              else r == TWO64 - 1 && programBreak == old(programBreak)
    {
      if Accepts(originalBreak, programBreak, difference) {
        r := programBreak;
        programBreak := NewBreak(programBreak, difference);
      } else {
        r := TWO64 - 1;
      }
    }

    method HeapBounds() returns (block: nat, end: nat)
      requires Valid()
      modifies this`heapStart, this`heapEnd, this`programBreak, this`pages
      ensures Valid() && heapStart != 0 && View() == old(View())
      ensures block == heapStart && end == heapEnd
    {
      if heapStart == 0 {
        AcceptsExactly(originalBreak, programBreak, 0);
        heapStart := SysSbrk(0);
        heapEnd, pages := heapStart, 0;
      }
      return heapStart, heapEnd;
    }

    /** The walk over the headers has reached the `n`th block, or the end. */
    ghost predicate AtBlock(block: nat, n: nat)
      reads this
    {
      && heapStart != 0 && n <= |blocks| && block == heapStart + Sum(blocks[..n])
      && (block < heapEnd <==> n < |blocks|)
    }

    /** `block` starts at HEAP_START, and moves on by `(*block).size`. */
    lemma {:induction false} WalkStarts()
      requires Valid() && heapStart != 0
      ensures AtBlock(heapStart, 0)
    {
      PrefixEnd(Rust, blocks, 0);
    }

    method ReadHeader(block: nat, ghost n: nat) returns (state: byte, size: nat)
      requires Valid() && AtBlock(block, n) && n < |blocks|
      ensures state == StateByte(Rust, blocks[n].state) && size == blocks[n].size
      ensures AtBlock(block + size, n + 1)
    {
      TiledAt(Rust, mem[..], heapStart, blocks, n);
      PrefixEnd(Rust, blocks, n + 1);
      state, size := mem[block], SizeField(mem, block);
    }

    /** malloc's search loop: stops at the first free block that fits, or at the end. */
    method FindFit(need: nat) returns (block: nat, ghost n: nat)
      requires Valid() && heapStart != 0
      ensures n == FirstFit(blocks, need) && AtBlock(block, n)
      ensures block == heapStart + Sum(blocks[..FirstFit(blocks, need)])
    {
      block, n := heapStart, 0;
      WalkStarts();
      while block < heapEnd
        invariant AtBlock(block, n)
        invariant forall j :: 0 <= j < n ==> !FitsIn(blocks[j], need)
        decreases |blocks| - n
      {
        var state, size := ReadHeader(block, n);
        if state == FREE && size >= need {
          FirstFitUnique(blocks, need, n);
          return;
        }
        block, n := block + size, n + 1;
      }
      FirstFitUnique(blocks, need, n);
    }

    /** malloc on a free block that fits. */
    method TakeFirstFit(sz: u64, need: nat, block: nat, ghost n: nat) returns (p: nat)
      requires Valid() && heapStart != 0 && sz > 0 && need == Need(Rust, sz)
      requires n == FirstFit(blocks, need) < |blocks| && AtBlock(block, n)
      modifies this`blocks, mem
      ensures Valid() && MallocStep(old(View()), View(), sz, p) && p != NULL
    {
      hide Tiled, Carve, Kept, Place;
      ghost var h0 := View();
      TiledAt(Rust, mem[..], heapStart, blocks, n);
      p := SplitOrUse(mem, block, need, blocks[n].size, sz);
      blocks := Place(Rust, blocks, sz, false).blocks;
      FirstFitStep(h0, View(), sz, n);
    }

    /** Grows the heap by whole pages: one free block at its old end, or nothing. */
    method GrowHeap(minExtra: u64, ghost sz: u64) returns (block: Option<nat>)
      requires Valid() && heapStart != 0 && minExtra == Need64(Rust, sz) && (Supported(View(), sz) || Refuses(View(), sz))
      modifies this`programBreak, this`heapEnd, mem
      ensures heapEnd == programBreak
      ensures block.None? <==> !Accepts(originalBreak, old(programBreak), Signed64(Request64(Rust, sz)))
      ensures block.None? ==> View() == old(View())
      ensures block.Some? ==>
        && block.value == old(heapEnd) && heapEnd == old(heapEnd) + GrowBy(Rust, sz) < BREAK_LIMIT
        && HeaderIs(Rust, mem[..], block.value, Block(State.Free, 0, GrowBy(Rust, sz)))
        && forall x :: 0 <= x < mem.Length && !(block.value <= x < heapEnd) ==> mem[x] == old(mem[x])
    {
      var growBy := RoundUp64(minExtra, 4096);
      if Supported(View(), sz) {
        SupportedGrowth(View(), sz);
        Request64Exact(Rust, sz);
      }
      var oldBreak := SysSbrk(Signed64(growBy));
      if oldBreak == TWO64 - 1 {
        return None;
      }
      heapEnd := oldBreak + growBy;
      WriteHeader(mem, oldBreak, State.Free, growBy);
      return Some(oldBreak);
    }

    /** malloc on a heap that has just grown over `block`. */
    method UseFresh(sz: u64, need: nat, block: nat, ghost h0: Heap) returns (p: nat)
      requires WellFormed(h0) && h0.format == Rust && 0 < originalBreak && heapStart != 0
      requires h0.original == originalBreak && h0.start == heapStart && h0.blocks == blocks && |h0.mem| == mem.Length
      requires sz > 0 && need == Need(Rust, sz) && h0.brk == heapStart + 4096 * pages
      requires block == h0.brk && heapEnd == programBreak == h0.brk + GrowBy(Rust, sz) < BREAK_LIMIT
      requires HeaderIs(Rust, mem[..], block, Block(State.Free, 0, GrowBy(Rust, sz)))
      requires forall x :: 0 <= x < mem.Length && !(block <= x < heapEnd) ==> mem[x] == h0.mem[x]
      requires FirstFit(blocks, need) == |blocks|
      modifies this`blocks, this`pages, mem
      ensures Valid() && MallocStep(h0, View(), sz, p)
    {
      GrowsByPages(sz);
      p := SplitOrUse(mem, block, need, GrowBy(Rust, sz), sz);
      blocks := Place(Rust, blocks, sz, true).blocks;
      GrowStep(h0, View(), sz);
      pages := pages + PagesFor(sz);
    }

    method Malloc(sz: u64) returns (p: nat)
      requires Valid() && Keeps(View(), sz)
      modifies this, mem
      ensures Valid() && (sz > 0 || old(heapStart) != 0 ==> heapStart != 0)
      ensures MallocStep(old(View()), View(), sz, p)
    {
      hide WellFormed, Kept;
      if sz == 0 {
        return NULL;
      }
      var need := Wrap64(RoundUp64(sz, 8) + HEADER_SIZE);
      var start, end := HeapBounds();
      ghost var h0 := View();
      var block, n := FindFit(need);
      if block < end {
        KeptFit(h0, sz);
        p := TakeFirstFit(sz, need, block, n);
        return;
      }
      p := GrowAndUse(sz, need);
    }

    /** The end of malloc: no block fits. */
    method GrowAndUse(sz: u64, need: u64) returns (p: nat)
      requires Valid() && heapStart != 0 && Keeps(View(), sz)
      requires sz > 0 && need == Need64(Rust, sz) && FirstFit(blocks, need) == |blocks|
      modifies this, mem
      ensures Valid() && heapStart != 0 && MallocStep(old(View()), View(), sz, p)
    {
      hide Tiled, BlocksOk, Kept, MallocStep;
      ghost var h0 := View();
      KeptGrowth(h0, sz);
      var grown := GrowHeap(need, sz);
      match grown
      case None => p := NULL;
      case Some(added) => p := UseFresh(sz, need, added, h0);
    }

    /** `(*block_of(ptr)).state = s` */
    method SetBlockState(p: nat, s: State)
      requires Valid() && Live(View(), p).Some?
      modifies this`blocks, mem
      ensures Valid() && StateSet(old(View()), View(), p, s)
    {
      ghost var h0 := View();
      LiveRange(Rust, h0.start, blocks, p);
      mem[p - 16] := StateByte(Rust, s);
      blocks := SetState(Rust, h0.start, blocks, p, s);
      SetStateStep(h0, View(), p, s);
    }

    method Free(p: nat)
      requires Valid() && (p != NULL ==> Live(View(), p).Some?)
      modifies this`blocks, mem
      ensures Valid() && FreeStep(old(View()), View(), p)
    {
      if p == NULL {
        return;
      }
      SetBlockState(p, State.Free);
    }

    method Calloc(num: u64, sz: u64) returns (p: nat)
      requires Valid() && (num * sz < TWO64 ==> Keeps(View(), num * sz))
      modifies this, mem
      ensures Valid() && CallocStep(old(View()), View(), num, sz, p)
    {
      hide WellFormed, Keeps, Kept;
      if num == 0 || sz == 0 {
        return NULL;
      }
      if num * sz >= TWO64 {
        return NULL;
      }
      var total := num * sz;
      ghost var h0 := View();
      p := Malloc(total);
      if p != NULL {
        ghost var h1 := View();
        ghost var b := MallocMeaning(h0, h1, total, p);
        ClearBlock(p, total, h0, b);
      }
    }

    /** calloc's memset of the new block at `p`. */
    method ClearBlock(p: nat, n: nat, ghost h0: Heap, ghost b: Block)
      requires Valid() && WellFormed(h0) && Kept(h0, View(), 0) && Added(h0, View(), p, b) && n <= b.size - 16
      modifies mem
      ensures Valid() && View() == old(View()).(mem := mem[..]) && Kept(h0, View(), 0) && p + n <= mem.Length
      ensures forall x :: p <= x < p + n ==> mem[x] == 0
    {
      ghost var h1 := View();
      assert Live(h1, p) == Some(b);
      LiveFacts(h1, p);
      Memset(mem, p, 0, n);
      PayloadWritten(h0, h1, View(), p, n, b);
    }

    method UsableSize(p: nat) returns (n: nat)
      requires Valid() && Live(View(), p).Some?
      ensures n == Usable(Rust, Live(View(), p).value)
    {
      HeaderOfLive(View(), p);
      LiveFacts(View(), p);
      n := SizeField(mem, p - 16) - HEADER_SIZE;
    }

    method Realloc(p: nat, sz: u64) returns (r: nat)
      requires Valid() && Keeps(View(), sz) && (p != NULL ==> Live(View(), p).Some?)
      modifies this, mem
      ensures Valid() && ReallocStep(old(View()), View(), p, sz, r)
    {
      if p == NULL {
        r := Malloc(sz);
        return;
      }
      if sz == 0 {
        Free(p);
        return NULL;
      }
      ghost var h0 := View();
      var oldSize := UsableSize(p);
      r := Malloc(sz);
      if r == NULL {
        return;
      }
      MoveBlock(p, sz, r, oldSize, h0);
    }

    /** The end of realloc: the contents move to the new block and the old one goes. */
    method MoveBlock(p: nat, sz: u64, r: nat, oldSize: nat, ghost h0: Heap)
      requires Valid() && WellFormed(h0) && h0.format == Rust && sz > 0 && p != NULL && r != NULL
      requires MallocStep(h0, View(), sz, r) && Live(h0, p).Some? && oldSize == Usable(Rust, Live(h0, p).value)
      modifies this`blocks, mem
      ensures Valid() && ReallocStep(h0, View(), p, sz, r)
    {
      ghost var h1 := View();
      ghost var b := MallocMeaning(h0, h1, sz, r);
      var n := if oldSize < sz then oldSize else sz;
      CopyBlock(p, r, n, h0, b);
      ghost var h2 := View();
      assert Live(h2, p) == Live(h1, p) == Live(h0, p);
      Free(p);
      ReallocMeaning(h0, h1, h2, View(), p, sz, r, n, b);
    }

    method CopyBlock(p: nat, r: nat, n: nat, ghost h0: Heap, ghost b: Block)
      requires Valid() && WellFormed(h0) && p != NULL && Live(h0, p).Some? && n <= Live(h0, p).value.size - 16
      requires Kept(h0, View(), 0) && Added(h0, View(), r, b) && n <= b.size - 16
      modifies mem
      ensures Valid() && View() == old(View()).(mem := mem[..]) && Kept(h0, View(), 0)
      ensures p + n <= |h0.mem| && r + n <= mem.Length && mem[r..r + n] == h0.mem[p..p + n]
    {
      ghost var h1 := View();
      CopyRoom(h0, h1, p, r, b);
      SameBytes(h0, h1, p, n);
      Memcpy(mem, r, p, n);
      PayloadWritten(h0, h1, View(), r, n, b);
    }

    // ----- defrag -----

    /** defrag's inner loop: the bytes in the run of free blocks that starts at `block`. */
    method RunTotal(block: nat, ghost done: seq<Block>, ghost rest: seq<Block>) returns (total: nat, ghost n: nat)
      requires Valid() && heapStart != 0 && blocks == done + rest && block == heapStart + Sum(done)
      requires rest != [] && rest[0].state == State.Free
      ensures n == RunLength(rest) && total == Sum(rest[..n])
    {
      ReadBlock(View(), done, rest, 0);
      total, n := SizeField(mem, block), 1;
      var next := block + SizeField(mem, block);
      while next < heapEnd
        invariant 1 <= n <= |rest| && total == Sum(rest[..n]) && next == block + total
        invariant forall i :: 0 <= i < n ==> rest[i].state == State.Free
        decreases |rest| - n
      {
        RestEnd(View(), done, rest, n);
        ReadBlock(View(), done, rest, n);
        if mem[next] != FREE {
          RunLengthIs(rest, n);
          return;
        }
        total := total + SizeField(mem, next);
        next, n := next + SizeField(mem, next), n + 1;
      }
      RestEnd(View(), done, rest, n);
      RunLengthIs(rest, n);
    }

    method Defrag()
      requires Valid()
      modifies this, mem
      ensures Valid() && DefragStep(old(View()), View())
    {
      var block, end := HeapBounds();
      ghost var h0 := View();
      ghost var done: seq<Block>, rest := [], blocks;
      while block < end
        invariant Valid() && heapStart != 0 && end == heapEnd && Walking(h0, View(), done, rest)
        invariant block == heapStart + Sum(done)
        decreases |rest|
      {
        RestEnd(View(), done, rest, 0);
        block, done, rest := DefragBlock(block, h0, done, rest);
      }
      RestEnd(View(), done, rest, 0);
      assert done + Coalesce(rest) == done && done + rest == done;
    }

    /** One round of defrag's loop. */
    method DefragBlock(block: nat, ghost h0: Heap, ghost done: seq<Block>, ghost rest: seq<Block>)
      returns (next: nat, ghost done': seq<Block>, ghost rest': seq<Block>)
      requires Valid() && heapStart != 0 && Walking(h0, View(), done, rest)
      requires rest != [] && block == heapStart + Sum(done)
      modifies this`blocks, mem
      ensures Valid() && Walking(h0, View(), done', rest') && |rest'| < |rest|
      ensures next == heapStart + Sum(done')
    {
      hide Coalesce, Tiled, SameBlocks, FrontBlock, Merged, Kept;
      ghost var h := View();
      ReadBlock(h, done, rest, 0);
      if mem[block] == FREE {
        MergeRun(block, done, rest);
      } else {
        NothingMerged(h, done, rest);
      }
      WalkStep(h0, h, View(), done, rest);
      done', rest' := done + [FrontBlock(rest)], rest[FrontLength(rest)..];
      NextBlock(View(), done, FrontBlock(rest), rest');
      next := block + SizeField(mem, block);
    }

    /** Makes one block of the run of free blocks at `block`. */
    method MergeRun(block: nat, ghost done: seq<Block>, ghost rest: seq<Block>)
      requires Valid() && heapStart != 0 && blocks == done + rest && block == heapStart + Sum(done)
      requires BlocksOk(Rust, done) && BlocksOk(Rust, rest)
      requires rest != [] && rest[0].state == State.Free
      modifies this`blocks, mem
      ensures Valid() && View() == Merged(old(View()), done, rest, mem[..]) && Kept(old(View()), View(), 0)
    {
      ghost var h := View();
      ReadBlock(h, done, rest, 0);
      var total, n := RunTotal(block, done, rest);
      RestEnd(h, done, rest, n);
      StoreField(mem, block + 8, 8, total);
      blocks := done + ([FrontBlock(rest)] + rest[n..]);
      RunTiled(h, View(), done, rest, n);
    }

    // ----- heap_info -----

    /** heap_info's first pass counts the caller's blocks and adds up the free ones. */
    method CountPass() returns (t: Totals)
      requires Valid() && heapStart != 0
      ensures t == Totals(CountUsed(blocks), FreeBytes(blocks), LargestFree(blocks))
    {
      t := Totals(0, 0, 0);
      var block: nat := heapStart;
      ghost var n: nat := 0;
      WalkStarts();
      while block < heapEnd
        invariant AtBlock(block, n)
        invariant t == Totals(CountUsed(blocks[..n]), FreeBytes(blocks[..n]), LargestFree(blocks[..n]))
        decreases |blocks| - n
      {
        TotalsStep(Rust, heapStart, blocks, n);
        var state, size := ReadHeader(block, n);
        if state == USED {
          t := t.(index := t.index + 1);
        } else if state == FREE {
          t := t.(freeSpace := t.freeSpace + size, largest := if size > t.largest then size else t.largest);
        }
        block, n := block + size, n + 1;
      }
      assert blocks[..n] == blocks;
    }

    /** Allocates the two result arrays, or neither. */
    method PlaceArrays(n: nat) returns (sa: nat, pa: nat)
      requires Valid() && heapStart != 0 && 0 < n <= |blocks|
      modifies this, mem
      ensures Valid() && heapStart != 0 && Extra(old(View()), View(), sa, pa, {})
      ensures (sa == NULL <==> pa == NULL) && (sa != NULL ==> OwnArray(View(), sa, n) && OwnArray(View(), pa, n))
      ensures sa != NULL <==> TwoFit(old(View()), n)
    {
      ghost var h0 := View();
      SumMultiple(Rust, blocks);
      SmallSupported(h0, 8 * n);
      ExtraNone(h0);
      sa := Malloc(8 * n);
      ghost var h1 := View();
      ExtraMalloc(h0, h0, h1, 0, 8 * n, sa, {});
      ExtraSwap(h0, h1, 0, sa, {});
      if sa == NULL {
        return NULL, NULL;
      }
      SmallSupported(h1, 8 * n);
      pa := Malloc(8 * n);
      ghost var h2 := View();
      ExtraMalloc(h0, h1, h2, sa, 8 * n, pa, {});
      TwoFitExactly(h0, h1, h2, n, sa, pa);
      if pa == NULL {
        Free(sa);
        ExtraFree(h0, h2, View(), sa, 0, {});
        return NULL, NULL;
      }
      SetBlockState(sa, State.Internal);
      ghost var h3 := View();
      ExtraMark(h0, h2, h3, sa, pa, {}, sa);
      SetBlockState(pa, State.Internal);
      ExtraMark(h0, h3, View(), sa, pa, {}, pa);
    }

    /** heap_info's second pass fills the result arrays, and stops when they are full. */
    method FillPass(a: Arrays) returns (ghost p: seq<Pair>)
      requires Valid() && heapStart != 0 && a.n == CountUsed(blocks) > 0
      requires HasRoom(View(), a.sizes, a.n) && HasRoom(View(), a.ptrs, a.n) && a.sizes != a.ptrs
      modifies mem
      ensures Valid() && Filled(old(View()), View(), a)
      ensures p == Reported(View()) && Holds(mem[..], a, p)
    {
      ghost var h0 := View();
      var block: nat, i: nat := heapStart, 0;
      ghost var n: nat := 0;
      WalkStarts();
      ArraysApart(h0, a.sizes, a.ptrs, a.n);
      p := HoldsSomething(mem[..], a);
      ghost var t := Totals(0, 0, 0);
      while block < heapEnd && i < a.n
        invariant AtBlock(block, n) && Filling(h0, a, p, i, n, t)
        decreases |blocks| - n
      {
        block, i, p, t := FillBlock(h0, a, p, block, i, n, t);
        n := n + 1;
      }
      FilledAll(heapStart, blocks, n, t, p);
    }

    /** One round of the second pass. */
    method FillBlock(ghost h0: Heap, a: Arrays, ghost p: seq<Pair>, block: nat, i: nat, ghost n: nat, ghost t: Totals)
      returns (next: nat, i': nat, ghost p': seq<Pair>, ghost t': Totals)
      requires AtBlock(block, n) && Filling(h0, a, p, i, n, t) && n < |blocks|
      modifies mem
      ensures AtBlock(next, n + 1) && Filling(h0, a, p', i', n + 1, t')
    {
      i', p' := i, p;
      var state, size := ReadHeader(block, n);
      if state == USED {
        p', t' := FillOne(h0, a, p, block, size, i, n, t);
        i' := i + 1;
      } else {
        t' := PassedOver(heapStart, blocks, n, t, p);
      }
      next := block + size;
    }

    /** After `n` blocks the arrays hold the caller's `i` blocks among them. */
    ghost predicate Filling(h0: Heap, a: Arrays, p: seq<Pair>, i: nat, n: nat, t: Totals)
      reads this, mem
    {
      && Valid() && WellFormed(h0) && Filled(h0, View(), a) && Holds(mem[..], a, p)
      && HasRoom(h0, a.sizes, a.n) && HasRoom(h0, a.ptrs, a.n) && a.n == CountUsed(blocks)
      && Totalled(Rust, heapStart, blocks, n, t, p) && t.index == i
    }

    /** `size_array[i] = ...; ptr_array[i] = ...` for the block at `block`. */
    method FillOne(ghost h0: Heap, a: Arrays, ghost p: seq<Pair>, block: nat, size: nat, i: nat, ghost n: nat,
                   ghost t: Totals)
      returns (ghost p': seq<Pair>, ghost t': Totals)
      requires AtBlock(block, n) && Filling(h0, a, p, i, n, t)
      requires n < |blocks| && blocks[n].state == State.Used && size == blocks[n].size
      modifies mem
      ensures Filling(h0, a, p', i + 1, n + 1, t')
    {
      hide Tiled, OnlyCells, Totalled;
      ghost var h := View();
      UsedBlock(h, n);
      TotalledRoom(Rust, heapStart, blocks, n, t, p);
      PutPair(mem, a, p, i, size - HEADER_SIZE, block + HEADER_SIZE);
      p', t' := p[i := (size - 16, block + 16)], t.(index := i + 1);
      TotalledUsed(Rust, heapStart, blocks, n, t, p, t', p');
      FilledMore(h0, h, View(), a, i);
    }

    /** `u` is the heap at the second pass and `p` the pairs in the result arrays. */
    method HeapInfo() returns (r: HeapInfo, ghost u: Heap, ghost p: seq<Pair>)
      requires Valid()
      modifies this, mem
      ensures Valid() && InfoStep(old(View()), u, View(), r, p)
      ensures r.ret == 0 <==> CountUsed(old(blocks)) == 0 || TwoFit(old(View()), CountUsed(old(blocks)))
    {
      var block, end := HeapBounds();
      ghost var h0 := View();
      u, p := h0, [];
      var t := CountPass();
      ExtraNone(h0);
      KeptIsKeptBut(h0, h0);
      if t.index == 0 {
        r := HeapInfoSpec.HeapInfo(0, 0, NULL, NULL, t.freeSpace, t.largest);
        InfoNone(h0, r);
        return;
      }
      var sa, pa := PlaceArrays(t.index);
      KeptIsKeptBut(h0, View());
      if sa == NULL {
        ExtraGone(h0, View(), {});
        u := View();
        return FAILED, u, p;
      }
      ghost var u0 := View();
      ReportedSame(h0, u0, sa, pa);
      var a := Arrays(sa, pa, t.index);
      p := FillPass(a);
      u := View();
      p := SortArrays(a, p);
      r := HeapInfoSpec.HeapInfo(0, t.index, sa, pa, t.freeSpace, t.largest);
      InfoResult(h0, u0, u, View(), a, r, p);
    }

    /** sort_descending on the result arrays. */
    method SortArrays(a: Arrays, ghost p0: seq<Pair>) returns (ghost p: seq<Pair>)
      requires Valid() && Holds(mem[..], a, p0)
      requires HasRoom(View(), a.sizes, a.n) && HasRoom(View(), a.ptrs, a.n)
      modifies mem
      ensures Valid() && Holds(mem[..], a, p) && SortedDesc(p) && multiset(p) == multiset(p0)
      ensures Extra(old(View()), View(), 0, 0, {a.sizes, a.ptrs})
    {
      ghost var u := View();
      p := SelectionSort(mem, a, p0);
      CellsOwned(u, View(), a, 0, a.n);
      ExtraNone(u);
      ExtraWiden(u, u, 0, 0, {a.sizes, a.ptrs});
      ExtraWrite(u, u, View(), 0, 0, {a.sizes, a.ptrs}, {a.sizes, a.ptrs});
    }
  }

  lemma {:induction false} UsedBlock(h: Heap, n: nat)
    requires WellFormed(h) && h.format == Rust && n < |h.blocks| && h.blocks[n].state == State.Used
    ensures Usable(Rust, h.blocks[n]) == h.blocks[n].size - 16 && 16 < h.blocks[n].size < TWO32
    ensures h.start + Sum(h.blocks[..n]) + 16 < TWO32
  {
    TiledAt(Rust, h.mem, h.start, h.blocks, n);
  }

  /** A block that is not the caller's changes only the totals nobody looks at. */
  lemma {:induction false} PassedOver(a: nat, bs: seq<Block>, n: nat, t: Totals, p: seq<Pair>) returns (t': Totals)
    requires Totalled(Rust, a, bs, n, t, p) && n < |bs| && bs[n].state != State.Used
    ensures Totalled(Rust, a, bs, n + 1, t', p) && t'.index == t.index
  {
    TotalsStep(Rust, a, bs, n);
    t' := Totals(t.index, FreeBytes(bs[..n + 1]), LargestFree(bs[..n + 1]));
  }

  /** When the arrays are full, no caller's block is left. */
  lemma {:induction false} FilledAll(a: nat, bs: seq<Block>, n: nat, t: Totals, p: seq<Pair>)
    requires Totalled(Rust, a, bs, n, t, p) && |p| == CountUsed(bs) && (n == |bs| || t.index == |p|)
    ensures p == UsedList(Rust, a, bs)
  {
    assert bs == bs[..n] + bs[n..];
    UsedListConcat(Rust, a, bs[..n], bs[n..]);
    assert p[..|p|] == p;
    if n == |bs| { assert bs[..n] == bs; }
  }

  /** With no block of the caller's, heap_info reports the free space and no arrays. */
  lemma {:induction false} InfoNone(h: Heap, r: HeapInfo)
    requires WellFormed(h) && h.format == Rust && CountUsed(h.blocks) == 0
    requires r == HeapInfoSpec.HeapInfo(0, 0, 0, 0, FreeBytes(h.blocks), LargestFree(h.blocks))
    ensures InfoStep(h, h, h, r, [])
  {
    assert Reported(h) == [];
  }
}
