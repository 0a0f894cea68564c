/** The C allocator: headers embedded in the process's memory, overwritten in
    place, and walked from managed_memory_start to last_valid_address. */
module Malloc {
  import opened Bytes
  import opened Options
  import opened Sbrk
  import opened Blocks
  import opened BlockLemmas
  import opened Coalescing
  import opened Placement
  import opened HeapSpec
  import opened HeapSteps
  import opened MallocBytes
  import opened Sorting
  import opened HeapSort
  import opened UsedBlocks
  import opened HeapInfoSpec

  const NULL: nat := 0
  const FREE: byte := 0
  const USED: byte := 2

  /** `b->state = state; b->slop = slop; b->size = size`; a free block's slop is left alone. */
  method WriteHeader(mem: array<byte>, a: nat, state: State, slop: byte, size: nat)
    requires a + 8 <= mem.Length
    modifies mem
    ensures mem[..] == HeaderStored(old(mem[..]), a, state, slop, size)
  {
    mem[a] := StateByte(C, state);
    if state != Free {
      mem[a + 1] := slop;
    }
    StoreField(mem, a + 4, 4, size);
  }

  /** The block at `h` becomes a used block, split when at least MIN_SPLIT bytes
      would be left over. */
  method TakeBlock(mem: array<byte>, h: nat, ghost size: nat, blockSize: nat, slop: byte)
    requires h + size <= mem.Length && 16 <= size && blockSize <= size
    requires HeaderIs(C, mem[..], h, Block(Free, 0, size))
    modifies mem
    ensures mem[..] == Taken(old(mem[..]), h, size, blockSize, slop)
  {
    var hsize := LoadField(mem, h + 4, 4);
    var remainder := hsize - blockSize;
    if remainder >= MIN_SPLIT {
      WriteHeader(mem, h + blockSize, Free, 0, remainder);
      WriteHeader(mem, h, Used, slop, blockSize);
    } else {
      mem[h] := USED;
      mem[h + 1] := remainder;
    }
  }

  /** The scratch arrays are in memory, apart from each other and from `a`. */
  lemma {:induction false} ScratchReady(h0: Heap, h: Heap, a: Arrays, t: Arrays) returns (q: seq<Pair>)
    requires Extra(h0, h, t.sizes, t.ptrs, {}) && t.n == a.n && t.sizes != 0 && t.ptrs != 0
    requires HasRoom(h0, a.sizes, a.n) && HasRoom(h0, a.ptrs, a.n)
    requires HasRoom(h, t.sizes, a.n) && HasRoom(h, t.ptrs, a.n)
    ensures Holds(h.mem, t, q) && Separate(a, t)
  {
    ExtraOthers(h0, h, t.sizes, t.ptrs, {}, a.sizes);
    ExtraOthers(h0, h, t.sizes, t.ptrs, {}, a.ptrs);
    ArraysApart(h, t.sizes, t.ptrs, a.n);
    ArraysApart(h, a.sizes, t.sizes, a.n);
    ArraysApart(h, a.sizes, t.ptrs, a.n);
    ArraysApart(h, a.ptrs, t.sizes, a.n);
    ArraysApart(h, a.ptrs, t.ptrs, a.n);
    q := HoldsSomething(h.mem, t);
  }

  lemma {:induction false} UsedBlock(h: Heap, n: nat)
    requires WellFormed(h) && h.format == C && n < |h.blocks| && h.blocks[n].state == State.Used
    ensures 8 + h.blocks[n].slop < h.blocks[n].size < TWO32
    ensures h.start + Sum(h.blocks[..n]) + 8 < TWO32
  {
    TiledAt(C, h.mem, h.start, h.blocks, n);
  }

  /** `header_at(a)->size` */
  function SizeField(mem: array<byte>, a: nat): nat
    requires a + 8 <= mem.Length
    reads mem
  {
    Load(mem[..], a + 4, 4)
  }

  lemma {:induction false} OverflowCheck(num: u64, sz: u64)
    requires sz > 0
    ensures num > (TWO64 - 1) / sz <==> num * sz >= TWO64
  {
    var q := (TWO64 - 1) / sz;
    assert q * sz <= TWO64 - 1 < q * sz + sz;
    if num <= q {
      assert num * sz <= q * sz;
    } else {
      assert num * sz >= (q + 1) * sz;
    }
  }

  class Allocator {
    const mem: array<byte>
    const originalBreak: nat
    var programBreak: nat

    var initialized: bool
    var managedMemoryStart: nat
    var lastValidAddress: nat

    ghost var blocks: seq<Block>

    ghost function View(): Heap
      reads this, mem
    {
      Heap(C, originalBreak, if initialized then managedMemoryStart else programBreak, programBreak, blocks, mem[..])
    }

    ghost predicate Valid()
      reads this, mem
    {
      && WellFormed(View())
      && (if initialized then lastValidAddress == programBreak
          else blocks == [] && managedMemoryStart == lastValidAddress == 0)
    }

    constructor (original: nat, brk: nat)
      requires original <= brk < BREAK_LIMIT && brk % 8 == 0
      ensures Valid() && fresh(mem) && !initialized && originalBreak == original && programBreak == brk
    {
      mem := new byte[MEMSIZE_VIRTUAL];
      originalBreak, programBreak := original, brk;
      initialized, managedMemoryStart, lastValidAddress := false, 0, 0;
      blocks := [];
    }

    /** The system call, as the process sees it. */
    method SysSbrk(difference: i64) returns (r: nat)
      requires originalBreak <= programBreak < BREAK_LIMIT
      modifies this`programBreak
      ensures if Accepts(originalBreak, old(programBreak), difference)
              then r == old(programBreak) && programBreak == NewBreak(old(programBreak), difference)
              else r == TWO64 - 1 && programBreak == old(programBreak)
    {
      if Accepts(originalBreak, programBreak, difference) {
        r := programBreak;
        programBreak := NewBreak(programBreak, difference);
      } else {
        r := TWO64 - 1;
      }
    }

    method Init()
      requires Valid()
      modifies this`initialized, this`managedMemoryStart, this`lastValidAddress, this`programBreak
      ensures Valid() && initialized && View() == old(View())
    {
      if !initialized {
        AcceptsExactly(originalBreak, programBreak, 0);
        managedMemoryStart := SysSbrk(0);
        lastValidAddress := managedMemoryStart;
        initialized := true;
      }
    }

    /** The walk over the headers has reached the `n`th block, or the end. */
    ghost predicate AtBlock(cur: nat, n: nat)
      reads this
    {
      && initialized && n <= |blocks| && cur == managedMemoryStart + Sum(blocks[..n])
      && (cur < lastValidAddress <==> n < |blocks|)
    }

    lemma {:induction false} WalkStarts()
      requires Valid() && initialized
      ensures AtBlock(managedMemoryStart, 0)
    {
      PrefixEnd(C, blocks, 0);
    }

    method ReadHeader(cur: nat, ghost n: nat) returns (state: byte, slop: nat, size: nat)
      requires Valid() && AtBlock(cur, n) && n < |blocks|
      ensures state == StateByte(C, blocks[n].state) && size == blocks[n].size
      ensures blocks[n].state != State.Free ==> slop == blocks[n].slop
      ensures AtBlock(cur + size, n + 1)
    {
      TiledAt(C, mem[..], managedMemoryStart, blocks, n);
      PrefixEnd(C, blocks, n + 1);
      state, slop, size := mem[cur], mem[cur + 1], SizeField(mem, cur);
    }

    /** malloc's search loop: stops at the first free block that fits, or at the end. */
    method FindFit(blockSize: nat) returns (cur: nat, ghost n: nat)
      requires Valid() && initialized
      ensures n == FirstFit(blocks, blockSize) && AtBlock(cur, n)
      ensures cur == managedMemoryStart + Sum(blocks[..FirstFit(blocks, blockSize)])
    {
      cur, n := managedMemoryStart, 0;
      WalkStarts();
      while cur < lastValidAddress
        invariant AtBlock(cur, n)
        invariant forall j :: 0 <= j < n ==> !FitsIn(blocks[j], blockSize)
        decreases |blocks| - n
      {
        var state, slop, size := ReadHeader(cur, n);
        if state == FREE && size >= blockSize {
          FirstFitUnique(blocks, blockSize, n);
          return;
        }
        cur, n := cur + size, n + 1;
      }
      FirstFitUnique(blocks, blockSize, n);
    }

    /** What malloc(sz) does to the heap `h0`, byte for byte. */
    ghost predicate Did(h0: Heap, sz: u64, p: nat)
      requires WellFormed(h0) && h0.format == C && sz > 0
      reads this, mem
    {
      && initialized && originalBreak == h0.original && managedMemoryStart == h0.start
      && lastValidAddress == programBreak && Effect(p, mem[..], programBreak) == EffectOf(h0, sz)
    }

    /** For every size, the bytes; and for every size for which they make an allocation,
        the allocation. */
    method Malloc(sz: u64) returns (p: nat)
      requires Valid()
      modifies this, mem
      ensures sz > 0 ==> Did(old(View()), sz, p)
      ensures Keeps(old(View()), sz) ==>
        Valid() && (sz > 0 || old(initialized) ==> initialized) && MallocStep(old(View()), View(), sz, p)
    {
      hide WellFormed, EffectOf, Keeps;
      if sz == 0 {
        return NULL;
      }
      Init();
      ghost var h0 := View();
      var rounded := RoundUp64(sz, 8);
      var slop := Wrap64(rounded - sz) % 256;
      var blockSize := Wrap64(rounded + 8);

      var cur, n := FindFit(blockSize);
      if cur < lastValidAddress {
        TakeFit(sz, blockSize, slop, cur, n);
        p := cur + 8;
      } else {
        p := Grow(sz, blockSize, slop);
      }
      Settle(h0, sz, p);
    }

    /** The body of the search loop once a block that fits is found. */
    method TakeFit(sz: u64, blockSize: u64, slop: byte, cur: nat, ghost n: nat)
      requires Valid() && AtBlock(cur, n) && n == FirstFit(blocks, blockSize) < |blocks|
      requires sz > 0 && blockSize == Need64(C, sz) && slop == Slop64(sz)
      modifies mem
      ensures Did(old(View()), sz, cur + 8)
    {
      FitRoom(View(), sz);
      TakeBlock(mem, cur, blocks[n].size, blockSize, slop);
    }

    /** The blocks that the headers describe now, if malloc did what it is for. */
    ghost method Settle(h0: Heap, sz: u64, p: nat)
      requires WellFormed(h0) && h0.format == C && sz > 0 && Did(h0, sz, p)
      modifies this`blocks
      ensures Did(h0, sz, p) && (Keeps(h0, sz) ==> Valid() && MallocStep(h0, View(), sz, p))
    {
      hide EffectOf, Keeps, Kept, Tiled;
      blocks := AllocatesExactly(h0, sz);
    }

    /** `if (sbrk((intptr_t) block_size) == (void *) -1) return NULL;` and what follows. */
    method Grow(sz: u64, blockSize: u64, slop: byte) returns (p: nat)
      requires Valid() && initialized && !Fits64(View(), sz)
      requires sz > 0 && blockSize == Need64(C, sz) && slop == Slop64(sz)
      modifies this`programBreak, this`lastValidAddress, mem
      ensures Did(old(View()), sz, p)
    {
      var oldBreak := SysSbrk(Signed64(blockSize));
      if oldBreak == TWO64 - 1 {
        return NULL;
      }
      var h := lastValidAddress;
      lastValidAddress := Wrap64(lastValidAddress + blockSize);
      WriteHeader(mem, h, Used, slop, blockSize);
      p := h + 8;
    }

    method Free(p: nat)
      requires Valid() && (p != NULL ==> Live(View(), p).Some?)
      modifies this`blocks, mem
      ensures Valid() && FreeStep(old(View()), View(), p)
    {
      if p == NULL {
        return;
      }
      SetBlockState(p, State.Free);
    }

    /** `header_of(p)->state = s` */
    method SetBlockState(p: nat, s: State)
      requires Valid() && Live(View(), p).Some?
      modifies this`blocks, mem
      ensures Valid() && StateSet(old(View()), View(), p, s)
    {
      ghost var h0 := View();
      LiveRange(C, h0.start, blocks, p);
      mem[p - 8] := StateByte(C, s);
      blocks := SetState(C, h0.start, blocks, p, s);
      SetStateStep(h0, View(), p, s);
    }

    method Calloc(num: u64, sz: u64) returns (p: nat)
      requires Valid() && (num * sz < TWO64 ==> Keeps(View(), num * sz))
      modifies this, mem
      ensures Valid() && CallocStep(old(View()), View(), num, sz, p)
    {
      if num == 0 || sz == 0 {
        return NULL;
      }
      OverflowCheck(num, sz);
      if num > (TWO64 - 1) / sz {
        return NULL;
      }
      var total := num * sz;
      ghost var h0 := View();
      p := Malloc(total);
      if p != NULL {
        ghost var h1 := View();
        ghost var b := MallocMeaning(h0, h1, total, p);
        ClearBlock(p, total, h0, b);
      }
    }

    /** calloc's memset of the new block at `p`. */
    method ClearBlock(p: nat, n: nat, ghost h0: Heap, ghost b: Block)
      requires Valid() && WellFormed(h0) && Kept(h0, View(), 0) && Added(h0, View(), p, b) && n <= b.size - 8
      modifies mem
      ensures Valid() && View() == old(View()).(mem := mem[..]) && Kept(h0, View(), 0) && p + n <= mem.Length
      ensures forall x :: p <= x < p + n ==> mem[x] == 0
    {
      ghost var h1 := View();
      assert Live(h1, p) == Some(b);
      LiveFacts(h1, p);
      Memset(mem, p, 0, n);
      PayloadWritten(h0, h1, View(), p, n, b);
    }

    method Realloc(p: nat, sz: u64) returns (r: nat)
      requires Valid() && Keeps(View(), sz) && (p != NULL ==> Live(View(), p).Some?)
      modifies this, mem
      ensures Valid() && ReallocStep(old(View()), View(), p, sz, r)
    {
      if p == NULL {
        r := Malloc(sz);
        return;
      }
      if sz == 0 {
        Free(p);
        return NULL;
      }
      ghost var h0 := View();
      var oldUsable := UsableSize(p);
      r := Malloc(sz);
      if r == NULL {
        return;
      }
      MoveBlock(p, sz, r, oldUsable, h0);
    }

    /** What the header of the block at `p` says its caller may use. */
    method UsableSize(p: nat) returns (n: nat)
      requires Valid() && Live(View(), p).Some?
      ensures n == Usable(C, Live(View(), p).value)
    {
      HeaderOfLive(View(), p);
      LiveFacts(View(), p);
      n := SizeField(mem, p - 8) - 8 - mem[p - 7];
    }

    /** The end of realloc: the contents move to the new block and the old one goes. */
    method MoveBlock(p: nat, sz: u64, r: nat, oldUsable: nat, ghost h0: Heap)
      requires Valid() && WellFormed(h0) && h0.format == C && sz > 0 && p != NULL && r != NULL
      requires MallocStep(h0, View(), sz, r) && Live(h0, p).Some? && oldUsable == Usable(C, Live(h0, p).value)
      modifies this`blocks, mem
      ensures Valid() && ReallocStep(h0, View(), p, sz, r)
    {
      ghost var h1 := View();
      ghost var b := MallocMeaning(h0, h1, sz, r);
      var n := if oldUsable < sz then oldUsable else sz;
      CopyBlock(p, r, n, h0, b);
      ghost var h2 := View();
      assert Live(h2, p) == Live(h1, p) == Live(h0, p);
      Free(p);
      ReallocMeaning(h0, h1, h2, View(), p, sz, r, n, b);
    }

    /** realloc's memcpy, from the old block at `p` to the new one at `r`. */
    method CopyBlock(p: nat, r: nat, n: nat, ghost h0: Heap, ghost b: Block)
      requires Valid() && WellFormed(h0) && p != NULL && Live(h0, p).Some? && n <= Live(h0, p).value.size - 8
      requires Kept(h0, View(), 0) && Added(h0, View(), r, b) && n <= b.size - 8
      modifies mem
      ensures Valid() && View() == old(View()).(mem := mem[..]) && Kept(h0, View(), 0)
      ensures p + n <= |h0.mem| && r + n <= mem.Length && mem[r..r + n] == h0.mem[p..p + n]
    {
      ghost var h1 := View();
      CopyRoom(h0, h1, p, r, b);
      SameBytes(h0, h1, p, n);
      Memcpy(mem, r, p, n);
      PayloadWritten(h0, h1, View(), r, n, b);
    }

    /** defrag's inner loop: where the run of free blocks that starts at `cur` ends. */
    method RunEnd(cur: nat, ghost done: seq<Block>, ghost rest: seq<Block>) returns (next: nat, ghost n: nat)
      requires Valid() && initialized && blocks == done + rest && cur == managedMemoryStart + Sum(done)
      requires rest != [] && rest[0].state == State.Free
      ensures n == RunLength(rest) && next == cur + Sum(rest[..n])
    {
      ghost var k := |done|;
      ReadBlock(View(), done, rest, 0);
      next, n := cur + SizeField(mem, cur), 1;
      while next < lastValidAddress
        invariant 1 <= n <= |rest| && next == cur + Sum(rest[..n])
        invariant forall i :: 0 <= i < n ==> rest[i].state == State.Free
        decreases |rest| - n
      {
        RestEnd(View(), done, rest, n);
        ReadBlock(View(), done, rest, n);
        if mem[next] != FREE {
          RunLengthIs(rest, n);
          return;
        }
        next, n := next + SizeField(mem, next), n + 1;
      }
      RestEnd(View(), done, rest, n);
      RunLengthIs(rest, n);
    }

    method Defrag()
      requires Valid()
      modifies this`blocks, mem
      ensures Valid() && DefragStep(old(View()), View())
    {
      ghost var h0 := View();
      ghost var done: seq<Block>, rest := [], blocks;
      var cur := managedMemoryStart;
      while cur < lastValidAddress
        invariant Valid() && Walking(h0, View(), done, rest)
        invariant initialized ==> cur == managedMemoryStart + Sum(done)
        invariant !initialized ==> cur == 0 && rest == []
        decreases |rest|
      {
        RestEnd(View(), done, rest, 0);
        cur, done, rest := DefragBlock(cur, h0, done, rest);
      }
      RestEnd(View(), done, rest, 0);
      assert done + Coalesce(rest) == done && done + rest == done;
    }

    /** One round of defrag's loop. */
    method DefragBlock(cur: nat, ghost h0: Heap, ghost done: seq<Block>, ghost rest: seq<Block>)
      returns (cur': nat, ghost done': seq<Block>, ghost rest': seq<Block>)
      requires Valid() && initialized && Walking(h0, View(), done, rest)
      requires rest != [] && cur == managedMemoryStart + Sum(done)
      modifies this`blocks, mem
      ensures Valid() && Walking(h0, View(), done', rest') && |rest'| < |rest|
      ensures cur' == managedMemoryStart + Sum(done')
    {
      hide Coalesce, Tiled, SameBlocks, FrontBlock, Merged, Kept;
      ghost var h := View();
      ReadBlock(h, done, rest, 0);
      if mem[cur] == FREE {
        MergeRun(cur, done, rest);
      } else {
        NothingMerged(h, done, rest);
      }
      WalkStep(h0, h, View(), done, rest);
      done', rest' := done + [FrontBlock(rest)], rest[FrontLength(rest)..];
      NextBlock(View(), done, FrontBlock(rest), rest');
      cur' := cur + SizeField(mem, cur);
    }

    /** Makes one block of the run of free blocks at `cur`. */
    method MergeRun(cur: nat, ghost done: seq<Block>, ghost rest: seq<Block>)
      requires Valid() && initialized && blocks == done + rest && cur == managedMemoryStart + Sum(done)
      requires BlocksOk(C, done) && BlocksOk(C, rest)
      requires rest != [] && rest[0].state == State.Free
      modifies this`blocks, mem
      ensures Valid() && View() == Merged(old(View()), done, rest, mem[..]) && Kept(old(View()), View(), 0)
    {
      ghost var h := View();
      ReadBlock(h, done, rest, 0);
      var next, n := RunEnd(cur, done, rest);
      if next != cur + SizeField(mem, cur) {
        StoreField(mem, cur + 4, 4, next - cur);
      }
      blocks := done + ([FrontBlock(rest)] + rest[n..]);
      RunTiled(h, View(), done, rest, n);
    }

    // ----- heap_info -----

    /** heap_info's first pass: how many blocks the caller has. */
    method CountPass() returns (numAllocs: nat)
      requires Valid() && initialized
      ensures numAllocs == CountUsed(blocks)
    {
      numAllocs := 0;
      var cur: nat := managedMemoryStart;
      ghost var n: nat := 0;
      WalkStarts();
      while cur < lastValidAddress
        invariant AtBlock(cur, n) && numAllocs == CountUsed(blocks[..n])
        decreases |blocks| - n
      {
        TotalsStep(C, managedMemoryStart, blocks, n);
        var state, slop, size := ReadHeader(cur, n);
        if state == USED {
          numAllocs := numAllocs + 1;
        }
        cur, n := cur + size, n + 1;
      }
      assert blocks[..n] == blocks;
    }

    /** heap_info's second pass: fills the result arrays and adds up the free blocks. */
    method FillPass(a: Arrays) returns (t: Totals, ghost p: seq<Pair>)
      requires Valid() && initialized && a.n == CountUsed(blocks)
      requires a.n > 0 ==> HasRoom(View(), a.sizes, a.n) && HasRoom(View(), a.ptrs, a.n) && a.sizes != a.ptrs
      requires a.n == 0 ==> a.sizes == a.ptrs == 0
      modifies mem
      ensures Valid() && Filled(old(View()), View(), a)
      ensures t == Totals(a.n, FreeBytes(blocks), LargestFree(blocks))
      ensures p == Reported(View()) && Holds(mem[..], a, p)
    {
      ghost var h0 := View();
      t := Totals(0, 0, 0);
      var cur: nat := managedMemoryStart;
      ghost var n: nat := 0;
      WalkStarts();
      if a.n > 0 { ArraysApart(h0, a.sizes, a.ptrs, a.n); }
      p := HoldsSomething(mem[..], a);
      while cur < lastValidAddress
        invariant AtBlock(cur, n) && Filling(h0, a, p, t, n)
        decreases |blocks| - n
      {
        cur, t, p := FillBlock(h0, a, p, cur, t, n);
        n := n + 1;
      }
      TotalledAll(C, managedMemoryStart, blocks, t, p);
    }

    /** One round of the second pass. */
    method FillBlock(ghost h0: Heap, a: Arrays, ghost p: seq<Pair>, cur: nat, t: Totals, ghost n: nat)
      returns (next: nat, t': Totals, ghost p': seq<Pair>)
      requires AtBlock(cur, n) && Filling(h0, a, p, t, n) && n < |blocks|
      modifies mem
      ensures AtBlock(next, n + 1) && Filling(h0, a, p', t', n + 1)
    {
      t', p' := t, p;
      var state, slop, size := ReadHeader(cur, n);
      if state == USED {
        t', p' := FillOne(h0, a, p, cur, slop, size, t, n);
      } else if state == FREE {
        TotalledFree(C, managedMemoryStart, blocks, n, t, p);
        t' := Totals(t.index, t.freeSpace + size, if size > t.largest then size else t.largest);
      } else {
        TotalledInternal(C, managedMemoryStart, blocks, n, t, p);
      }
      next := cur + size;
    }

    /** After `n` blocks the arrays hold the caller's blocks among them, and `t`
        counts the free ones. */
    ghost predicate Filling(h0: Heap, a: Arrays, p: seq<Pair>, t: Totals, n: nat)
      reads this, mem
    {
      && Valid() && initialized && WellFormed(h0) && Filled(h0, View(), a) && Holds(mem[..], a, p)
      && (a.n > 0 ==> HasRoom(h0, a.sizes, a.n) && HasRoom(h0, a.ptrs, a.n)) && a.n == CountUsed(blocks)
      && Totalled(C, managedMemoryStart, blocks, n, t, p)
    }

    /** `size_array[index] = ...; ptr_array[index] = ...; index++;` for the block at `cur`. */
    method FillOne(ghost h0: Heap, a: Arrays, ghost p: seq<Pair>, cur: nat, slop: nat, size: nat, t: Totals,
                   ghost n: nat)
      returns (t': Totals, ghost p': seq<Pair>)
      requires AtBlock(cur, n) && Filling(h0, a, p, t, n)
      requires n < |blocks| && blocks[n].state == State.Used && size == blocks[n].size && slop == blocks[n].slop
      modifies mem
      ensures Filling(h0, a, p', t', n + 1)
    {
      hide Tiled, OnlyCells, Totalled;
      ghost var h := View();
      UsedBlock(h, n);
      TotalledRoom(C, managedMemoryStart, blocks, n, t, p);
      PutPair(mem, a, p, t.index, size - 8 - slop, cur + 8);
      p', t' := p[t.index := (size - 8 - slop, cur + 8)], t.(index := t.index + 1);
      TotalledUsed(C, managedMemoryStart, blocks, n, t, p, t', p');
      FilledMore(h0, h, View(), a, t.index);
    }

    /** heap_info's sort. The scratch arrays come from the heap and go back to it. */
    method SortDescending(a: Arrays, ghost p0: seq<Pair>) returns (ghost p: seq<Pair>)
      requires Valid() && initialized && a.n > 0 && Holds(mem[..], a, p0)
      requires HasRoom(View(), a.sizes, a.n) && HasRoom(View(), a.ptrs, a.n) && a.sizes != a.ptrs
      modifies this, mem
      ensures Valid() && initialized && Holds(mem[..], a, p)
      ensures SortedDesc(p) && multiset(p) == multiset(p0)
      ensures TwoFit(old(View()), a.n) ==> p == SortDesc(p0)
      ensures Extra(old(View()), View(), 0, 0, {a.sizes, a.ptrs})
    {
      ghost var h0 := View();
      var t1, t2 := GetScratch(a, p0);
      p := SortWith(a, p0, t1, t2, h0);
      ReleaseScratch(a, p, t1, t2, h0);
    }

    method GetScratch(a: Arrays, ghost p0: seq<Pair>) returns (t1: nat, t2: nat)
      requires Valid() && initialized && a.n > 0 && Holds(mem[..], a, p0)
      requires HasRoom(View(), a.sizes, a.n) && HasRoom(View(), a.ptrs, a.n)
      modifies this, mem
      ensures Valid() && initialized && Holds(mem[..], a, p0)
      ensures Extra(old(View()), View(), t1, t2, {})
      ensures t1 != NULL ==> HasRoom(View(), t1, a.n)
      ensures t2 != NULL ==> HasRoom(View(), t2, a.n)
      ensures TwoFit(old(View()), a.n) ==> t1 != NULL && t2 != NULL
    {
      ghost var h0 := View();
      LiveFacts(h0, a.sizes);
      SmallSupported(h0, 8 * a.n);
      ExtraNone(h0);
      t1 := Malloc(8 * a.n);
      ghost var h1 := View();
      ExtraMalloc(h0, h0, h1, 0, 8 * a.n, t1, {});
      ExtraSwap(h0, h1, 0, t1, {});
      SmallSupported(h1, 8 * a.n);
      t2 := Malloc(8 * a.n);
      ExtraMalloc(h0, h1, View(), t1, 8 * a.n, t2, {});
      TwoFitExactly(h0, h1, View(), a.n, t1, t2);
      KeptIsKeptBut(h0, View());
      HoldsKept(h0, View(), a, p0);
    }

    method SortWith(a: Arrays, ghost p0: seq<Pair>, t1: nat, t2: nat, ghost h0: Heap) returns (ghost p: seq<Pair>)
      requires Valid() && initialized && Holds(mem[..], a, p0) && Extra(h0, View(), t1, t2, {})
      requires HasRoom(h0, a.sizes, a.n) && HasRoom(h0, a.ptrs, a.n) && a.sizes != a.ptrs
      requires t1 != NULL ==> HasRoom(View(), t1, a.n)
      requires t2 != NULL ==> HasRoom(View(), t2, a.n)
      modifies this`blocks, mem
      ensures Valid() && Holds(mem[..], a, p) && Extra(h0, View(), t1, t2, {a.sizes, a.ptrs})
      ensures SortedDesc(p) && multiset(p) == multiset(p0)
      ensures t1 != NULL && t2 != NULL ==> p == SortDesc(p0)
    {
      hide Holds;
      ghost var ps := {a.sizes, a.ptrs};
      ExtraOthers(h0, View(), t1, t2, {}, a.sizes);
      ExtraOthers(h0, View(), t1, t2, {}, a.ptrs);
      if t1 != NULL && t2 != NULL {
        MarkScratch(a, p0, t1, t2, h0);
        ghost var h := View();
        var t := Arrays(t1, t2, a.n);
        ghost var q := ScratchReady(h0, h, a, t);
        assert p0[0..a.n] == p0;
        q := MergeSortDescending(mem, a, p0, p0, t, q, 0, a.n);
        p := SortDesc(p0);
        assert Splice(p0, 0, p) == p;
        SortDescCorrect(p0);
        CellsOwned2(h, View(), a, t);
        ExtraWiden(h0, h, t1, t2, ps);
        ExtraWrite(h0, h, View(), t1, t2, ps, {a.sizes, a.ptrs, t1, t2});
      } else {
        ghost var h := View();
        p := SelectionSort(mem, a, p0);
        CellsOwned(h, View(), a, 0, a.n);
        ExtraWiden(h0, h, t1, t2, ps);
        ExtraWrite(h0, h, View(), t1, t2, ps, ps);
      }
    }

    /** Marks both scratch arrays as the library's own. */
    method MarkScratch(a: Arrays, ghost p0: seq<Pair>, t1: nat, t2: nat, ghost h0: Heap)
      requires Valid() && Holds(mem[..], a, p0) && Extra(h0, View(), t1, t2, {}) && t1 != NULL && t2 != NULL
      requires HasRoom(h0, a.sizes, a.n) && HasRoom(h0, a.ptrs, a.n)
      requires HasRoom(View(), t1, a.n) && HasRoom(View(), t2, a.n)
      modifies this`blocks, mem
      ensures Valid() && Holds(mem[..], a, p0) && Extra(h0, View(), t1, t2, {})
      ensures OwnArray(View(), t1, a.n) && OwnArray(View(), t2, a.n)
    {
      ghost var h := View();
      SetBlockState(t1, State.Internal);
      ghost var h1 := View();
      ExtraMark(h0, h, h1, t1, t2, {}, t1);
      ExtraOthers(h0, h, t1, t2, {}, a.sizes);
      ExtraOthers(h0, h, t1, t2, {}, a.ptrs);
      HoldsKept(h, h1, a, p0);
      SetBlockState(t2, State.Internal);
      ExtraMark(h0, h1, View(), t1, t2, {}, t2);
      HoldsKept(h1, View(), a, p0);
    }

    method ReleaseScratch(a: Arrays, ghost p: seq<Pair>, t1: nat, t2: nat, ghost h0: Heap)
      requires Valid() && initialized && Holds(mem[..], a, p) && Extra(h0, View(), t1, t2, {a.sizes, a.ptrs})
      requires HasRoom(h0, a.sizes, a.n) && HasRoom(h0, a.ptrs, a.n)
      modifies this`blocks, mem
      ensures Valid() && Holds(mem[..], a, p) && Extra(h0, View(), 0, 0, {a.sizes, a.ptrs})
    {
      ghost var ps, h := {a.sizes, a.ptrs}, View();
      ExtraOthers(h0, h, t1, t2, ps, a.sizes);
      ExtraOthers(h0, h, t1, t2, ps, a.ptrs);
      Free(t1);
      ghost var h1 := View();
      ExtraFree(h0, h, h1, t1, t2, ps);
      HoldsKept(h, h1, a, p);
      ExtraOthers(h0, h1, 0, t2, ps, a.sizes);
      ExtraOthers(h0, h1, 0, t2, ps, a.ptrs);
      ExtraSwap(h0, h1, 0, t2, ps);
      Free(t2);
      ExtraFree(h0, h1, View(), t2, 0, ps);
      HoldsKept(h1, View(), a, p);
    }

    /** Allocates the two result arrays, or neither. */
    method PlaceArrays(n: nat) returns (sa: nat, pa: nat)
      requires Valid() && initialized && 0 < n <= |blocks|
      modifies this, mem
      ensures Valid() && initialized && Extra(old(View()), View(), sa, pa, {})
      ensures (sa == NULL <==> pa == NULL) && (sa != NULL ==> OwnArray(View(), sa, n) && OwnArray(View(), pa, n))
      ensures sa != NULL <==> TwoFit(old(View()), n)
    {
      ghost var h0 := View();
      SumMultiple(C, blocks);
      SmallSupported(h0, 8 * n);
      ExtraNone(h0);
      sa := Malloc(8 * n);
      ghost var h1 := View();
      ExtraMalloc(h0, h0, h1, 0, 8 * n, sa, {});
      ExtraSwap(h0, h1, 0, sa, {});
      SmallSupported(h1, 8 * n);
      pa := Malloc(8 * n);
      ghost var h2 := View();
      ExtraMalloc(h0, h1, h2, sa, 8 * n, pa, {});
      TwoFitExactly(h0, h1, h2, n, sa, pa);
      if sa == NULL || pa == NULL {
        DropArrays(sa, pa, h0);
        return NULL, NULL;
      }
      SetBlockState(sa, State.Internal);
      ghost var h3 := View();
      ExtraMark(h0, h2, h3, sa, pa, {}, sa);
      SetBlockState(pa, State.Internal);
      ExtraMark(h0, h3, View(), sa, pa, {}, pa);
    }

    /** `free(size_array); free(ptr_array);` on the failure path. */
    method DropArrays(sa: nat, pa: nat, ghost h0: Heap)
      requires Valid() && Extra(h0, View(), sa, pa, {})
      modifies this`blocks, mem
      ensures Valid() && Extra(h0, View(), 0, 0, {})
    {
      ghost var h := View();
      Free(sa);
      ghost var h1 := View();
      ExtraFree(h0, h, h1, sa, pa, {});
      ExtraSwap(h0, h1, 0, pa, {});
      Free(pa);
      ExtraFree(h0, h1, View(), pa, 0, {});
    }

    /** `u` is the heap at the second pass and `p` the pairs in the result arrays. */
    method HeapInfo() returns (r: HeapInfo, ghost u: Heap, ghost p: seq<Pair>)
      requires Valid()
      modifies this, mem
      ensures Valid() && InfoStep(old(View()), u, View(), r, p)
      ensures r.ret == 0 <==>
        old(initialized) && (CountUsed(old(blocks)) == 0 || TwoFit(old(View()), CountUsed(old(blocks))))
      ensures r.ret == 0 && r.numAllocs > 0 && TwoFit(u, r.numAllocs) ==> p == SortDesc(Reported(old(View())))
    {
      ghost var h0 := View();
      u, p := h0, [];
      if !initialized {
        return FAILED, u, p;
      }
      var numAllocs := CountPass();
      var sa, pa := NULL, NULL;
      ExtraNone(h0);
      KeptIsKeptBut(h0, h0);
      if numAllocs > 0 {
        sa, pa := PlaceArrays(numAllocs);
        KeptIsKeptBut(h0, View());
        if sa == NULL || pa == NULL {
          ExtraGone(h0, View(), {});
          u := View();
          return FAILED, u, p;
        }
      }
      ghost var u0 := View();
      ReportedSame(h0, u0, sa, pa);
      var a := Arrays(sa, pa, numAllocs);
      var t: Totals;
      t, p := FillPass(a);
      assert t.index == numAllocs;
      u := View();
      ExtraNone(u);
      ExtraWiden(u, u, 0, 0, {sa, pa});
      if numAllocs > 0 {
        p := SortDescending(a, p);
      }
      r := HeapInfoSpec.HeapInfo(0, numAllocs, sa, pa, t.freeSpace, t.largest);
      InfoResult(h0, u0, u, View(), a, r, p);
    }
  }
}
