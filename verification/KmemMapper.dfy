/** The device driver's memory: where the two monitored cells lie, the bytes it initialises and
    the pages it reserves and releases. */
module KmemMapper {
  import opened Alignment
  import M = Monitor

  const PAGE_SHIFT: nat := 12
  const PAGE_SIZE: nat := 4096
  const LINE: nat := 64
  const LEN: nat := 4096
  const MONITORED_REGIONS_DISTANCE: nat := 512
  const LINT_VAR_OFFSET: nat := 128
  const LINT_BYTES: nat := 8
  const INIT_BYTES: nat := 10

  function PageOf(addr: nat): nat
  {
    addr / PAGE_SIZE
  }

  function LineOf(addr: nat): nat
  {
    addr / LINE
  }

  /** The page numbers from `lo` up to but not including `hi`. */
  function Pages(lo: nat, hi: nat): (s: set<nat>)
    ensures forall p :: p in s <==> lo <= p < hi
  {
    if lo >= hi then {} else Pages(lo, hi - 1) + {hi - 1}
  }

  /** The pages that hold a byte of the `LEN` bytes from `addr` on. */
  function PagesOf(addr: nat): set<nat>
  {
    Pages(PageOf(addr), PageOf(addr + LEN - 1) + 1)
  }

  ghost predicate DifferentLines(a: nat, n: nat, b: nat, m: nat)
  {
    forall x: nat, y: nat :: a <= x < a + n && b <= y < b + m ==> LineOf(x) != LineOf(y)
  }

  lemma AreaInBlock(w: nat, ptr: nat)
    requires PAGE_SHIFT <= w && ptr + LEN + 2 * PAGE_SIZE <= Pow2(w)
    ensures var area := AlignUp(w, ptr, PAGE_SHIFT);
            area % PAGE_SIZE == 0 && ptr <= area < ptr + PAGE_SIZE
  {
    assert Pow2(PAGE_SHIFT) == PAGE_SIZE;
    AlignUpIsLeastMultiple(w, ptr, PAGE_SHIFT);
  }

  /** The page, or the line, numbered so holds the byte. */
  lemma PagesAndLines(x: nat)
    ensures PageOf(x) * 4096 <= x < (PageOf(x) + 1) * 4096
    ensures LineOf(x) * 64 <= x < (LineOf(x) + 1) * 64
  {
  }

  /** The pages of an area are those that hold one of its bytes. */
  lemma PagesHoldArea(addr: nat, p: nat)
    ensures p in PagesOf(addr) <==> exists x: nat :: addr <= x < addr + 4096 && PageOf(x) == p
  {
    if p in PagesOf(addr) {
      var x := if p == PageOf(addr) then addr else p * 4096;
      assert PageOf(x) == p;
    }
  }

  lemma LinesOfPage(area: nat)
    requires area % PAGE_SIZE == 0
    ensures DifferentLines(area, 64, area + 512, 64)
    ensures DifferentLines(area, 64, area + 128, 8)
    ensures DifferentLines(area + 512, 64, area + 128, 8)
    ensures PagesOf(area) == {PageOf(area)}
    ensures forall x: nat :: area <= x < area + LEN ==> PageOf(x) == PageOf(area)
  {
    assert area == 64 * (64 * (area / PAGE_SIZE));
    assert PageOf(area + LEN - 1) == PageOf(area);
  }

  /** A page on a page boundary, and a second cell inside it. */
  predicate Placed(base: nat, distance: nat)
  {
    base % 4096 == 0 && 0 < distance < 4096
  }

  /** Wherever kmalloc puts the block, its first page boundary gives a page inside the block, and in
      that page the two cells (each with its whole line) and the shared long lie in three different
      lines. */
  lemma LayoutIsSafe(w: nat, ptr: nat)
    requires PAGE_SHIFT <= w && ptr + LEN + 2 * PAGE_SIZE <= Pow2(w)
    ensures var area := AlignUp(w, ptr, PAGE_SHIFT);
            var area2, lint := area + MONITORED_REGIONS_DISTANCE, area + LINT_VAR_OFFSET;
            && area % 4096 == 0 && PageOf(area) * 4096 == area
            && ptr <= area && area + 4096 <= ptr + LEN + 2 * PAGE_SIZE == ptr + 12288
            && area2 == area + 512 && lint == area + 128
            && area2 + 64 <= area + 4096 && lint + 8 <= area + 4096
            && Placed(area, MONITORED_REGIONS_DISTANCE)
            && PagesOf(area) == {PageOf(area)}
            && (forall x: nat :: area <= x < area + 4096 ==> PageOf(x) == PageOf(area))
            && DifferentLines(area, 64, area2, 64)
            && DifferentLines(area, 64, lint, 8)
            && DifferentLines(area2, 64, lint, 8)
  {
    AreaInBlock(w, ptr);
    LinesOfPage(AlignUp(w, ptr, PAGE_SHIFT));
  }

  class Driver {
    const w: nat
    /** The bytes kmalloc hands out, and their address. */
    const block: array<char>
    const kmallocPtr: nat
    var area: nat
    var area2: nat
    var lint: nat
    /** Pages marked reserved, by page number. */
    var reserved: set<nat>

    ghost predicate Valid()
    {
      PAGE_SHIFT <= w && block.Length == LEN + 2 * PAGE_SIZE && kmallocPtr + block.Length <= Pow2(w)
    }

    ghost predicate Loaded()
      reads this
    {
      && Valid()
      && area == AlignUp(w, kmallocPtr, PAGE_SHIFT)
      && area2 == area + MONITORED_REGIONS_DISTANCE
      && lint == area + LINT_VAR_OFFSET
    }

    constructor (w: nat, block: array<char>, ptr: nat, reserved: set<nat>)
      requires PAGE_SHIFT <= w && block.Length == LEN + 2 * PAGE_SIZE && ptr + block.Length <= Pow2(w)
      ensures Valid() && this.block == block && this.reserved == reserved && this.kmallocPtr == ptr
    {
      this.w, this.block, this.kmallocPtr, this.reserved := w, block, ptr, reserved;
      area, area2, lint := 0, 0, 0;
    }

    /** Byte `i` of the block is one of the first ten of a monitored cell. */
    ghost predicate Initialised(i: nat)
      reads this
    {
      area <= kmallocPtr + i < area + 10 || area2 <= kmallocPtr + i < area2 + 10
    }

    /** The loop of kmem_mapper_init and kmem_mapper_open. */
    method ResetBytes()
      requires Loaded()
      modifies block
      ensures forall i :: 0 <= i < block.Length ==>
                block[i] == if Initialised(i) then 'a' else old(block[i])
    {
      AreaInBlock(w, kmallocPtr);
      var one, two := area - kmallocPtr, area2 - kmallocPtr;
      for i := 0 to INIT_BYTES
        invariant forall j :: 0 <= j < block.Length ==>
                    block[j] == if one <= j < one + i || two <= j < two + i then M.ORIGINAL_VAL else old(block[j])
      {
        block[one + i] := M.ORIGINAL_VAL;
        block[two + i] := M.ORIGINAL_VAL;
      }
    }

    /** SetPageReserved on every page of the area. */
    method ReservePages()
      requires Loaded()
      modifies this`reserved
      ensures reserved == old(reserved) + PagesOf(area)
    {
      AreaInBlock(w, kmallocPtr);
      var addr := area;
      while addr < area + LEN
        invariant (addr == area || addr == area + LEN) && addr % PAGE_SIZE == 0
        invariant reserved == old(reserved) + Pages(PageOf(area), PageOf(addr))
        decreases area + LEN - addr
      {
        reserved := reserved + {PageOf(addr)};
        assert PageOf(addr + PAGE_SIZE) == PageOf(addr) + 1;
        addr := addr + PAGE_SIZE;
      }
      assert PageOf(addr) == PageOf(area + LEN - 1) + 1;
    }

    /** ClearPageReserved on every page of the area. */
    method ReleasePages()
      requires Loaded()
      modifies this`reserved
      ensures reserved == old(reserved) - PagesOf(area)
    {
      AreaInBlock(w, kmallocPtr);
      var addr := area;
      while addr < area + LEN
        invariant (addr == area || addr == area + LEN) && addr % PAGE_SIZE == 0
        invariant reserved == old(reserved) - Pages(PageOf(area), PageOf(addr))
        decreases area + LEN - addr
      {
        reserved := reserved - {PageOf(addr)};
        assert PageOf(addr + PAGE_SIZE) == PageOf(addr) + 1;
        addr := addr + PAGE_SIZE;
      }
      assert PageOf(addr) == PageOf(area + LEN - 1) + 1;
    }

    /** kmem_mapper_init from the allocation on; `granted` is whether kmalloc succeeded. */
    method Init(granted: bool) returns (ret: int)
      requires Valid()
      modifies this, block
      ensures !granted ==> ret == -1 && block[..] == old(block[..]) && unchanged(this)
      ensures granted ==>
                && ret == 0 && Loaded() && reserved == old(reserved) + PagesOf(area)
                && kmallocPtr <= area && area2 - kmallocPtr < block.Length
                && block[area - kmallocPtr] == block[area2 - kmallocPtr] == 'a'
                && forall i :: 0 <= i < block.Length ==>
                     block[i] == if Initialised(i) then 'a' else old(block[i])
    {
      if !granted {
        return -1;
      }
      area := AlignUp(w, kmallocPtr, PAGE_SHIFT);
      area2 := area + MONITORED_REGIONS_DISTANCE;
      lint := area + LINT_VAR_OFFSET;
      AreaInBlock(w, kmallocPtr);
      ReservePages();
      ResetBytes();
      assert Initialised(area - kmallocPtr) && Initialised(area2 - kmallocPtr);
      ret := 0;
    }

    /** Load the module and, if that succeeds, unload it. The page flags are left as they were exactly
        if the page was not reserved before; otherwise unloading clears its flag. */
    method LoadThenUnload(granted: bool) returns (ret: int)
      requires Valid()
      modifies this, block
      ensures ret == if granted then 0 else -1
      ensures !granted ==> block[..] == old(block[..]) && unchanged(this)
      ensures granted ==> Loaded() && reserved == old(reserved) - PagesOf(area)
      ensures granted ==> (reserved == old(reserved) <==> old(reserved) !! PagesOf(area))
    {
      ret := Init(granted);
      if granted {
        ReleasePages();
      }
    }
  }
}
