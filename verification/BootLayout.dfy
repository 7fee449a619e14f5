/**
 The layout of RAM at boot: code and boot stack, then the seed of the kernel heap, then the pages
 for everybody else; the guard that refuses bad layouts; and the memory manager that starts from it.
 */
module BootLayout {
  import opened Prelude
  import opened PagePool
  import opened FrameManager
  import Bitmap

  const MB: nat := 0x10_0000

  /** Bytes between the start of RAM and the kernel image. */
  const KERNEL_PHYS_OFFSET: nat := 0x10_0000

  /** What differs between build profiles. */
  datatype Config = Config(minCodeAndStack: nat, stackGuard: nat, calcClampMb: nat, heapSizeMb: nat, smallFloor: nat)

  datatype Machine = Machine(ramBase: nat, ramSize: nat, kernelEnd: nat, stackBottom: nat, stackTop: nat)

  datatype Layout = Layout(codeAndStack: nat, heapStart: nat, heapSize: nat, userStart: nat, userSize: nat)

  function SaturatingSub(a: nat, b: nat): nat {
    if a < b then 0 else a - b
  }

  /** The RAM that the kernel's own parts are sized by: all of it, or no more than the clamp says. */
  function ReserveCalcRam(ramSize: nat, clampMb: nat): (r: nat)
    ensures r <= ramSize && (clampMb == 0 ==> r == ramSize)
    ensures clampMb != 0 ==> r <= clampMb * 0x10_0000 && (r == ramSize || r == clampMb * 0x10_0000)
  {
    if clampMb != 0 then Min(ramSize, clampMb * MB) else ramSize
  }

  function ComputeHeapSize(ramSize: nat, codeAndStack: nat, c: Config): nat {
    if c.heapSizeMb != 0 then c.heapSizeMb * MB
    else if ramSize >= 256 * MB then Max(64 * MB, Min(ramSize / 8, 256 * MB))
    else
      var cap := SaturatingSub(SaturatingSub(ramSize, codeAndStack), 4 * MB);
      Min(Max(ramSize / 8, c.smallFloor), Max(cap, MB))
  }

  function ComputeMemoryLayout(m: Machine, c: Config): Layout
    requires m.ramBase <= m.stackTop
  {
    var calcRam := ReserveCalcRam(m.ramSize, c.calcClampMb);
    var code := Max(Max(calcRam / 16, c.minCodeAndStack), m.stackTop - m.ramBase + c.stackGuard);
    var heap := ComputeHeapSize(calcRam, code, c);
    Layout(code, m.ramBase + code, heap, m.ramBase + code + heap, SaturatingSub(m.ramSize, code + heap))
  }

  /** Small machines: an eighth of RAM or the floor at most, and 4 MiB for users left or 1 MiB at most. */
  predicate SmallHeap(size: nat, ramSize: nat, codeAndStack: nat, floor: nat) {
    && (8 * size <= ramSize || size <= floor)
    && (size + codeAndStack + 0x40_0000 <= ramSize || size <= 0x10_0000)
  }

  /**
   The seed of the heap: the configured size if there is one; from 256 MiB of RAM on an eighth of it,
   between 64 and 256 MiB; on smaller machines the largest size of the kind that `SmallHeap` says.
   */
  lemma HeapSizeExactly(ramSize: nat, codeAndStack: nat, c: Config, other: nat)
    ensures var size := ComputeHeapSize(ramSize, codeAndStack, c);
            && (c.heapSizeMb != 0 ==> size == c.heapSizeMb * 0x10_0000)
            && (c.heapSizeMb == 0 && ramSize >= 0x1000_0000 ==>
                  && 0x400_0000 <= size <= 0x1000_0000
                  && (size > ramSize / 8 ==> size == 0x400_0000) && (size < ramSize / 8 ==> size == 0x1000_0000))
            && (c.heapSizeMb == 0 && ramSize < 0x1000_0000 ==>
                  && SmallHeap(size, ramSize, codeAndStack, c.smallFloor)
                  && (SmallHeap(other, ramSize, codeAndStack, c.smallFloor) ==> other <= size))
  {
  }

  /**
   The first part is the smallest that is a sixteenth of the RAM that counts, the configured minimum and
   the boot stack with its guard at least; heap and user pages follow without a gap, and the user pages
   are all that is left of the real RAM.
   */
  lemma LayoutExactly(m: Machine, c: Config, other: nat)
    requires m.ramBase <= m.stackTop
    ensures var l, ram := ComputeMemoryLayout(m, c), ReserveCalcRam(m.ramSize, c.calcClampMb);
            && CoversBoot(l.codeAndStack, m, c, ram) && (CoversBoot(other, m, c, ram) ==> l.codeAndStack <= other)
            && l.heapStart == m.ramBase + l.codeAndStack && l.userStart == l.heapStart + l.heapSize
            && l.heapSize == ComputeHeapSize(ram, l.codeAndStack, c)
            && (l.codeAndStack + l.heapSize <= m.ramSize ==> l.userStart + l.userSize == m.ramBase + m.ramSize)
            && (l.codeAndStack + l.heapSize > m.ramSize ==> l.userSize == 0)
  {
  }

  predicate CoversBoot(size: nat, m: Machine, c: Config, ram: nat) {
    16 * size + 15 >= ram && size >= c.minCodeAndStack && m.ramBase + size >= m.stackTop + c.stackGuard
  }

  /** The guard before any allocation. */
  predicate LayoutOk(m: Machine, l: Layout) {
    && m.kernelEnd <= l.heapStart
    && m.stackBottom >= m.ramBase
    && m.stackTop <= l.heapStart
    && l.heapSize > 0
    && l.heapStart == m.ramBase + l.codeAndStack
    && l.userStart == l.heapStart + l.heapSize
    && l.userSize > 0
    && l.userStart + l.userSize <= m.ramBase + m.ramSize
  }

  /** Most of the guard holds by construction; this is what is left to be decided. */
  lemma GuardExactly(m: Machine, c: Config)
    requires m.ramBase <= m.stackTop
    ensures var l := ComputeMemoryLayout(m, c);
            LayoutOk(m, l) <==>
            && m.kernelEnd <= l.heapStart && m.stackBottom >= m.ramBase && l.heapSize > 0
            && l.codeAndStack + l.heapSize < m.ramSize
  {
  }

  /**
   An accepted layout cuts RAM into three parts that meet, with the boot stack and the kernel image
   in the first, and its heap ends on or below the last page of RAM.
   */
  lemma AcceptedLayout(m: Machine, c: Config)
    requires m.ramBase + KERNEL_PHYS_OFFSET <= m.stackTop && m.ramSize % PAGE_SIZE == 0
    requires LayoutOk(m, ComputeMemoryLayout(m, c))
    ensures var l := ComputeMemoryLayout(m, c);
            && m.ramBase < l.heapStart < l.userStart < m.ramBase + m.ramSize
            && l.userStart + l.userSize == m.ramBase + m.ramSize
            && m.stackTop <= l.heapStart && m.kernelEnd <= l.heapStart
            && KERNEL_PHYS_OFFSET / PAGE_SIZE <= Bitmap.KernelPages(m.ramBase, l.userStart) <= m.ramSize / PAGE_SIZE
  {
    var l := ComputeMemoryLayout(m, c);
    var used := l.userStart - m.ramBase;
    assert Bitmap.KernelPages(m.ramBase, l.userStart) == (used + PAGE_SIZE - 1) / PAGE_SIZE;
    assert m.ramSize == m.ramSize / PAGE_SIZE * PAGE_SIZE;
  }

  /**
   Boot: nothing on a refused layout, otherwise the memory manager with the pages past the heap and
   the pages before the kernel image free, and its books in balance.
   */
  method Boot(m: Machine, c: Config) returns (manager: Manager?)
    requires m.ramBase + KERNEL_PHYS_OFFSET <= m.stackTop && m.ramSize % PAGE_SIZE == 0
    ensures manager != null <==> LayoutOk(m, ComputeMemoryLayout(m, c))
    ensures manager != null ==>
              && fresh(manager) && manager.Valid() && manager.View().ledger.pool.total == m.ramSize / 4096
              && forall p: nat :: p in manager.View().ledger.pool.free <==>
                                  && p < m.ramSize / 4096
                                  && (p < 256 || m.ramBase + p * 4096 >= ComputeMemoryLayout(m, c).userStart)
  {
    var l := ComputeMemoryLayout(m, c);
    if !LayoutOk(m, l) {
      return null;
    }
    AcceptedLayout(m, c);
    manager := StartManager(m.ramBase, m.ramSize, l.heapStart + l.heapSize);
  }

  /** Start the memory manager and give the pages before the kernel image back. */
  method StartManager(ramBase: nat, ramSize: nat, kernelEnd: nat) returns (manager: Manager)
    requires KERNEL_PHYS_OFFSET / PAGE_SIZE <= Bitmap.KernelPages(ramBase, kernelEnd) <= ramSize / PAGE_SIZE
    ensures fresh(manager) && manager.Valid() && manager.View().ledger.pool.total == ramSize / PAGE_SIZE
    ensures manager.View().ledger.pool.free
         == Interval(0, KERNEL_PHYS_OFFSET / PAGE_SIZE)
          + Interval(Bitmap.KernelPages(ramBase, kernelEnd), ramSize / PAGE_SIZE)
    ensures |manager.View().ledger.pool.free|
         == ramSize / PAGE_SIZE - Bitmap.KernelPages(ramBase, kernelEnd) + KERNEL_PHYS_OFFSET / PAGE_SIZE
  {
    manager := new Manager.Init(ramBase, ramSize, kernelEnd);
    GivesPreKernel(manager.View().ledger.pool, Bitmap.KernelPages(ramBase, kernelEnd), KERNEL_PHYS_OFFSET / PAGE_SIZE);
    manager.FreePagesContiguous(ramBase, KERNEL_PHYS_OFFSET / PAGE_SIZE);
  }

  lemma GivesPreKernel(pool: Pool, kernel: nat, pages: nat)
    requires pages <= kernel <= pool.total && pool.free == Interval(kernel, pool.total)
    ensures NamesAllocated(pool, GiveRun(0, pages))
    ensures FreeRun(pool, 0, pages).free == Interval(0, pages) + Interval(kernel, pool.total)
    ensures |FreeRun(pool, 0, pages).free| == pool.total - kernel + pages
  {
    GiveRunBalance(pool, 0, pages);
    IntervalSize(kernel, pool.total);
  }
}
