/**
 The entropy driver: a split virtqueue with wrapping 16-bit indices. The device completes each
 request with one byte at least and not more than asked.
 */
module VirtioRng {
  import opened Prelude
  import opened ByteMemory

  const QUEUE_SIZE: nat := 2
  const INDEX_LIMIT: nat := 0x1_0000
  const CHUNK: nat := 256

  // ---------------------------------------------------------------- memory layout

  datatype Layout = Layout(desc: nat, avail: nat, used: nat, total: nat)

  function DescSize(n: nat): nat { 16 * n }

  function AvailSize(n: nat): nat { 2 + 2 + 2 * n + 2 }

  function UsedSize(n: nat): nat { 2 + 2 + 8 * n + 2 }

  function RoundUpToPage(x: nat): nat { (x + PAGE_SIZE - 1) / PAGE_SIZE * PAGE_SIZE }

  function CalcQueueLayout(n: nat): Layout {
    var used := RoundUpToPage(DescSize(n) + AvailSize(n));
    Layout(0, DescSize(n), used, used + UsedSize(n))
  }

  /**
   For n entries of 16 bytes, a ring of 6 + 2 * n bytes and one of 6 + 8 * n bytes: the three areas
   follow each other, the last one from the next page boundary, and fill the allocation. From a
   page-aligned address they are aligned as section 2.6 of VIRTIO 1.1 asks: 16 bytes, 2 bytes, 4 bytes.
   */
  lemma LayoutOk(n: nat, base: nat)
    requires base % 4096 == 0
    ensures var l := CalcQueueLayout(n);
            && l.desc == 0 && l.avail == 16 * n && l.avail + (6 + 2 * n) <= l.used < l.avail + (6 + 2 * n) + 4096
            && l.used % 4096 == 0 && l.total == l.used + (6 + 8 * n)
            && (base + l.desc) % 16 == 0 && (base + l.avail) % 2 == 0 && (base + l.used) % 4 == 0
  {
    var x := DescSize(n) + AvailSize(n);
    RoundedUp(x);
    Aligned(base);
    AvailAligned(base, n);
    SumOfPages(base, RoundUpToPage(x));
    Aligned(base + RoundUpToPage(x));
  }

  lemma RoundedUp(x: nat)
    ensures x <= RoundUpToPage(x) < x + PAGE_SIZE && RoundUpToPage(x) % PAGE_SIZE == 0
  {
  }

  lemma Aligned(a: nat)
    requires a % PAGE_SIZE == 0
    ensures a % 16 == 0 && a % 4 == 0
  {
    var sixteenths := 256 * (a / PAGE_SIZE);
    assert a == 16 * sixteenths;
    assert a == 4 * (4 * sixteenths);
  }

  lemma AvailAligned(a: nat, n: nat)
    requires a % 16 == 0
    ensures (a + DescSize(n)) % 2 == 0
  {
    var k := a / 16;
    assert a + DescSize(n) == 2 * (8 * k + 8 * n);
  }

  lemma SumOfPages(a: nat, b: nat)
    requires a % PAGE_SIZE == 0 && b % PAGE_SIZE == 0
    ensures (a + b) % PAGE_SIZE == 0
  {
    assert a + b == PAGE_SIZE * (a / PAGE_SIZE + b / PAGE_SIZE);
  }

  // ---------------------------------------------------------------- indices

  function Wrap(n: nat): nat { n % INDEX_LIMIT }

  function Slot(index: nat): (s: nat)
    ensures s < QUEUE_SIZE
  {
    index % QUEUE_SIZE
  }

  lemma SameParity(n: nat, m: nat, k: nat)
    requires n == 2 * k + m
    ensures n % 2 == m % 2
  {
  }

  lemma WrapIs(n: nat, q: nat, r: nat)
    requires n == INDEX_LIMIT * q + r && r < INDEX_LIMIT
    ensures Wrap(n) == r
  {
  }

  /** The slot of the n-th request is the same before and after the 16-bit indices wrap. */
  lemma SlotAcrossWrap(n: nat)
    ensures Slot(Wrap(n)) == Slot(n) && Wrap(Wrap(n) + 1) == Wrap(n + 1)
  {
    var q, m := n / INDEX_LIMIT, Wrap(n);
    SameParity(n, m, INDEX_LIMIT / 2 * q);
    if m + 1 < INDEX_LIMIT {
      WrapIs(n + 1, q, m + 1);
      WrapIs(m + 1, 0, m + 1);
    } else {
      WrapIs(n + 1, q + 1, 0);
      WrapIs(m + 1, 1, 0);
    }
  }

  datatype UsedElem = UsedElem(id: nat, len: nat)

  /** How many bytes the device gives for a request of `want`. */
  function Given(choice: nat, want: nat): (n: nat)
    requires want >= 1
    ensures 1 <= n <= want && (1 <= choice <= want ==> n == choice)
  {
    if choice < 1 then 1 else if choice > want then want else choice
  }

  /** The driver and the device around the rings they share. */
  class Queue {
    // the rings and the buffer
    var descLen: nat
    var availRing: seq<nat>
    var availPublished: nat
    var usedRing: seq<UsedElem>
    var usedIdx: nat
    var buffer: seq<Byte>
    // the driver
    var availIdx: nat
    var lastUsedIdx: nat
    // the device: what it will give, how far it is, and the next request it looks for
    const stream: seq<Byte>
    var pos: nat
    var seenIdx: nat
    // all requests so far
    ghost var served: nat

    ghost predicate Shapes()
      reads this
    {
      |availRing| == QUEUE_SIZE && |usedRing| == QUEUE_SIZE && |buffer| == CHUNK && pos <= |stream|
    }

    /** Requests that the device has not completed, as the indices tell. */
    function Outstanding(): nat
      reads this
    {
      (availPublished + INDEX_LIMIT - usedIdx) % INDEX_LIMIT
    }

    /** No request is outstanding; all indices have counted the same requests. */
    ghost predicate Idle()
      reads this
    {
      && Shapes()
      && availIdx == availPublished == seenIdx == usedIdx == lastUsedIdx == Wrap(served)
    }

    /** One request is outstanding, in the slot where the device looks. */
    ghost predicate Pending(want: nat)
      reads this
    {
      && Shapes() && descLen == want && 1 <= want <= CHUNK
      && availIdx == availPublished == Wrap(served + 1)
      && seenIdx == usedIdx == lastUsedIdx == Wrap(served)
      && availRing[Slot(seenIdx)] == 0
    }

    /** The request is completed with n bytes, in the slot where the driver looks. */
    ghost predicate Completed(n: nat)
      reads this
    {
      && Shapes()
      && availIdx == availPublished == seenIdx == usedIdx == Wrap(served + 1)
      && lastUsedIdx == Wrap(served)
      && usedRing[Slot(lastUsedIdx)] == UsedElem(0, n)
      && 1 <= n <= CHUNK && n <= pos && buffer[..n] == stream[pos - n..pos]
    }

    constructor (bytes: seq<Byte>)
      ensures Idle() && stream == bytes && pos == 0
    {
      descLen, availPublished, usedIdx, availIdx, lastUsedIdx, pos, seenIdx, served := 0, 0, 0, 0, 0, 0, 0, 0;
      availRing, usedRing := [0, 0], [UsedElem(0, 0), UsedElem(0, 0)];
      buffer := seq(CHUNK, _ => 0);
      stream := bytes;
    }

    /** The driver fills the descriptor, the ring slot and then the published index. */
    method Submit(want: nat)
      requires Idle() && 1 <= want <= CHUNK
      modifies this
      ensures Pending(want) && Outstanding() == 1
      ensures served == old(served) && pos == old(pos)
    {
      SlotAcrossWrap(served);
      descLen := want;
      availRing := availRing[Slot(availIdx) := 0];
      availPublished := (availIdx + 1) % INDEX_LIMIT;
      availIdx := (availIdx + 1) % INDEX_LIMIT;
    }

    /** The device takes the next request and gives the next bytes of its stream. */
    method Complete(ghost want: nat, choice: nat) returns (n: nat)
      requires Pending(want) && pos + want <= |stream|
      modifies this
      ensures 1 <= n <= want && Completed(n) && Outstanding() == 0
      ensures served == old(served) && pos == old(pos) + n
    {
      SlotAcrossWrap(served);
      var head := availRing[Slot(seenIdx)];
      n := Given(choice, descLen);
      buffer := stream[pos..pos + n] + buffer[n..];
      pos := pos + n;
      usedRing := usedRing[Slot(usedIdx) := UsedElem(head, n)];
      usedIdx := (usedIdx + 1) % INDEX_LIMIT;
      seenIdx := (seenIdx + 1) % INDEX_LIMIT;
    }

    /** The driver takes the used element and copies at most what it still wants. */
    method Collect(ghost n: nat, room: nat) returns (data: seq<Byte>)
      requires Completed(n) && n <= room
      modifies this
      ensures Idle() && served == old(served) + 1 && pos == old(pos)
      ensures data == stream[pos - n..pos]
    {
      SlotAcrossWrap(served);
      var elem := usedRing[Slot(lastUsedIdx)];
      lastUsedIdx := (lastUsedIdx + 1) % INDEX_LIMIT;
      assert elem.id == 0;
      data := buffer[..Min(elem.len, room)];
      served := served + 1;
    }

    /**
     Fill a buffer of `len` bytes; `choices` are the lengths the device picks. The buffer holds the
     next bytes of the device's stream, each once and in order, and nothing stays outstanding.
     */
    method ReadBytes(len: nat, choices: seq<nat>) returns (buf: seq<Byte>)
      requires Idle() && pos + len <= |stream|
      modifies this
      ensures Idle() && pos == old(pos) + len
      ensures buf == stream[old(pos)..pos]
    {
      buf := [];
      var round := 0;
      while |buf| < len
        invariant Idle() && 0 <= round && |buf| <= len
        invariant pos == old(pos) + |buf|
        invariant buf == stream[old(pos)..pos]
        decreases len - |buf|
      {
        var want := Min(CHUNK, len - |buf|);
        Submit(want);
        var n := Complete(want, if round < |choices| then choices[round] else want);
        var data := Collect(n, len - |buf|);
        buf := buf + data;
        round := round + 1;
      }
    }

    /** A sequence of requests gets the stream cut into pieces. */
    method ReadMany(lens: seq<nat>, choices: seq<seq<nat>>) returns (bufs: seq<seq<Byte>>)
      requires Idle() && pos + Sum(lens) <= |stream|
      modifies this
      ensures Idle() && |bufs| == |lens| && pos == old(pos) + Sum(lens)
      ensures forall i :: 0 <= i < |lens| ==> |bufs[i]| == lens[i]
      ensures Concat(bufs) == stream[old(pos)..pos]
    {
      bufs := [];
      var i := 0;
      ghost var start := pos;
      while i < |lens|
        invariant 0 <= i <= |lens| && Idle() && |bufs| == i
        invariant pos == start + Sum(lens[..i]) && Served(stream, start, pos, bufs, lens)
      {
        SumPrefix(lens, i + 1);
        SumSnoc(lens, i);
        var buf := ReadBytes(lens[i], if i < |choices| then choices[i] else []);
        ServedMore(stream, start, pos - lens[i], pos, bufs, buf, lens);
        bufs := bufs + [buf];
        i := i + 1;
      }
      assert lens[..i] == lens;
    }
  }

  function Sum(lens: seq<nat>): nat {
    if lens == [] then 0 else Sum(lens[..|lens| - 1]) + lens[|lens| - 1]
  }

  function Concat(bufs: seq<seq<Byte>>): seq<Byte> {
    if bufs == [] then [] else Concat(bufs[..|bufs| - 1]) + bufs[|bufs| - 1]
  }

  /** The buffers so far hold the stream from `start` to `pos`, cut as asked. */
  ghost predicate Served(stream: seq<Byte>, start: nat, pos: nat, bufs: seq<seq<Byte>>, lens: seq<nat>) {
    && start <= pos <= |stream| && |bufs| <= |lens|
    && (forall j :: 0 <= j < |bufs| ==> |bufs[j]| == lens[j])
    && Concat(bufs) == stream[start..pos]
  }

  lemma ServedMore(stream: seq<Byte>, start: nat, mid: nat, pos: nat,
                   bufs: seq<seq<Byte>>, buf: seq<Byte>, lens: seq<nat>)
    requires Served(stream, start, mid, bufs, lens) && |bufs| < |lens| && |buf| == lens[|bufs|]
    requires mid <= pos <= |stream| && buf == stream[mid..pos]
    ensures Served(stream, start, pos, bufs + [buf], lens)
  {
    ConcatSnoc(bufs, buf);
    assert stream[start..pos] == stream[start..mid] + stream[mid..pos];
  }

  lemma SumSnoc(lens: seq<nat>, i: nat)
    requires i < |lens|
    ensures Sum(lens[..i + 1]) == Sum(lens[..i]) + lens[i]
  {
    assert lens[..i + 1][..i] == lens[..i];
  }

  lemma ConcatSnoc(bufs: seq<seq<Byte>>, buf: seq<Byte>)
    ensures Concat(bufs + [buf]) == Concat(bufs) + buf
  {
    assert (bufs + [buf])[..|bufs|] == bufs;
  }

  lemma {:induction false} SumPrefix(lens: seq<nat>, i: nat)
    requires i <= |lens|
    ensures Sum(lens[..i]) <= Sum(lens)
    decreases |lens| - i
  {
    if i < |lens| {
      SumPrefix(lens, i + 1);
      SumSnoc(lens, i);
    } else {
      assert lens[..i] == lens;
    }
  }
}
