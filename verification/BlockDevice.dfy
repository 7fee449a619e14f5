/**
 Byte access to a device that can only transfer whole sectors: requests are widened to sectors, and
 writes read the sectors first. Transfers of the device itself do not fail here.
 */
module BlockDevice {
  import opened ByteMemory

  const SECTOR_SIZE: nat := 512

  type Sector = s: seq<Byte> | |s| == SECTOR_SIZE witness seq(SECTOR_SIZE, _ => 0)

  datatype Result<T> = Ok(value: T) | InvalidOffset

  // ---------------------------------------------------------------- sectors as a flat byte array

  /** The bytes of consecutive sectors. */
  function Flat(sectors: seq<Sector>): (b: seq<Byte>)
    ensures |b| == SECTOR_SIZE * |sectors|
  {
    if sectors == [] then [] else sectors[0] + Flat(sectors[1..])
  }

  lemma {:induction false} FlatConcat(a: seq<Sector>, b: seq<Sector>)
    ensures Flat(a + b) == Flat(a) + Flat(b)
    decreases |a|
  {
    if a == [] {
      assert a + b == b;
    } else {
      assert (a + b)[0] == a[0] && (a + b)[1..] == a[1..] + b;
      FlatConcat(a[1..], b);
    }
  }

  /** Whole sectors cut out of a buffer. */
  function Chunks(buf: seq<Byte>): (c: seq<Sector>)
    requires |buf| % SECTOR_SIZE == 0
    ensures |c| * SECTOR_SIZE == |buf|
  {
    if buf == [] then [] else [buf[..SECTOR_SIZE]] + Chunks(buf[SECTOR_SIZE..])
  }

  lemma {:induction false} FlatChunks(buf: seq<Byte>)
    requires |buf| % SECTOR_SIZE == 0
    ensures Flat(Chunks(buf)) == buf
    decreases |buf|
  {
    if buf != [] {
      FlatChunks(buf[SECTOR_SIZE..]);
      assert Chunks(buf)[1..] == Chunks(buf[SECTOR_SIZE..]);
    }
  }

  lemma {:induction false} ChunksAt(buf: seq<Byte>, i: nat)
    requires |buf| % SECTOR_SIZE == 0 && SECTOR_SIZE * (i + 1) <= |buf|
    ensures Chunks(buf)[i] == buf[SECTOR_SIZE * i..SECTOR_SIZE * (i + 1)]
    decreases i
  {
    if i > 0 {
      ChunksAt(buf[SECTOR_SIZE..], i - 1);
    }
  }

  /** The disk in three parts: before the sectors from..to, those, and after. */
  lemma FlatParts(disk: seq<Sector>, from: nat, to: nat)
    requires from <= to <= |disk|
    ensures Flat(disk) == Flat(disk[..from]) + Flat(disk[from..to]) + Flat(disk[to..])
  {
    ThreeParts(disk, from, to);
    FlatThree(disk[..from], disk[from..to], disk[to..]);
  }

  lemma ThreeParts(disk: seq<Sector>, from: nat, to: nat)
    requires from <= to <= |disk|
    ensures disk == disk[..from] + disk[from..to] + disk[to..]
  {
  }

  lemma FlatThree(a: seq<Sector>, b: seq<Sector>, c: seq<Sector>)
    ensures Flat(a + b + c) == Flat(a) + Flat(b) + Flat(c)
  {
    FlatConcat(a + b, c);
    FlatConcat(a, b);
  }

  lemma MiddleOf(whole: seq<Byte>, a: seq<Byte>, b: seq<Byte>, c: seq<Byte>, i: nat, j: nat)
    requires whole == a + b + c && i == |a| && j == |a| + |b|
    ensures whole[i..j] == b
  {
  }

  lemma FlatSlice(disk: seq<Sector>, from: nat, to: nat)
    requires from <= to <= |disk|
    ensures Flat(disk)[SECTOR_SIZE * from..SECTOR_SIZE * to] == Flat(disk[from..to])
  {
    FlatParts(disk, from, to);
    MiddleOf(Flat(disk), Flat(disk[..from]), Flat(disk[from..to]), Flat(disk[to..]),
             SECTOR_SIZE * from, SECTOR_SIZE * to);
  }

  // ---------------------------------------------------------------- the flat byte array

  /** `data` in place of what is at `at`. */
  function Splice(flat: seq<Byte>, at: nat, data: seq<Byte>): (r: seq<Byte>)
    requires at + |data| <= |flat|
    ensures |r| == |flat|
    ensures forall i :: 0 <= i < |flat| ==> r[i] == if at <= i < at + |data| then data[i - at] else flat[i]
  {
    flat[..at] + data + flat[at + |data|..]
  }

  datatype Op = Read(at: nat, len: nat) | Write(at: nat, data: seq<Byte>)

  datatype Answer = Bytes(data: seq<Byte>) | Done | Rejected

  /** What an operation does to a flat byte array. Empty requests always pass. */
  function FlatStep(flat: seq<Byte>, op: Op): (seq<Byte>, Answer) {
    match op
    case Read(at, len) =>
      if len == 0 then (flat, Bytes([]))
      else if at + len <= |flat| then (flat, Bytes(flat[at..at + len])) else (flat, Rejected)
    case Write(at, data) =>
      if data == [] then (flat, Done)
      else if at + |data| <= |flat| then (Splice(flat, at, data), Done) else (flat, Rejected)
  }

  function FlatRun(flat: seq<Byte>, ops: seq<Op>): (seq<Byte>, seq<Answer>)
    decreases |ops|
  {
    if ops == [] then (flat, [])
    else
      var (before, answers) := FlatRun(flat, ops[..|ops| - 1]);
      var (after, answer) := FlatStep(before, ops[|ops| - 1]);
      (after, answers + [answer])
  }

  // ---------------------------------------------------------------- from requests to sectors

  function FirstSector(at: nat): nat { at / SECTOR_SIZE }

  function EndSector(at: nat, len: nat): nat { (at + len + SECTOR_SIZE - 1) / SECTOR_SIZE }

  /** The widened request covers the bytes asked for, and is in bounds exactly if they are. */
  lemma Widened(at: nat, len: nat, capacity: nat)
    requires len > 0
    ensures FirstSector(at) < EndSector(at, len)
    ensures SECTOR_SIZE * FirstSector(at) <= at && at + len <= SECTOR_SIZE * EndSector(at, len)
    ensures at % SECTOR_SIZE == at - SECTOR_SIZE * FirstSector(at)
    ensures EndSector(at, len) <= capacity <==> at + len <= capacity * SECTOR_SIZE
  {
  }

  /** Changing the middle one of three parts changes the whole in the same place. */
  ghost predicate Lifts(flat: seq<Byte>, a: seq<Byte>, b: seq<Byte>, c: seq<Byte>, low: nat, at: nat, data: seq<Byte>) {
    && low <= at && at + |data| <= |flat| && at - low + |data| <= |b|
    && a + Splice(b, at - low, data) + c == Splice(flat, at, data)
  }

  lemma SpliceMiddle(flat: seq<Byte>, a: seq<Byte>, b: seq<Byte>, c: seq<Byte>, low: nat, at: nat, data: seq<Byte>)
    requires flat == a + b + c && |a| == low <= at && at + |data| <= low + |b|
    ensures Lifts(flat, a, b, c, low, at, data)
  {
  }

  lemma SpliceInside(disk: seq<Sector>, from: nat, to: nat, at: nat, data: seq<Byte>)
    requires from <= to <= |disk| && SECTOR_SIZE * from <= at && at + |data| <= SECTOR_SIZE * to
    ensures Lifts(Flat(disk), Flat(disk[..from]), Flat(disk[from..to]), Flat(disk[to..]), SECTOR_SIZE * from, at, data)
  {
    FlatParts(disk, from, to);
    SpliceMiddle(Flat(disk), Flat(disk[..from]), Flat(disk[from..to]), Flat(disk[to..]), SECTOR_SIZE * from, at, data);
  }

  /** Writing the changed sectors back is the splice of the flat array. */
  lemma SpliceWritten(disk: seq<Sector>, from: nat, to: nat, at: nat, data: seq<Byte>, buf: seq<Byte>)
    requires from <= to <= |disk| && SECTOR_SIZE * from <= at && at + |data| <= SECTOR_SIZE * to
    requires buf == Splice(Flat(disk[from..to]), at - SECTOR_SIZE * from, data)
    ensures |buf| % SECTOR_SIZE == 0 && |buf| / SECTOR_SIZE == to - from
    ensures Flat(disk[..from] + Chunks(buf) + disk[to..]) == Splice(Flat(disk), at, data)
  {
    FlatChunks(buf);
    FlatThree(disk[..from], Chunks(buf), disk[to..]);
    SpliceInside(disk, from, to, at, data);
  }

  lemma SliceOfSlice(b: seq<Byte>, from: nat, to: nat, i: nat, n: nat)
    requires from <= to <= |b| && i + n <= to - from
    ensures b[from..to][i..i + n] == b[from + i..from + i + n]
  {
    var inner, outer := b[from..to][i..i + n], b[from + i..from + i + n];
    assert forall k :: 0 <= k < n ==> inner[k] == outer[k];
  }

  class VirtioBlockDevice {
    var disk: seq<Sector>
    const capacitySectors: nat

    ghost predicate Valid()
      reads this
    {
      |disk| == capacitySectors
    }

    constructor (image: seq<Sector>)
      ensures Valid() && disk == image
    {
      disk, capacitySectors := image, |image|;
    }

    /** Read whole sectors; `len` must be a multiple of the sector size. */
    method ReadSectors(sector: nat, len: nat) returns (r: Result<seq<Byte>>)
      requires Valid()
      ensures r.Ok? <==> len % 512 == 0 && sector + len / 512 <= capacitySectors
      ensures r.Ok? ==> r.value == Flat(disk[sector..sector + len / SECTOR_SIZE])
    {
      if len % SECTOR_SIZE != 0 {
        return InvalidOffset;
      }
      var count := len / SECTOR_SIZE;
      if sector + count > capacitySectors {
        return InvalidOffset;
      }
      var buf := [];
      var i := 0;
      while i < count
        invariant 0 <= i <= count
        invariant buf == Flat(disk[sector..sector + i])
      {
        assert disk[sector..sector + i + 1] == disk[sector..sector + i] + [disk[sector + i]];
        FlatConcat(disk[sector..sector + i], [disk[sector + i]]);
        buf := buf + disk[sector + i];
        i := i + 1;
      }
      return Ok(buf);
    }

    /** Write whole sectors; the length must be a multiple of the sector size. */
    method WriteSectors(sector: nat, buf: seq<Byte>) returns (r: Result<()>)
      requires Valid()
      modifies this
      ensures Valid()
      ensures r.Ok? <==> |buf| % 512 == 0 && sector + |buf| / 512 <= capacitySectors
      ensures r.Ok? ==> disk == old(disk[..sector]) + Chunks(buf) + old(disk)[sector + |buf| / SECTOR_SIZE..]
      ensures !r.Ok? ==> disk == old(disk)
    {
      if |buf| % SECTOR_SIZE != 0 {
        return InvalidOffset;
      }
      var count := |buf| / SECTOR_SIZE;
      if sector + count > capacitySectors {
        return InvalidOffset;
      }
      var i := 0;
      while i < count
        invariant 0 <= i <= count
        invariant disk == old(disk[..sector]) + Chunks(buf)[..i] + old(disk)[sector + i..]
      {
        ChunksAt(buf, i);
        disk := disk[sector + i := buf[SECTOR_SIZE * i..SECTOR_SIZE * (i + 1)]];
        i := i + 1;
      }
      assert Chunks(buf)[..i] == Chunks(buf);
      return Ok(());
    }

    /** Read bytes anywhere on the device. */
    method ReadBytes(at: nat, len: nat) returns (r: Result<seq<Byte>>)
      requires Valid()
      ensures r.Ok? <==> len == 0 || at + len <= capacitySectors * 512
      ensures r.Ok? ==> r.value == if len == 0 then [] else Flat(disk)[at..at + len]
    {
      if len == 0 {
        return Ok([]);
      }
      Widened(at, len, capacitySectors);
      var start, end := FirstSector(at), EndSector(at, len);
      var temp := ReadSectors(start, (end - start) * SECTOR_SIZE);
      if temp.InvalidOffset? {
        return InvalidOffset;
      }
      var from := at % SECTOR_SIZE;
      FlatSlice(disk, start, end);
      SliceOfSlice(Flat(disk), SECTOR_SIZE * start, SECTOR_SIZE * end, from, len);
      return Ok(temp.value[from..from + len]);
    }

    /** Write bytes anywhere on the device; a rejected write changes nothing. */
    method WriteBytes(at: nat, data: seq<Byte>) returns (r: Result<()>)
      requires Valid()
      modifies this
      ensures Valid()
      ensures r.Ok? <==> |data| == 0 || at + |data| <= capacitySectors * 512
      ensures r.Ok? && |data| > 0 ==> Flat(disk) == Splice(old(Flat(disk)), at, data)
      ensures !r.Ok? || |data| == 0 ==> disk == old(disk)
    {
      if |data| == 0 {
        return Ok(());
      }
      Widened(at, |data|, capacitySectors);
      var start, end := FirstSector(at), EndSector(at, |data|);
      var temp := ReadSectors(start, (end - start) * SECTOR_SIZE);
      if temp.InvalidOffset? {
        return InvalidOffset;
      }
      var buf := Splice(temp.value, at % SECTOR_SIZE, data);
      SpliceWritten(disk, start, end, at, data, buf);
      r := WriteSectors(start, buf);
    }

    method Perform(op: Op) returns (answer: Answer)
      requires Valid()
      modifies this
      ensures Valid()
      ensures (Flat(disk), answer) == FlatStep(old(Flat(disk)), op)
    {
      match op
      case Read(at, len) =>
        var r := ReadBytes(at, len);
        return if r.Ok? then Bytes(r.value) else Rejected;
      case Write(at, data) =>
        var r := WriteBytes(at, data);
        return if r.Ok? then Done else Rejected;
    }

    /** Any sequence of reads and writes does what it would do on a flat byte array. */
    method PerformAll(ops: seq<Op>) returns (answers: seq<Answer>)
      requires Valid()
      modifies this
      ensures Valid()
      ensures (Flat(disk), answers) == FlatRun(old(Flat(disk)), ops)
    {
      answers := [];
      var i := 0;
      while i < |ops|
        invariant 0 <= i <= |ops| && Valid()
        invariant (Flat(disk), answers) == FlatRun(old(Flat(disk)), ops[..i])
      {
        var answer := Perform(ops[i]);
        answers := answers + [answer];
        assert ops[..i + 1][..i] == ops[..i];
        i := i + 1;
      }
      assert ops[..i] == ops;
    }
  }

  /** What is read back is what was written, whatever else was written elsewhere in between. */
  lemma {:induction false} ReadsLastWrite(flat: seq<Byte>, at: nat, data: seq<Byte>, ops: seq<Op>)
    requires data != [] && at + |data| <= |flat|
    requires forall op :: op in ops && op.Write? ==> op.at + |op.data| <= at || at + |data| <= op.at
    ensures var later := FlatRun(FlatStep(flat, Write(at, data)).0, ops).0;
            FlatStep(later, Read(at, |data|)).1 == Bytes(data) && |later| == |flat|
    decreases |ops|
  {
    if ops != [] {
      var init := ops[..|ops| - 1];
      assert forall op :: op in init ==> op in ops;
      ReadsLastWrite(flat, at, data, init);
      assert ops[|ops| - 1] in ops;
    }
  }
}
