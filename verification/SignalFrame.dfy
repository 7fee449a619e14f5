/**
 The signal frame: the bytes that delivery writes on the user stack and sigreturn reads back. The
 fields are written in ascending order, one after the other, into a cleared area; a table of offsets,
 sizes and values says where they go, and no two of them overlap.
 */
module SignalFrame {
  import opened Words
  import opened ByteMemory

  const SIGFRAME_SIZE: nat := 1120
  const FPSIMD_MAGIC: nat := 0x4650_8001
  const LIMIT32: nat := 0x1_0000_0000
  const LIMIT128: nat := 0x1_0000_0000_0000_0000_0000_0000_0000_0000

  /** A vector register. */
  type Vector = v: nat | v < LIMIT128

  /** The user's registers as the trap frame holds them. */
  datatype Context = Context(x: seq<Word>, sp: Word, pc: Word, pstate: Word, fpsr: Word, fpcr: Word, q: seq<Vector>)
  {
    predicate Wf() {
      |x| == 31 && |q| == 32
    }
  }

  /** Everything that goes into a frame. */
  datatype Info = Info(signal: nat, isFault: bool, faultAddr: Word, altSp: Word, altSize: Word, onAlt: bool,
                       sigmask: Word, ctx: Context)
  {
    predicate Wf() {
      signal < LIMIT32 && ctx.Wf()
    }
  }

  // ---------------------------------------------------------------- signal sets and mask words

  /** The signals from `lo` on, n of them, as bits. */
  function EncodeFrom(s: set<int>, lo: int, n: nat): nat
    decreases n, s
  {
    if n == 0 then 0 else (if lo in s then 1 else 0) + 2 * EncodeFrom(s, lo + 1, n - 1)
  }

  /** The signal of a bit of a mask word. */
  predicate Blocked(w: Word, signal: int) {
    1 <= signal <= 64 && Bit(w, signal - 1)
  }

  /** Signal number n is bit n - 1 of a mask word. */
  function Decode(w: Word): set<int> {
    set i | 1 <= i <= 64 && Blocked(w, i)
  }

  lemma {:induction false} EncodeBits(s: set<int>, lo: int, n: nat, i: nat)
    ensures Bit(EncodeFrom(s, lo, n), i) <==> i < n && lo + i in s
    decreases n
  {
    if n == 0 {
      ZeroBits(i);
    } else if i > 0 {
      EncodeBits(s, lo + 1, n - 1, i - 1);
    }
  }

  lemma {:induction false} EncodeBound(s: set<int>, lo: int, n: nat)
    ensures EncodeFrom(s, lo, n) < Pow2(n)
    decreases n
  {
    if n > 0 {
      EncodeBound(s, lo + 1, n - 1);
    }
  }

  predicate Signals(s: set<int>) {
    forall i :: i in s ==> 1 <= i <= 64
  }

  /** The mask word of a set of signals. */
  function Encode(s: set<int>): Word {
    Pow2At64();
    EncodeBound(s, 1, 64);
    EncodeFrom(s, 1, 64)
  }

  /** Mask words represent sets of signals exactly. */
  lemma DecodeEncode(s: set<int>)
    requires Signals(s)
    ensures Decode(Encode(s)) == s
  {
    forall i | 1 <= i <= 64
      ensures Blocked(Encode(s), i) <==> i in s
    {
      EncodeBits(s, 1, 64, i - 1);
    }
  }

  // ---------------------------------------------------------------- layout

  /** The number of fields that are written. */
  const FIELDS: nat := 80

  /** Byte offset of the k-th field. */
  function Off(k: nat): nat {
    if k < 3 then 4 * k
    else if k == 3 then 16
    else if k < 8 then 144 + 8 * (k - 4)
    else if k == 8 then 304
    else if k < 43 then 312 + 8 * (k - 9)
    else if k < 47 then 584 + 4 * (k - 43)
    else if k < 79 then 600 + 16 * (k - 47)
    else 1112
  }

  function Size(k: nat): nat {
    if k < 3 || k == 5 || 43 <= k < 47 then 4 else if 47 <= k < 79 then 16 else 8
  }

  function Value(k: nat, f: Info): nat
    requires f.Wf() && k < FIELDS
  {
    if k == 0 then f.signal
    else if k == 1 then 0
    else if k == 2 then (if f.isFault then 1 else 0)
    else if k == 3 then f.faultAddr
    else if k == 4 then f.altSp
    else if k == 5 then (if f.onAlt then 1 else 0)
    else if k == 6 then f.altSize
    else if k == 7 then f.sigmask
    else if k == 8 then f.faultAddr
    else if k < 40 then f.ctx.x[k - 9]
    else if k == 40 then f.ctx.sp
    else if k == 41 then f.ctx.pc
    else if k == 42 then f.ctx.pstate
    else if k == 43 then FPSIMD_MAGIC
    else if k == 44 then 528
    else if k == 45 then f.ctx.fpsr % LIMIT32
    else if k == 46 then f.ctx.fpcr % LIMIT32
    else if k < 79 then f.ctx.q[k - 47]
    else 0
  }

  /** A field ends where the next one starts or before. */
  lemma NextField(k: nat)
    requires k + 1 < FIELDS
    ensures Off(k) + Size(k) <= Off(k + 1)
  {
  }

  lemma {:induction false} FieldsApart(j: nat, k: nat)
    requires j < k < FIELDS
    ensures Off(j) + Size(j) <= Off(k)
    decreases k
  {
    NextField(k - 1);
    if j < k - 1 {
      FieldsApart(j, k - 1);
    }
  }

  lemma FieldInFrame(k: nat)
    requires k < FIELDS
    ensures Off(k) + Size(k) <= SIGFRAME_SIZE
  {
  }

  lemma ValueFits(k: nat, f: Info)
    requires f.Wf() && k < FIELDS
    ensures Value(k, f) < Pow256(Size(k))
  {
    Pow256Values();
  }

  // ---------------------------------------------------------------- writing and reading

  /** The first k fields written at `base`. */
  function Written(m: Mem, base: int, f: Info, k: nat): Mem
    requires f.Wf() && k <= FIELDS
    decreases k, base
  {
    if k == 0 then m else Store(Written(m, base, f, k - 1), base + Off(k - 1), Size(k - 1), Value(k - 1, f))
  }

  ghost predicate FieldHeld(m: Mem, base: int, f: Info, k: nat)
    requires f.Wf() && k < FIELDS
  {
    Load(m, base + Off(k), Size(k)) == Value(k, f)
  }

  /** Every field of the frame at `base` reads as it was meant to. */
  ghost predicate FrameHolds(m: Mem, base: int, f: Info)
    requires f.Wf()
  {
    forall k: nat {:trigger FieldHeld(m, base, f, k)} :: k < FIELDS ==> FieldHeld(m, base, f, k)
  }

  lemma FieldPastStore(m: Mem, base: int, f: Info, j: nat, off: nat, n: nat, v: nat)
    requires f.Wf() && j < FIELDS && FieldHeld(m, base, f, j) && Off(j) + Size(j) <= off
    ensures FieldHeld(Store(m, base + off, n, v), base, f, j)
  {
    LoadPastStore(m, base + Off(j), Size(j), base + off, n, v);
  }

  lemma FieldStored(m: Mem, base: int, f: Info, j: nat)
    requires f.Wf() && j < FIELDS
    ensures FieldHeld(Store(m, base + Off(j), Size(j), Value(j, f)), base, f, j)
  {
    ValueFits(j, f);
    LoadStore(m, base + Off(j), Size(j), Value(j, f));
  }

  /** No field write disturbs a field written before it. */
  lemma {:induction false} WrittenFields(m: Mem, base: int, f: Info, k: nat, j: nat)
    requires f.Wf() && j < k <= FIELDS
    ensures FieldHeld(Written(m, base, f, k), base, f, j)
    decreases k
  {
    var before := Written(m, base, f, k - 1);
    if j == k - 1 {
      FieldStored(before, base, f, j);
    } else {
      WrittenFields(m, base, f, k - 1, j);
      FieldsApart(j, k - 1);
      FieldPastStore(before, base, f, j, Off(k - 1), Size(k - 1), Value(k - 1, f));
    }
  }

  lemma {:induction false} WrittenOutside(m: Mem, base: int, f: Info, k: nat)
    requires f.Wf() && k <= FIELDS
    ensures SameBut(Written(m, base, f, k), m, base, SIGFRAME_SIZE)
    decreases k
  {
    if k > 0 {
      WrittenOutside(m, base, f, k - 1);
      FieldInFrame(k - 1);
      StoreOutside(Written(m, base, f, k - 1), base + Off(k - 1), Size(k - 1), Value(k - 1, f));
    }
  }

  /** The area cleared, then all fields written. */
  function PutFrame(m: Mem, base: int, f: Info): Mem
    requires f.Wf()
  {
    Written(Zero(m, base, SIGFRAME_SIZE), base, f, FIELDS)
  }

  lemma PutFrameHolds(m: Mem, base: int, f: Info)
    requires f.Wf()
    ensures FrameHolds(PutFrame(m, base, f), base, f)
    ensures SameBut(PutFrame(m, base, f), m, base, SIGFRAME_SIZE)
  {
    var zeroed := Zero(m, base, SIGFRAME_SIZE);
    forall k: nat | k < FIELDS
      ensures FieldHeld(PutFrame(m, base, f), base, f, k)
    {
      WrittenFields(zeroed, base, f, FIELDS, k);
    }
    ZeroOutside(m, base, SIGFRAME_SIZE);
    WrittenOutside(zeroed, base, f, FIELDS);
  }

  /** A frame stays readable while nobody writes to its bytes. */
  lemma FrameKept(m: Mem, w: Mem, base: int, f: Info)
    requires f.Wf() && FrameHolds(m, base, f) && SameBytes(w, m, base, SIGFRAME_SIZE)
    ensures FrameHolds(w, base, f)
  {
    forall k: nat | k < FIELDS
      ensures FieldHeld(w, base, f, k)
    {
      assert FieldHeld(m, base, f, k);
      FieldInFrame(k);
      LoadSame(w, m, base + Off(k), Size(k));
    }
  }
}
