/** Memory as bytes, with little-endian stores and loads of any size. */
module ByteMemory {

  type Byte = b: nat | b < 256

  type Mem = map<int, Byte>

  /** Bytes that were never written read as zero. */
  function At(m: Mem, a: int): Byte {
    if a in m then m[a] else 0
  }

  function Pow256(n: nat): (p: nat)
    ensures p >= 1
  {
    if n == 0 then 1 else 256 * Pow256(n - 1)
  }

  function Store(m: Mem, a: int, n: nat, v: nat): Mem
    decreases n, a
  {
    if n == 0 then m else Store(m[a := v % 256], a + 1, n - 1, v / 256)
  }

  function Load(m: Mem, a: int, n: nat): (v: nat)
    ensures v < Pow256(n)
    decreases n, a
  {
    if n == 0 then 0 else At(m, a) + 256 * Load(m, a + 1, n - 1)
  }

  /** Clear n bytes. */
  function Zero(m: Mem, a: int, n: nat): Mem
    decreases n, a
  {
    if n == 0 then m else Zero(m[a := 0], a + 1, n - 1)
  }

  /** Memories agree on the n bytes from a on. */
  ghost predicate SameBytes(m: Mem, w: Mem, a: int, n: nat) {
    forall i {:trigger At(m, i)} :: a <= i < a + n ==> At(m, i) == At(w, i)
  }

  /** Memories agree everywhere but on the n bytes from a on. */
  ghost predicate SameBut(m: Mem, w: Mem, a: int, n: nat) {
    forall i {:trigger At(m, i)} :: !(a <= i < a + n) ==> At(m, i) == At(w, i)
  }

  lemma {:induction false} StoreOutside(m: Mem, a: int, n: nat, v: nat)
    ensures SameBut(Store(m, a, n, v), m, a, n)
    decreases n
  {
    if n > 0 {
      StoreOutside(m[a := v % 256], a + 1, n - 1, v / 256);
    }
  }

  lemma {:induction false} ZeroOutside(m: Mem, a: int, n: nat)
    ensures SameBut(Zero(m, a, n), m, a, n)
    decreases n
  {
    if n > 0 {
      ZeroOutside(m[a := 0], a + 1, n - 1);
    }
  }

  /** A load depends on its own bytes only. */
  lemma {:induction false} LoadSame(m: Mem, w: Mem, a: int, n: nat)
    requires SameBytes(m, w, a, n)
    ensures Load(m, a, n) == Load(w, a, n)
    decreases n
  {
    if n > 0 {
      assert At(m, a) == At(w, a);
      LoadSame(m, w, a + 1, n - 1);
    }
  }

  /** A load gives back what was stored. */
  lemma {:induction false} LoadStore(m: Mem, a: int, n: nat, v: nat)
    requires v < Pow256(n)
    ensures Load(Store(m, a, n, v), a, n) == v
    decreases n
  {
    if n > 0 {
      LoadStore(m[a := v % 256], a + 1, n - 1, v / 256);
      StoreOutside(m[a := v % 256], a + 1, n - 1, v / 256);
    }
  }

  /** A store elsewhere does not change a load. */
  lemma LoadPastStore(m: Mem, a: int, n: nat, b: int, k: nat, v: nat)
    requires a + n <= b || b + k <= a
    ensures Load(Store(m, b, k, v), a, n) == Load(m, a, n)
  {
    StoreOutside(m, b, k, v);
    LoadSame(Store(m, b, k, v), m, a, n);
  }

  lemma Pow256Values()
    ensures Pow256(4) == 0x1_0000_0000
    ensures Pow256(8) == 0x1_0000_0000_0000_0000
    ensures Pow256(16) == 0x1_0000_0000_0000_0000_0000_0000_0000_0000
  {
    assert Pow256(4) == 0x1_0000_0000;
    Pow256Sum(4, 4);
    Pow256Sum(8, 8);
  }

  lemma {:induction false} Pow256Sum(a: nat, b: nat)
    ensures Pow256(a + b) == Pow256(a) * Pow256(b)
  {
    if a > 0 {
      Pow256Sum(a - 1, b);
    }
  }
}
