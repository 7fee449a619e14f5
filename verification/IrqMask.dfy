/**
 Nested interrupt masking. Guards save the mask they find, each for itself. Critical sections share
 one saved mask and an 8-bit count of how deep they are nested.
 */
module IrqMask {

  /** The interrupt mask register: the IRQ bit and the bits beside it. */
  datatype Daif = Daif(irqMasked: bool, others: nat)

  datatype State = State(daif: Daif, nesting: nat, saved: Daif)

  const COUNT_LIMIT: nat := 256

  /** Code that uses guards and critical sections, properly nested. */
  datatype Code =
    | Work
    | Guarded(body: seq<Code>)
    | Section(body: seq<Code>)

  /** How deep critical sections are nested in a piece of code. */
  function Depth(c: Code): nat {
    match c
    case Work => 0
    case Guarded(body) => DepthAll(body)
    case Section(body) => 1 + DepthAll(body)
  }

  function DepthAll(cs: seq<Code>): nat {
    if cs == [] then 0
    else
      var d := Depth(cs[0]);
      var rest := DepthAll(cs[1..]);
      if d < rest then rest else d
  }

  /** A section that opens more sections in itself than the count can tell apart. */
  predicate TooDeep(c: Code) {
    c.Section? && Depth(c) > COUNT_LIMIT
  }

  /** The interrupt mask after a piece of code: a section that is too deep leaves it set. */
  function Left(masked: bool, c: Code): bool {
    masked || TooDeep(c)
  }

  function LeftAll(masked: bool, cs: seq<Code>): bool
    decreases cs
  {
    if cs == [] then masked else LeftAll(Left(masked, cs[0]), cs[1..])
  }

  /** Only the outermost sections matter, and none inside a guard. */
  lemma {:induction false} LeftExactly(masked: bool, cs: seq<Code>)
    ensures LeftAll(masked, cs) <==> masked || exists i :: 0 <= i < |cs| && TooDeep(cs[i])
    decreases cs
  {
    if cs != [] {
      LeftExactly(Left(masked, cs[0]), cs[1..]);
      assert forall i :: 1 <= i < |cs| ==> cs[i] == cs[1..][i - 1];
    }
  }

  /** The mask at a piece of work, and how many guards and sections are around it. */
  datatype Point = Point(inside: nat, masked: bool)

  /** All work of the code, in order: inside a guard or a section it is done with interrupts masked. */
  function Points(c: Code, inside: nat, masked: bool): seq<Point> {
    match c
    case Work => [Point(inside, masked)]
    case Guarded(body) => PointsAll(body, inside + 1, true)
    case Section(body) => PointsAll(body, inside + 1, true)
  }

  function PointsAll(cs: seq<Code>, inside: nat, masked: bool): seq<Point> {
    if cs == [] then [] else Points(cs[0], inside, masked) + PointsAll(cs[1..], inside, Left(masked, cs[0]))
  }

  function Acquire(s: State): State {
    var nested := (s.nesting + 1) % COUNT_LIMIT;
    State(s.daif.(irqMasked := true), nested, if s.nesting == 0 then s.daif else s.saved)
  }

  function Release(s: State): State {
    var nested := (s.nesting + COUNT_LIMIT - 1) % COUNT_LIMIT;
    State(if s.nesting == 1 then s.saved else s.daif, nested, s.saved)
  }

  /** Opening n sections on top of `depth` open ones finds the count at zero. */
  predicate Wraps(depth: nat, n: nat) {
    n > (COUNT_LIMIT - depth % COUNT_LIMIT) % COUNT_LIMIT
  }

  lemma WrapsInside(depth: nat, n: nat)
    ensures Wraps(depth, 1 + n) <==> Wraps(depth, 1) || Wraps(depth + 1, n)
    ensures depth == 0 ==> (Wraps(1, n) <==> 1 + n > COUNT_LIMIT)
  {
  }

  /** While code of depth `rest` is left: the kept mask was overwritten if the code before it wrapped. */
  ghost predicate Keeps(saved: Daif, daif: Daif, before: Daif, depth: nat, all: nat, rest: nat) {
    && rest <= all
    && (saved == daif || saved == before)
    && (if Wraps(depth, rest) then Wraps(depth, all) else saved == if Wraps(depth, all) then daif else before)
  }

  /** The first i pieces of the code are done: mask, kept mask and trace are on the way to their ends. */
  ghost predicate Along(cs: seq<Code>, i: nat, first: State, daif: Daif, saved: Daif, depth: nat, inside: nat,
                        trace: seq<Point>)
    requires i <= |cs|
  {
    && daif == first.daif.(irqMasked := daif.irqMasked)
    && LeftAll(daif.irqMasked, cs[i..]) == LeftAll(first.daif.irqMasked, cs)
    && (depth > 0 ==> Keeps(saved, daif, first.saved, depth, DepthAll(cs), DepthAll(cs[i..])))
    && trace + PointsAll(cs[i..], inside, daif.irqMasked) == PointsAll(cs, inside, first.daif.irqMasked)
  }

  lemma AlongStarts(cs: seq<Code>, first: State, depth: nat, inside: nat)
    ensures Along(cs, 0, first, first.daif, first.saved, depth, inside, [])
  {
    assert cs[0..] == cs;
  }

  lemma AlongStep(cs: seq<Code>, i: nat, first: State, was: State, daif: Daif, saved: Daif, depth: nat, inside: nat,
                  trace: seq<Point>)
    requires i < |cs| && Along(cs, i, first, was.daif, was.saved, depth, inside, trace)
    requires daif == was.daif.(irqMasked := Left(was.daif.irqMasked, cs[i]))
    requires depth > 0 ==> was.daif.irqMasked && saved == if Wraps(depth, Depth(cs[i])) then daif else was.saved
    ensures Along(cs, i + 1, first, daif, saved, depth, inside, trace + Points(cs[i], inside, was.daif.irqMasked))
  {
    assert cs[i..][0] == cs[i] && cs[i..][1..] == cs[i + 1..];
  }

  lemma AlongEnds(cs: seq<Code>, first: State, daif: Daif, saved: Daif, depth: nat, inside: nat, trace: seq<Point>)
    requires Along(cs, |cs|, first, daif, saved, depth, inside, trace)
    ensures daif == first.daif.(irqMasked := LeftAll(first.daif.irqMasked, cs))
    ensures depth > 0 ==> saved == if Wraps(depth, DepthAll(cs)) then daif else first.saved
    ensures trace == PointsAll(cs, inside, first.daif.irqMasked)
  {
    assert cs[|cs|..] == [];
  }

  class Cpu {
    var daif: Daif
    var nesting: nat
    var saved: Daif

    function View(): State
      reads this
    {
      State(daif, nesting, saved)
    }

    constructor (d: Daif)
      ensures View() == State(d, 0, Daif(false, 0))
    {
      daif, nesting, saved := d, 0, Daif(false, 0);
    }

    /** `depth` sections are open: the count says so as far as it goes, and interrupts are masked. */
    ghost predicate Open(depth: nat)
      reads this
    {
      nesting == depth % COUNT_LIMIT && (depth > 0 ==> daif.irqMasked)
    }

    /** One more section is open; the mask found is kept whenever the count was at zero. */
    method AcquireSection(ghost depth: nat)
      requires Open(depth)
      modifies this
      ensures Open(depth + 1) && View() == Acquire(old(View()))
      ensures saved == if Wraps(depth, 1) then old(daif) else old(saved)
    {
      var found := daif;
      daif := daif.(irqMasked := true);
      var before := nesting;
      nesting := (nesting + 1) % COUNT_LIMIT;
      if before == 0 {
        saved := found;
      }
    }

    /** One section fewer is open; the kept mask comes back whenever the count is at zero again. */
    method ReleaseSection(ghost depth: nat)
      requires Open(depth + 1)
      modifies this
      ensures nesting == depth % COUNT_LIMIT && saved == old(saved) && View() == Release(old(View()))
      ensures daif == if Wraps(depth, 1) then saved else old(daif)
    {
      var before := nesting;
      nesting := (nesting + COUNT_LIMIT - 1) % COUNT_LIMIT;
      if before == 1 {
        daif := saved;
      }
    }

    /**
     Run code with `depth` sections open around it. Inside a section the mask stays set whatever is
     nested in the code; outside, only a section that is too deep changes it. The kept mask is
     overwritten exactly if the count comes round.
     */
    method Execute(cs: seq<Code>, depth: nat, inside: nat) returns (trace: seq<Point>)
      requires Open(depth)
      modifies this
      ensures Open(depth) && daif == old(daif).(irqMasked := LeftAll(old(daif.irqMasked), cs))
      ensures depth > 0 ==> saved == if Wraps(depth, DepthAll(cs)) then daif else old(saved)
      ensures trace == PointsAll(cs, inside, old(daif.irqMasked))
      decreases cs, 0
    {
      trace := [];
      var i := 0;
      ghost var first := View();
      AlongStarts(cs, first, depth, inside);
      while i < |cs|
        invariant 0 <= i <= |cs| && Open(depth)
        invariant Along(cs, i, first, daif, saved, depth, inside, trace)
      {
        ghost var was := View();
        var part := ExecuteOne(cs[i], depth, inside);
        AlongStep(cs, i, first, was, daif, saved, depth, inside, trace);
        trace := trace + part;
        i := i + 1;
      }
      AlongEnds(cs, first, daif, saved, depth, inside, trace);
    }

    method ExecuteOne(c: Code, depth: nat, inside: nat) returns (trace: seq<Point>)
      requires Open(depth)
      modifies this
      ensures Open(depth) && daif == old(daif).(irqMasked := Left(old(daif.irqMasked), c))
      ensures depth > 0 ==> saved == if Wraps(depth, Depth(c)) then daif else old(saved)
      ensures trace == Points(c, inside, old(daif.irqMasked))
      decreases c, 0
    {
      match c
      case Work =>
        trace := [Point(inside, daif.irqMasked)];
      case Guarded(body) =>
        trace := ExecuteGuarded(body, depth, inside);
      case Section(body) =>
        trace := ExecuteSection(body, depth, inside);
    }

    method ExecuteGuarded(body: seq<Code>, depth: nat, inside: nat) returns (trace: seq<Point>)
      requires Open(depth)
      modifies this
      ensures Open(depth) && daif == old(daif)
      ensures depth > 0 ==> saved == if Wraps(depth, DepthAll(body)) then daif else old(saved)
      ensures trace == PointsAll(body, inside + 1, true)
      decreases body, 1
    {
      var found := daif;
      daif := daif.(irqMasked := true);
      trace := Execute(body, depth, inside + 1);
      LeftExactly(true, body);
      daif := found;
    }

    method ExecuteSection(body: seq<Code>, depth: nat, inside: nat) returns (trace: seq<Point>)
      requires Open(depth)
      modifies this
      ensures Open(depth) && daif == old(daif).(irqMasked := Left(old(daif.irqMasked), Section(body)))
      ensures depth > 0 ==> saved == if Wraps(depth, 1 + DepthAll(body)) then daif else old(saved)
      ensures trace == PointsAll(body, inside + 1, true)
      decreases body, 1
    {
      AcquireSection(depth);
      trace := Execute(body, depth + 1, inside + 1);
      LeftExactly(true, body);
      WrapsInside(depth, DepthAll(body));
      ReleaseSection(depth);
    }
  }

  lemma {:induction false} InnerMasked(c: Code, inside: nat, masked: bool)
    requires inside > 0 ==> masked
    ensures forall p :: p in Points(c, inside, masked) ==> p.inside > 0 ==> p.masked
    decreases c
  {
    match c
    case Work =>
    case Guarded(body) => InnerAllMasked(body, inside + 1, true);
    case Section(body) => InnerAllMasked(body, inside + 1, true);
  }

  lemma {:induction false} InnerAllMasked(cs: seq<Code>, inside: nat, masked: bool)
    requires inside > 0 ==> masked
    ensures forall p :: p in PointsAll(cs, inside, masked) ==> p.inside > 0 ==> p.masked
    decreases cs
  {
    if cs != [] {
      InnerMasked(cs[0], inside, masked);
      InnerAllMasked(cs[1..], inside, Left(masked, cs[0]));
    }
  }

  /**
   From outside all sections, for any code: interrupts are masked at every inner point, and the mask
   is afterwards what it was exactly if it was set or no section outside all others and outside all
   guards is nested deeper than the count can tell.
   */
  method RunProgram(cpu: Cpu, cs: seq<Code>) returns (trace: seq<Point>)
    requires cpu.nesting == 0
    modifies cpu
    ensures cpu.nesting == 0 && cpu.daif.others == old(cpu.daif.others)
    ensures cpu.daif == old(cpu.daif) <==>
            old(cpu.daif.irqMasked) || forall i :: 0 <= i < |cs| ==> cs[i].Section? ==> Depth(cs[i]) <= 256
    ensures trace == PointsAll(cs, 0, old(cpu.daif.irqMasked))
    ensures forall p :: p in trace ==> p.inside > 0 ==> p.masked
  {
    trace := cpu.Execute(cs, 0, 0);
    LeftExactly(old(cpu.daif.irqMasked), cs);
    InnerAllMasked(cs, 0, old(cpu.daif.irqMasked));
  }

  // ---------------------------------------------------------------- how deep is too deep

  function AcquireTimes(s: State, n: nat): State {
    if n == 0 then s else Acquire(AcquireTimes(s, n - 1))
  }

  function ReleaseTimes(s: State, n: nat): State
    decreases n
  {
    if n == 0 then s else ReleaseTimes(Release(s), n - 1)
  }

  /** After n sections are opened the saved mask is the first one, unless the count has come round. */
  lemma {:induction false} Opened(s: State, n: nat)
    requires s.nesting == 0 && n >= 1
    ensures var t := AcquireTimes(s, n);
            && t.daif == s.daif.(irqMasked := true) && t.nesting == n % COUNT_LIMIT
            && t.saved == if n <= COUNT_LIMIT then s.daif else s.daif.(irqMasked := true)
  {
    if n > 1 {
      Opened(s, n - 1);
    }
  }

  /** Closing n sections ends with the saved mask in force. */
  lemma {:induction false} Closed(s: State, n: nat)
    requires n >= 1 && s.nesting == n % COUNT_LIMIT
    ensures ReleaseTimes(s, n).daif == s.saved && ReleaseTimes(s, n).nesting == 0
    decreases n
  {
    if n > 1 {
      Closed(Release(s), n - 1);
    }
  }

  /**
   n sections nested in each other restore the mask exactly if there are no more of them than the
   8-bit count can tell apart, or if interrupts were masked to begin with.
   */
  lemma NestingRestoresExactly(s: State, n: nat)
    requires s.nesting == 0
    ensures ReleaseTimes(AcquireTimes(s, n), n).daif == s.daif <==> n <= 256 || s.daif.irqMasked
  {
    if n >= 1 {
      Opened(s, n);
      Closed(AcquireTimes(s, n), n);
    }
  }
}
