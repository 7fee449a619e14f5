/**
 The copy-on-write reference-count table: 16-bit counters, present only for shared frames. And the
 list of an address space: how often it uses each of its frames.
 */
module RefCounts {
  import opened Prelude

  /** Largest value of a 16-bit counter. */
  const REF_LIMIT: nat := 65535

  function RefGet(refs: map<nat, nat>, f: nat): nat {
    if f in refs then refs[f] else 0
  }

  /** The first increment inserts 2, for the parent and the child; later ones saturate. */
  function RefInc(refs: map<nat, nat>, f: nat): (r: map<nat, nat>)
    ensures r.Keys == refs.Keys + {f}
    ensures forall g :: g in refs && g != f ==> r[g] == refs[g]
    ensures f !in refs ==> r[f] == 2
    ensures f in refs && refs[f] < 65535 ==> r[f] == refs[f] + 1
    ensures f in refs && refs[f] >= 65535 ==> r[f] == 65535
  {
    var count := if f in refs then refs[f] else 1;
    refs[f := if count < REF_LIMIT then count + 1 else REF_LIMIT]
  }

  /** Drop one reference; `true` when the caller holds the last one. An absent frame has one owner. */
  function RefDec(refs: map<nat, nat>, f: nat): (r: (map<nat, nat>, bool))
    ensures f !in refs ==> r == (refs, true)
    ensures f in refs && refs[f] > 1 ==> r == (refs[f := refs[f] - 1], false)
    ensures f in refs && refs[f] <= 1 ==> r == (refs - {f}, true)
  {
    if f !in refs then (refs, true)
    else if refs[f] <= 1 then (refs - {f}, true)
    else (refs[f := refs[f] - 1], false)
  }

  /** The owners of a frame as the counters know them: no entry means one. */
  function Owners(refs: map<nat, nat>, f: nat): nat {
    if f in refs then refs[f] else 1
  }

  /** Every frame of `more` gains that many owners, up to the limit. */
  function RefIncBy(refs: map<nat, nat>, more: map<nat, nat>): (r: map<nat, nat>)
    ensures r.Keys == refs.Keys + more.Keys
    ensures forall g :: g in more ==> r[g] == Min(REF_LIMIT, Owners(refs, g) + more[g])
    ensures forall g :: g in refs && g !in more ==> r[g] == refs[g]
  {
    map g | g in refs.Keys + more.Keys :: if g in more then Min(REF_LIMIT, Owners(refs, g) + more[g]) else refs[g]
  }

  // ---------------------------------------------------------------- the frames a space uses

  function CountIn(list: map<nat, nat>, f: nat): nat {
    if f in list then list[f] else 0
  }

  /** A space learns of one more use of a frame. */
  function Track(list: map<nat, nat>, f: nat): (r: map<nat, nat>)
    ensures f in r && r[f] == CountIn(list, f) + 1
    ensures forall g :: g != f ==> (g in r <==> g in list) && CountIn(r, g) == CountIn(list, g)
  {
    list[f := CountIn(list, f) + 1]
  }

  /** A space forgets one use of a frame. */
  function Forget(list: map<nat, nat>, f: nat): (r: map<nat, nat>)
    ensures f in r <==> CountIn(list, f) >= 2 || (f in list && list[f] == 0)
    ensures CountIn(list, f) >= 1 ==> CountIn(r, f) == CountIn(list, f) - 1
    ensures forall g :: g != f ==> (g in r <==> g in list) && CountIn(r, g) == CountIn(list, g)
  {
    if CountIn(list, f) == 0 then list
    else if list[f] == 1 then list - {f}
    else list[f := list[f] - 1]
  }
}
