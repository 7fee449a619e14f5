/**
 The client of a box is a token: one thread at a time takes it, drives a round trip and puts it back.
 Every step is one use of a lock.
 */
module ProxyToken {
  import opened Prelude

  datatype Entry = Initializing | Ready | Failed

  /** What went over the connection, by thread. */
  datatype Event = Request(t: int) | Reply(t: int)

  datatype Client = Client(log: seq<Event>)

  /** Where a thread is in a call; threads that are not listed are outside any. */
  datatype Phase =
    | Outside
    | Waiting(box: int)
    | Holding(box: int, client: Client, busy: bool)

  /** How far attaching is: its own calls are excluded once it has begun, and not once it is given up. */
  datatype Stage = Begun | Excluded | GivenUp

  datatype Attaching = Attaching(pid: int, stage: Stage)

  datatype World = World(proxies: map<int, Entry>, slots: map<int, Option<Client>>, threads: map<int, Phase>,
                         attaching: map<int, Attaching>, servers: map<int, int>, serverPids: set<int>)

  datatype Step =
    | AttachServer(box: int, pid: int)
    | ExcludeServer(box: int)
    | HandshakeOk(box: int)
    | GiveUp(box: int)
    | MarkFailed(box: int)
    | Look(t: int, box: int)
    | Take(t: int)
    | Send(t: int)
    | Receive(t: int)
    | Put(t: int)

  function PhaseOf(w: World, t: int): Phase {
    if t in w.threads then w.threads[t] else Outside
  }

  predicate Holds(w: World, t: int, box: int) {
    PhaseOf(w, t).Holding? && PhaseOf(w, t).box == box
  }

  /** When a step can happen; process ids are not reused. */
  ghost predicate Enabled(w: World, s: Step) {
    match s
    case AttachServer(box, pid) => forall b :: b in w.servers ==> w.servers[b] != pid
    case ExcludeServer(box) => box in w.attaching && w.attaching[box].stage == Begun
    case HandshakeOk(box) => box in w.attaching && w.attaching[box].stage == Excluded
    case GiveUp(box) => box in w.attaching && w.attaching[box].stage == Excluded
    case MarkFailed(box) => box in w.attaching && w.attaching[box].stage == GivenUp
    case Look(t, box) => PhaseOf(w, t).Outside?
    case Take(t) => PhaseOf(w, t).Waiting?
    case Send(t) => PhaseOf(w, t).Holding? && !PhaseOf(w, t).busy
    case Receive(t) => PhaseOf(w, t).Holding? && PhaseOf(w, t).busy
    case Put(t) => PhaseOf(w, t).Holding? && !PhaseOf(w, t).busy
  }

  ghost function Next(w: World, s: Step): World
    requires Enabled(w, s)
  {
    match s
    case AttachServer(box, pid) =>
      if box in w.proxies then w
      else w.(proxies := w.proxies[box := Initializing], attaching := w.attaching[box := Attaching(pid, Begun)],
              servers := w.servers[box := pid])
    case ExcludeServer(box) =>
      w.(attaching := w.attaching[box := w.attaching[box].(stage := Excluded)],
         serverPids := w.serverPids + {w.attaching[box].pid})
    case HandshakeOk(box) =>
      w.(proxies := w.proxies[box := Ready], slots := w.slots[box := Some(Client([]))],
         attaching := w.attaching - {box})
    case GiveUp(box) =>
      w.(attaching := w.attaching[box := w.attaching[box].(stage := GivenUp)],
         serverPids := w.serverPids - {w.attaching[box].pid})
    case MarkFailed(box) => w.(proxies := w.proxies[box := Failed], attaching := w.attaching - {box})
    case Look(t, box) =>
      if box in w.proxies && w.proxies[box] == Ready then w.(threads := w.threads[t := Waiting(box)]) else w
    case Take(t) =>
      var box := PhaseOf(w, t).box;
      if box in w.slots && w.slots[box].Some?
      then w.(slots := w.slots[box := None], threads := w.threads[t := Holding(box, w.slots[box].value, false)])
      else w
    case Send(t) =>
      var p := PhaseOf(w, t);
      w.(threads := w.threads[t := Holding(p.box, Client(p.client.log + [Request(t)]), true)])
    case Receive(t) =>
      var p := PhaseOf(w, t);
      w.(threads := w.threads[t := Holding(p.box, Client(p.client.log + [Reply(t)]), false)])
    case Put(t) =>
      var p := PhaseOf(w, t);
      w.(slots := w.slots[p.box := Some(p.client)], threads := w.threads[t := Outside])
  }

  // ---------------------------------------------------------------- what calls and attaching achieve

  ghost predicate Feasible(w: World, ss: seq<Step>)
    decreases |ss|
  {
    ss == [] || (Enabled(w, ss[0]) && Feasible(Next(w, ss[0]), ss[1..]))
  }

  ghost function After(w: World, ss: seq<Step>): World
    requires Feasible(w, ss)
    decreases |ss|
  {
    if ss == [] then w else After(Next(w, ss[0]), ss[1..])
  }

  lemma StepFirst(w: World, s: Step, v: World, rest: seq<Step>)
    requires Enabled(w, s) && v == Next(w, s) && Feasible(v, rest)
    ensures Feasible(w, [s] + rest) && After(w, [s] + rest) == After(v, rest)
  {
    assert ([s] + rest)[1..] == rest;
  }

  /** The world with one more round trip of thread t on the connection of the box. */
  ghost predicate RoundTripDone(after: World, w: World, t: int, box: int)
    requires box in w.slots && w.slots[box].Some?
  {
    && after.slots == w.slots[box := Some(Client(w.slots[box].value.log + [Request(t), Reply(t)]))]
    && PhaseOf(after, t).Outside? && (forall u :: u != t ==> PhaseOf(after, u) == PhaseOf(w, u))
    && after.proxies == w.proxies && after.attaching == w.attaching && after.servers == w.servers
    && after.serverPids == w.serverPids
  }

  /** The steps of a call. */
  function CallSteps(t: int, box: int): seq<Step> {
    [Look(t, box)] + ([Take(t)] + ([Send(t)] + ([Receive(t)] + ([Put(t)] + []))))
  }

  /** From the client in its hands a thread gets back to being outside. */
  lemma HolderFinishes(w: World, t: int, box: int, client: Client)
    requires PhaseOf(w, t) == Holding(box, client, false)
    ensures var ss := [Send(t)] + ([Receive(t)] + ([Put(t)] + []));
            && Feasible(w, ss)
            && After(w, ss) == w.(slots := w.slots[box := Some(Client(client.log + [Request(t), Reply(t)]))],
                                  threads := w.threads[t := Outside])
  {
    var a := Next(w, Send(t));
    var b := Next(a, Receive(t));
    var c := Next(b, Put(t));
    assert client.log + [Request(t)] + [Reply(t)] == client.log + [Request(t), Reply(t)];
    assert c.threads == w.threads[t := Outside];
    StepFirst(b, Put(t), c, []);
    StepFirst(a, Receive(t), b, [Put(t)] + []);
    StepFirst(w, Send(t), a, [Receive(t)] + ([Put(t)] + []));
  }

  /** A thread that is outside can make a round trip over a ready box whose client is in its slot. */
  lemma RoundTripCompletes(w: World, t: int, box: int)
    requires box in w.proxies && w.proxies[box] == Ready && box in w.slots && w.slots[box].Some?
    requires PhaseOf(w, t).Outside?
    ensures Feasible(w, CallSteps(t, box)) && RoundTripDone(After(w, CallSteps(t, box)), w, t, box)
  {
    var a := Next(w, Look(t, box));
    var b := Next(a, Take(t));
    HolderFinishes(b, t, box, w.slots[box].value);
    var rest := [Send(t)] + ([Receive(t)] + ([Put(t)] + []));
    StepFirst(a, Take(t), b, rest);
    StepFirst(w, Look(t, box), a, [Take(t)] + rest);
  }

  /** A thread waits exactly while the box is ready and the client is with another thread. */
  lemma WaitsForClient(w: World, t: int, box: int)
    requires PhaseOf(w, t).Outside?
    ensures var a := Next(w, Look(t, box));
            if box in w.proxies && w.proxies[box] == Ready then PhaseOf(a, t) == Waiting(box) else a == w
    ensures var a := Next(w, Look(t, box));
            PhaseOf(a, t).Waiting? && !(box in w.slots && w.slots[box].Some?) ==> Next(a, Take(t)) == a
  {
  }

  /** Attaching a new box with a handshake: it is ready, with a fresh client, and its server is excluded. */
  lemma AttachSucceeds(w: World, box: int, pid: int)
    requires Enabled(w, AttachServer(box, pid)) && box !in w.proxies && box !in w.attaching
    ensures var ss := [AttachServer(box, pid)] + ([ExcludeServer(box)] + ([HandshakeOk(box)] + []));
            && Feasible(w, ss)
            && After(w, ss) == w.(proxies := w.proxies[box := Ready], slots := w.slots[box := Some(Client([]))],
                                  servers := w.servers[box := pid], serverPids := w.serverPids + {pid})
  {
    var a := Next(w, AttachServer(box, pid));
    var b := Next(a, ExcludeServer(box));
    var c := Next(b, HandshakeOk(box));
    assert c.attaching == w.attaching;
    StepFirst(b, HandshakeOk(box), c, []);
    StepFirst(a, ExcludeServer(box), b, [HandshakeOk(box)] + []);
    StepFirst(w, AttachServer(box, pid), a, [ExcludeServer(box)] + ([HandshakeOk(box)] + []));
  }

  /** Attaching a new box that is given up: it has failed, and its server is excluded no longer. */
  lemma AttachFails(w: World, box: int, pid: int)
    requires Enabled(w, AttachServer(box, pid)) && box !in w.proxies && box !in w.attaching && pid !in w.serverPids
    ensures var ss := [AttachServer(box, pid)] + ([ExcludeServer(box)] + ([GiveUp(box)] + ([MarkFailed(box)] + [])));
            && Feasible(w, ss)
            && After(w, ss) == w.(proxies := w.proxies[box := Failed], servers := w.servers[box := pid])
  {
    var a := Next(w, AttachServer(box, pid));
    var b := Next(a, ExcludeServer(box));
    var c := Next(b, GiveUp(box));
    var d := Next(c, MarkFailed(box));
    assert d.attaching == w.attaching && d.serverPids == w.serverPids;
    StepFirst(c, MarkFailed(box), d, []);
    StepFirst(b, GiveUp(box), c, [MarkFailed(box)] + []);
    StepFirst(a, ExcludeServer(box), b, [GiveUp(box)] + ([MarkFailed(box)] + []));
    StepFirst(w, AttachServer(box, pid), a, [ExcludeServer(box)] + ([GiveUp(box)] + ([MarkFailed(box)] + [])));
  }

  /** There is one server per box: attaching a known one changes nothing. */
  lemma KnownBoxStays(w: World, box: int, pid: int)
    requires Enabled(w, AttachServer(box, pid)) && box in w.proxies
    ensures Next(w, AttachServer(box, pid)) == w
  {
  }

  // ---------------------------------------------------------------- the invariant

  /** Every request is followed by its own reply: round trips one after the other. */
  predicate Paired(log: seq<Event>) {
    log == [] || (|log| >= 2 && Paired(log[..|log| - 2])
                  && log[|log| - 2].Request? && log[|log| - 1] == Reply(log[|log| - 2].t))
  }

  /** A client in use by t: whole round trips, and the request of t if it waits for the reply. */
  predicate InUse(t: int, client: Client, busy: bool) {
    var n := |client.log|;
    if busy then n > 0 && client.log[n - 1] == Request(t) && Paired(client.log[..n - 1]) else Paired(client.log)
  }

  /** The client is in its slot or with exactly one thread. */
  ghost predicate OneToken(w: World, box: int)
    requires box in w.slots
  {
    && (w.slots[box].Some? ==> Paired(w.slots[box].value.log) && forall t :: !Holds(w, t, box))
    && (w.slots[box].None? ==> exists t :: Holds(w, t, box))
    && forall t, u :: Holds(w, t, box) && Holds(w, u, box) ==> t == u
  }

  /** The calls of a server are its own while it is being attached and once its box is ready. */
  predicate Shielded(w: World, box: int)
    requires box in w.proxies
  {
    w.proxies[box] == Ready || (box in w.attaching && w.attaching[box].stage == Excluded)
  }

  ghost predicate EntryOk(w: World, box: int)
    requires box in w.proxies
  {
    && (box in w.slots <==> w.proxies[box] == Ready)
    && (box in w.attaching <==> w.proxies[box] == Initializing)
    && box in w.servers
    && (box in w.attaching ==> w.attaching[box].pid == w.servers[box])
    && (w.servers[box] in w.serverPids <==> Shielded(w, box))
  }

  ghost predicate ThreadOk(w: World, t: int) {
    var p := PhaseOf(w, t);
    && (!p.Outside? ==> p.box in w.slots)
    && (p.Holding? ==> InUse(t, p.client, p.busy))
  }

  ghost predicate IsServer(w: World, pid: int) {
    exists b :: b in w.servers && w.servers[b] == pid
  }

  ghost predicate Inv(w: World) {
    && (forall box {:trigger OneToken(w, box)} :: box in w.slots ==> box in w.proxies && OneToken(w, box))
    && (forall box {:trigger EntryOk(w, box)} :: box in w.proxies ==> EntryOk(w, box))
    && (forall box :: box in w.slots || box in w.attaching || box in w.servers ==> box in w.proxies)
    && (forall t {:trigger ThreadOk(w, t)} :: ThreadOk(w, t))
    && (forall a, b :: a in w.servers && b in w.servers && a != b ==> w.servers[a] != w.servers[b])
    && (forall p :: p in w.serverPids ==> IsServer(w, p))
  }

  lemma {:induction false} PairedSnoc(log: seq<Event>, t: int)
    requires Paired(log)
    ensures Paired(log + [Request(t)] + [Reply(t)])
  {
    var more := log + [Request(t)] + [Reply(t)];
    assert more[..|more| - 2] == log;
  }

  // ---------------------------------------------------------------- steps keep it

  predicate IsAttachStep(s: Step) {
    s.AttachServer? || s.ExcludeServer? || s.HandshakeOk? || s.GiveUp? || s.MarkFailed?
  }

  lemma AttachKeepsPids(w: World, s: Step)
    requires Inv(w) && Enabled(w, s) && IsAttachStep(s)
    ensures forall p :: p in Next(w, s).serverPids ==> IsServer(Next(w, s), p)
  {
    var v := Next(w, s);
    if s.box in w.proxies {
      assert EntryOk(w, s.box);
    }
    forall p | p in v.serverPids
      ensures IsServer(v, p)
    {
      if p in w.serverPids {
        assert IsServer(w, p);
        var b :| b in w.servers && w.servers[b] == p;
        assert v.servers[b] == p;
      } else {
        assert v.servers[s.box] == p;
      }
    }
  }

  lemma AttachKeepsEntry(w: World, s: Step, b: int)
    requires Inv(w) && Enabled(w, s) && IsAttachStep(s) && b in Next(w, s).proxies
    ensures EntryOk(Next(w, s), b)
  {
    if s.box in w.proxies {
      assert EntryOk(w, s.box);
    }
    if b in w.proxies {
      assert EntryOk(w, b);
    } else {
      assert !IsServer(w, s.pid);
    }
  }

  /** Steps of the attaching kernel thread do not touch clients in use. */
  lemma AttachKeeps(w: World, s: Step)
    requires Inv(w) && Enabled(w, s) && IsAttachStep(s)
    ensures Inv(Next(w, s))
  {
    var v := Next(w, s);
    AttachKeepsPids(w, s);
    forall b | b in v.proxies
      ensures EntryOk(v, b)
    {
      AttachKeepsEntry(w, s, b);
    }
    forall t
      ensures ThreadOk(v, t) && PhaseOf(v, t) == PhaseOf(w, t)
    {
      assert ThreadOk(w, t);
    }
    forall b | b in v.slots
      ensures b in v.proxies && OneToken(v, b)
    {
      AttachKeepsToken(w, s, b);
    }
  }

  lemma AttachKeepsToken(w: World, s: Step, b: int)
    requires Inv(w) && Enabled(w, s) && IsAttachStep(s) && b in Next(w, s).slots
    ensures b in Next(w, s).proxies && OneToken(Next(w, s), b)
  {
    var v := Next(w, s);
    if b in w.slots {
      assert OneToken(w, b) && EntryOk(w, b);
      forall t
        ensures Holds(v, t, b) == Holds(w, t, b)
      {
      }
      if w.slots[b].None? {
        var t :| Holds(w, t, b);
        assert Holds(v, t, b);
      }
      assert s.HandshakeOk? ==> b != s.box;
    } else {
      forall t
        ensures !Holds(v, t, b)
      {
        assert ThreadOk(w, t);
      }
    }
  }

  /** A thread that changes only its own phase, between phases that hold nothing. */
  lemma LookKeeps(w: World, t: int, box: int)
    requires Inv(w) && Enabled(w, Look(t, box))
    ensures Inv(Next(w, Look(t, box)))
  {
    var v := Next(w, Look(t, box));
    forall u
      ensures ThreadOk(v, u)
    {
      assert ThreadOk(w, u);
      if box in w.proxies {
        assert EntryOk(w, box);
      }
    }
    SamePhases(w, v);
  }

  /** Tokens stay where they are if the same threads hold them and slots are the same. */
  lemma SamePhases(w: World, v: World)
    requires Inv(w) && v == w.(threads := v.threads)
    requires forall u, b :: Holds(v, u, b) <==> Holds(w, u, b)
    ensures forall b :: b in v.slots ==> b in v.proxies && OneToken(v, b)
    ensures forall b :: b in v.proxies ==> EntryOk(v, b)
  {
    forall b | b in v.slots
      ensures b in v.proxies && OneToken(v, b)
    {
      assert OneToken(w, b);
      if w.slots[b].None? {
        var t :| Holds(w, t, b);
        assert Holds(v, t, b);
      }
    }
    forall b | b in v.proxies
      ensures EntryOk(v, b)
    {
      assert EntryOk(w, b);
    }
  }

  lemma TakeKeeps(w: World, t: int)
    requires Inv(w) && Enabled(w, Take(t))
    ensures Inv(Next(w, Take(t)))
  {
    var v := Next(w, Take(t));
    var box := PhaseOf(w, t).box;
    assert ThreadOk(w, t);
    assert OneToken(w, box);
    if w.slots[box].Some? {
      forall u
        ensures ThreadOk(v, u)
      {
        assert ThreadOk(w, u);
      }
      forall u, b
        ensures Holds(v, u, b) <==> Holds(w, u, b) || (u == t && b == box)
      {
      }
      forall b | b in v.slots
        ensures b in v.proxies && OneToken(v, b)
      {
        TokenElsewhere(w, v, box, b);
        assert Holds(v, t, box);
      }
      forall b | b in v.proxies
        ensures EntryOk(v, b)
      {
        assert EntryOk(w, b);
      }
    }
  }

  lemma TokenElsewhere(w: World, v: World, box: int, b: int)
    requires Inv(w) && b in w.slots && b in v.slots && v.proxies == w.proxies
    requires b != box ==> v.slots[b] == w.slots[b]
    requires forall u :: b != box ==> (Holds(v, u, b) <==> Holds(w, u, b))
    ensures b in v.proxies && (b != box ==> OneToken(v, b))
  {
    assert OneToken(w, b);
    if b != box && w.slots[b].None? {
      var t :| Holds(w, t, b);
      assert Holds(v, t, b);
    }
  }

  lemma RoundTripKeeps(w: World, s: Step)
    requires Inv(w) && Enabled(w, s) && (s.Send? || s.Receive?)
    ensures Inv(Next(w, s))
  {
    var v := Next(w, s);
    var p := PhaseOf(w, s.t);
    assert ThreadOk(w, s.t);
    if s.Send? {
      SendLog(p.client, s.t);
    } else {
      ReceiveLog(p.client, s.t);
    }
    forall u
      ensures ThreadOk(v, u)
    {
      assert ThreadOk(w, u);
    }
    SamePhases(w, v);
  }

  lemma SendLog(c: Client, t: int)
    requires InUse(t, c, false)
    ensures InUse(t, Client(c.log + [Request(t)]), true)
  {
    assert (c.log + [Request(t)])[..|c.log|] == c.log;
  }

  lemma ReceiveLog(c: Client, t: int)
    requires InUse(t, c, true)
    ensures InUse(t, Client(c.log + [Reply(t)]), false)
  {
    var sent := c.log[..|c.log| - 1];
    PairedSnoc(sent, t);
    assert c.log + [Reply(t)] == sent + [Request(t)] + [Reply(t)];
  }

  lemma PutKeeps(w: World, t: int)
    requires Inv(w) && Enabled(w, Put(t))
    ensures Inv(Next(w, Put(t)))
  {
    var v := Next(w, Put(t));
    var box := PhaseOf(w, t).box;
    assert ThreadOk(w, t);
    assert OneToken(w, box) && Holds(w, t, box);
    forall u
      ensures ThreadOk(v, u)
    {
      assert ThreadOk(w, u);
    }
    forall u, b
      ensures Holds(v, u, b) <==> Holds(w, u, b) && u != t
    {
    }
    forall b | b in v.slots
      ensures b in v.proxies && OneToken(v, b)
    {
      TokenElsewhere(w, v, box, b);
    }
    forall b | b in v.proxies
      ensures EntryOk(v, b)
    {
      assert EntryOk(w, b);
    }
  }

  lemma StepKeepsInv(w: World, s: Step)
    requires Inv(w) && Enabled(w, s)
    ensures Inv(Next(w, s))
  {
    match s
    case Look(t, box) => LookKeeps(w, t, box);
    case Take(t) => TakeKeeps(w, t);
    case Send(_) => RoundTripKeeps(w, s);
    case Receive(_) => RoundTripKeeps(w, s);
    case Put(t) => PutKeeps(w, t);
    case _ => AttachKeeps(w, s);
  }

  // ---------------------------------------------------------------- runs

  ghost predicate Follows(ws: seq<World>, ss: seq<Step>, i: nat)
    requires |ws| == |ss| + 1 && i < |ss|
  {
    Enabled(ws[i], ss[i]) && ws[i + 1] == Next(ws[i], ss[i])
  }

  /** Interleavings of any threads, from a system without boxes. */
  ghost predicate Run(ws: seq<World>, ss: seq<Step>) {
    && |ws| == |ss| + 1 && ws[0] == World(map[], map[], map[], map[], map[], {})
    && forall i: nat {:trigger Follows(ws, ss, i)} :: i < |ss| ==> Follows(ws, ss, i)
  }

  lemma {:induction false} InvThroughout(ws: seq<World>, ss: seq<Step>, n: nat)
    requires Run(ws, ss) && n <= |ss|
    ensures Inv(ws[n])
  {
    if n == 0 {
      forall t
        ensures ThreadOk(ws[0], t)
      {
      }
    } else {
      InvThroughout(ws, ss, n - 1);
      assert Follows(ws, ss, n - 1);
      StepKeepsInv(ws[n - 1], ss[n - 1]);
    }
  }

  /**
   In every interleaving: the client of a ready box is in its slot or held by exactly one thread, and
   whoever has it finds whole round trips on it, so that no two of them ever mix.
   */
  lemma ClientIsExclusive(ws: seq<World>, ss: seq<Step>, n: nat, box: int)
    requires Run(ws, ss) && n <= |ss|
    requires box in ws[n].proxies && ws[n].proxies[box] == Ready
    ensures box in ws[n].slots
    ensures ws[n].slots[box].Some? ==> Paired(ws[n].slots[box].value.log) && forall t :: !Holds(ws[n], t, box)
    ensures ws[n].slots[box].None? ==> exists t :: Holds(ws[n], t, box)
    ensures forall t, u :: Holds(ws[n], t, box) && Holds(ws[n], u, box) ==> t == u
    ensures forall t :: Holds(ws[n], t, box) ==> InUse(t, PhaseOf(ws[n], t).client, PhaseOf(ws[n], t).busy)
    ensures box in ws[n].servers && ws[n].servers[box] in ws[n].serverPids
  {
    InvThroughout(ws, ss, n);
    assert EntryOk(ws[n], box);
    assert OneToken(ws[n], box);
    forall t | Holds(ws[n], t, box)
      ensures InUse(t, PhaseOf(ws[n], t).client, PhaseOf(ws[n], t).busy)
    {
      assert ThreadOk(ws[n], t);
    }
  }

  /** In every interleaving: a server's own calls are left to it exactly while it is attached or being so. */
  lemma ShieldExactly(ws: seq<World>, ss: seq<Step>, n: nat, box: int)
    requires Run(ws, ss) && n <= |ss| && box in ws[n].proxies
    ensures box in ws[n].servers && (ws[n].servers[box] in ws[n].serverPids <==> Shielded(ws[n], box))
  {
    InvThroughout(ws, ss, n);
    assert EntryOk(ws[n], box);
  }

  /** How an entry may have changed. */
  predicate Later(a: Option<Entry>, b: Option<Entry>) {
    a == b || a == None || (a == Some(Initializing) && (b == Some(Ready) || b == Some(Failed)))
  }

  function EntryOf(w: World, box: int): Option<Entry> {
    if box in w.proxies then Some(w.proxies[box]) else None
  }

  /** An entry is decided once: from Initializing to Ready or Failed, and never again. */
  lemma {:induction false} DecidedOnce(ws: seq<World>, ss: seq<Step>, i: nat, j: nat, box: int)
    requires Run(ws, ss) && i <= j <= |ss|
    ensures Later(EntryOf(ws[i], box), EntryOf(ws[j], box))
    decreases j
  {
    if i < j {
      DecidedOnce(ws, ss, i, j - 1, box);
      InvThroughout(ws, ss, j - 1);
      assert Follows(ws, ss, j - 1);
      EntryStep(ws[j - 1], ss[j - 1], box);
    }
  }

  lemma EntryStep(w: World, s: Step, box: int)
    requires Inv(w) && Enabled(w, s)
    ensures Later(EntryOf(w, box), EntryOf(Next(w, s), box))
    ensures EntryOf(w, box) == None ==> EntryOf(Next(w, s), box) in {None, Some(Initializing)}
  {
    if s.HandshakeOk? || s.MarkFailed? {
      assert EntryOk(w, s.box);
    }
  }
}
