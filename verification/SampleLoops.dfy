/**
 Start and teardown of a multi-loop sample: server and client threads over storage that must outlive them, where any
 allocation, launch or wait may fail. Each scope ends with what was deferred in it, last first.
 */
module SampleLoops {

  datatype Thread = Server(i: nat) | Client(i: nat)

  datatype Storage = Readies | Apps | Tasks | ServerHandles | Clients | ClientHandles

  /** Where the run can fail; only a group of tasks is awaited, and an await that fails leaves it to be cancelled. */
  datatype Point =
    | Allocating(s: Storage) | Launching(t: Thread) | WaitingReady
    | AwaitingClients | ClientResult | AwaitingServers | Reporting

  datatype Options = Options(loops: nat, clients: nat, perThread: bool, fails: Point -> bool)

  /** The points a run comes by if none before it fails. */
  predicate Met(o: Options, p: Point) {
    match p
    case Allocating(s) => s in {ServerHandles, ClientHandles} ==> o.perThread
    case Launching(t) => if t.Server? then t.i < o.loops else t.i < o.clients
    case AwaitingClients | AwaitingServers => !o.perThread
    case _ => true
  }

  ghost predicate ServersStart(o: Options) {
    forall i: nat :: i < o.loops ==> !o.fails(Launching(Server(i)))
  }

  ghost predicate ClientsStart(o: Options) {
    forall i: nat :: i < o.clients ==> !o.fails(Launching(Client(i)))
  }

  /** Nothing fails once the clients' storage stands. */
  ghost predicate ClientsPass(o: Options) {
    && (o.perThread ==> !o.fails(Allocating(ClientHandles))) && ClientsStart(o)
    && (o.perThread || !(o.fails(AwaitingClients) || o.fails(AwaitingServers)))
    && !o.fails(ClientResult) && !o.fails(Reporting)
  }

  /** Nothing fails once the servers' storage stands. */
  ghost predicate ServersPass(o: Options) {
    && (o.perThread ==> !o.fails(Allocating(ServerHandles))) && ServersStart(o) && !o.fails(WaitingReady)
    && !o.fails(Allocating(Clients)) && ClientsPass(o)
  }

  lemma AllPassIff(o: Options)
    ensures (forall p :: Met(o, p) ==> !o.fails(p)) <==>
      (forall s :: s in {Readies, Apps, Tasks} ==> !o.fails(Allocating(s))) && ServersPass(o)
  {
    if forall p :: Met(o, p) ==> !o.fails(p) {
      assert forall i: nat :: i < o.loops ==> Met(o, Launching(Server(i)));
      assert forall i: nat :: i < o.clients ==> Met(o, Launching(Client(i)));
      assert Met(o, WaitingReady) && Met(o, ClientResult) && Met(o, Reporting);
      assert o.perThread || (Met(o, AwaitingClients) && Met(o, AwaitingServers));
      assert forall s :: s in {Readies, Apps, Tasks, Clients} ==> Met(o, Allocating(s));
      assert o.perThread ==> Met(o, Allocating(ServerHandles)) && Met(o, Allocating(ClientHandles));
    } else {
      var p :| Met(o, p) && o.fails(p);
      match p
      case Launching(Server(i)) =>
      case Launching(Client(i)) =>
      case Allocating(s) =>
        assert s.Readies? || s.Apps? || s.Tasks? || s.Clients? || s.ServerHandles? || s.ClientHandles?;
      case _ =>
    }
  }

  /** The storage a running thread touches; thread handles exist only where every loop is a thread of its own. */
  function Uses(t: Thread, perThread: bool): set<Storage> {
    match t
    case Server(_) => {Readies, Apps, Tasks} + if perThread then {ServerHandles} else {}
    case Client(_) => {Clients} + if perThread then {ClientHandles} else {}
  }

  ghost predicate Distinct(s: seq<Thread>) {
    forall i, j :: 0 <= i < j < |s| ==> s[i] != s[j]
  }

  /** Servers below `k` and clients below `c`. */
  ghost function Crew(k: nat, c: nat): (s: set<Thread>)
    ensures forall t :: t in s <==> if t.Server? then t.i < k else t.i < c
  {
    (set i | 0 <= i < k :: Server(i)) + (set i | 0 <= i < c :: Client(i))
  }

  class Process {
    const perThread: bool
    var live: set<Storage>
    var running: set<Thread>
    var started: seq<Thread>
    var joined: seq<Thread>

    constructor (perThread: bool)
      ensures Valid() && live == {} && running == {} && started == [] && joined == [] && this.perThread == perThread
    {
      this.perThread := perThread;
      live, running, started, joined := {}, {}, [], [];
    }

    /** Threads run from their start to their join, and what they touch is not freed meanwhile. */
    ghost predicate Valid()
      reads this
    {
      && Distinct(started) && Distinct(joined)
      && (forall t :: t in running <==> t in started && t !in joined)
      && (forall t :: t in joined ==> t in started)
      && (forall t :: t in running ==> Uses(t, perThread) <= live)
    }

    method Allocate(s: Storage)
      requires Valid() && s !in live
      modifies this`live
      ensures Valid() && live == old(live) + {s}
    {
      live := live + {s};
    }

    method Free(s: Storage)
      requires Valid() && s in live && forall t :: t in running ==> s !in Uses(t, perThread)
      modifies this`live
      ensures Valid() && live == old(live) - {s}
    {
      live := live - {s};
    }

    method Launch(t: Thread)
      requires Valid() && t !in started && Uses(t, perThread) <= live
      modifies this`running, this`started
      ensures Valid() && running == old(running) + {t} && started == old(started) + [t]
    {
      assert t !in joined;
      running, started := running + {t}, started + [t];
    }

    /** Waits for a thread to return. */
    method Join(t: Thread)
      requires Valid() && t in running
      modifies this`running, this`joined
      ensures Valid() && running == old(running) - {t} && joined == old(joined) + [t]
    {
      running, joined := running - {t}, joined + [t];
    }
  }

  method JoinServers(p: Process, k: nat, ghost c: nat)
    requires p.Valid() && p.running == Crew(k, c)
    modifies p`running, p`joined
    ensures p.Valid() && p.running == Crew(0, c)
  {
    var i := 0;
    while i < k
      invariant i <= k && p.Valid()
      invariant p.running == Crew(k, c) - Crew(i, 0)
    {
      p.Join(Server(i));
      i := i + 1;
    }
  }

  method JoinClients(p: Process, ghost k: nat, c: nat)
    requires p.Valid() && p.running == Crew(k, c)
    modifies p`running, p`joined
    ensures p.Valid() && p.running == Crew(k, 0)
  {
    var i := 0;
    while i < c
      invariant i <= c && p.Valid()
      invariant p.running == Crew(k, c) - Crew(0, i)
    {
      p.Join(Client(i));
      i := i + 1;
    }
  }

  /** Starts the servers until one fails to start. */
  method LaunchServers(p: Process, o: Options) returns (ok: bool, k: nat)
    requires p.Valid() && p.running == {} && p.started == [] && Uses(Server(0), p.perThread) <= p.live
    modifies p`running, p`started
    ensures p.Valid() && p.running == Crew(k, 0) && k <= o.loops && (ok ==> k == o.loops)
    ensures ok <==> ServersStart(o)
    ensures forall t :: t in p.started <==> t in Crew(k, 0)
  {
    k := 0;
    while k < o.loops
      invariant k <= o.loops && p.Valid() && p.running == Crew(k, 0)
      invariant forall i: nat :: i < k ==> !o.fails(Launching(Server(i)))
      invariant forall t :: t in p.started <==> t in Crew(k, 0)
    {
      if o.fails(Launching(Server(k))) {
        return false, k;
      }
      p.Launch(Server(k));
      k := k + 1;
    }
    ok := true;
  }

  method LaunchClients(p: Process, o: Options, ghost k: nat) returns (ok: bool, c: nat)
    requires p.Valid() && p.running == Crew(k, 0) && Uses(Client(0), p.perThread) <= p.live
    requires forall t :: t in p.started <==> t in Crew(k, 0)
    modifies p`running, p`started
    ensures p.Valid() && p.running == Crew(k, c) && c <= o.clients && (ok ==> c == o.clients)
    ensures ok <==> ClientsStart(o)
    ensures forall t :: t in p.started <==> t in Crew(k, c)
  {
    c := 0;
    while c < o.clients
      invariant c <= o.clients && p.Valid() && p.running == Crew(k, c)
      invariant forall i: nat :: i < c ==> !o.fails(Launching(Client(i)))
      invariant forall t :: t in p.started <==> t in Crew(k, c)
    {
      if o.fails(Launching(Client(c))) {
        return false, c;
      }
      p.Launch(Client(c));
      c := c + 1;
    }
    ok := true;
  }

  /**
   The clients' part of the body; on success the servers are joined here too, while the clients' storage still stands.
   */
  method ClientsBody(p: Process, o: Options, k0: nat) returns (ok: bool, k: nat, c: nat)
    requires p.Valid() && p.perThread == o.perThread && p.running == Crew(k0, 0) && k0 == o.loops
    requires forall t :: t in p.started <==> t in Crew(k0, 0)
    requires Uses(Server(0), p.perThread) + {Clients} <= p.live && ClientHandles !in p.live
    modifies p
    ensures p.Valid() && p.running == Crew(k, c)
    ensures p.live == old(p.live) || (p.perThread && p.live == old(p.live) + {ClientHandles})
    ensures ok <==> ClientsPass(o)
    ensures ok ==> k == 0 && c == 0 && forall t :: t in p.started <==> t in Crew(o.loops, o.clients)
  {
    k, c := k0, 0;
    if o.perThread {
      if o.fails(Allocating(ClientHandles)) {
        return false, k, c;
      }
      p.Allocate(ClientHandles);
    }
    ok, c := LaunchClients(p, o, k);
    if !ok {
      return;
    }
    if !o.perThread && o.fails(AwaitingClients) {
      return false, k, c;
    }
    JoinClients(p, k, c);
    c := 0;
    if o.fails(ClientResult) {
      return false, k, c;
    }
    if !o.perThread && o.fails(AwaitingServers) {
      return false, k, c;
    }
    JoinServers(p, k, 0);
    k := 0;
    ok := !o.fails(Reporting);
  }

  method ClientsScope(p: Process, o: Options, k0: nat) returns (ok: bool, k: nat)
    requires p.Valid() && p.perThread == o.perThread && p.running == Crew(k0, 0) && k0 == o.loops
    requires forall t :: t in p.started <==> t in Crew(k0, 0)
    requires Uses(Server(0), p.perThread) <= p.live && {Clients, ClientHandles} !! p.live
    modifies p
    ensures p.Valid() && p.running == Crew(k, 0) && p.live == old(p.live)
    ensures ok <==> !o.fails(Allocating(Clients)) && ClientsPass(o)
    ensures ok ==> forall t :: t in p.started <==> t in Crew(o.loops, o.clients)
  {
    if o.fails(Allocating(Clients)) {
      return false, k0;
    }
    p.Allocate(Clients);
    var c;
    ok, k, c := ClientsBody(p, o, k0);
    JoinClients(p, k, c);
    if ClientHandles in p.live {
      p.Free(ClientHandles);
    }
    p.Free(Clients);
  }

  method ServersBody(p: Process, o: Options) returns (ok: bool, k: nat)
    requires p.Valid() && p.perThread == o.perThread && p.running == {} && p.started == []
    requires p.live == {Readies, Apps, Tasks}
    modifies p
    ensures p.Valid() && p.running == Crew(k, 0)
    ensures p.live == {Readies, Apps, Tasks} || (p.perThread && p.live == {Readies, Apps, Tasks, ServerHandles})
    ensures ok <==> ServersPass(o)
    ensures ok ==> forall t :: t in p.started <==> t in Crew(o.loops, o.clients)
  {
    k := 0;
    if o.perThread {
      if o.fails(Allocating(ServerHandles)) {
        return false, k;
      }
      p.Allocate(ServerHandles);
    }
    ok, k := LaunchServers(p, o);
    if !ok {
      return;
    }
    if o.fails(WaitingReady) {
      return false, k;
    }
    ok, k := ClientsScope(p, o, k);
  }

  method ServersScope(p: Process, o: Options) returns (ok: bool)
    requires p.Valid() && p.perThread == o.perThread && p.running == {} && p.started == []
    requires p.live == {Readies, Apps, Tasks}
    modifies p
    ensures p.Valid() && p.running == {} && p.live == {Readies, Apps, Tasks}
    ensures ok <==> ServersPass(o)
    ensures ok ==> forall t :: t in p.started <==> t in Crew(o.loops, o.clients)
  {
    var k;
    ok, k := ServersBody(p, o);
    JoinServers(p, k, 0);
    if ServerHandles in p.live {
      p.Free(ServerHandles);
    }
  }

  /**
   Wherever the run fails, and when it does not: every thread started is joined exactly once, no storage is freed under
   a running thread, and nothing stays allocated. The run succeeds exactly if no point it comes by fails.
   */
  method RunSampleLoops(o: Options) returns (p: Process, ok: bool)
    ensures fresh(p) && p.Valid() && p.running == {} && p.live == {}
    ensures Distinct(p.started) && Distinct(p.joined) && forall t :: t in p.started <==> t in p.joined
    ensures ok ==> forall t :: t in p.joined <==> t in Crew(o.loops, o.clients)
    ensures ok <==> forall q :: Met(o, q) ==> !o.fails(q)
  {
    AllPassIff(o);
    p := new Process(o.perThread);
    if o.fails(Allocating(Readies)) {
      return p, false;
    }
    p.Allocate(Readies);
    if o.fails(Allocating(Apps)) {
      p.Free(Readies);
      return p, false;
    }
    p.Allocate(Apps);
    if o.fails(Allocating(Tasks)) {
      p.Free(Apps);
      p.Free(Readies);
      return p, false;
    }
    p.Allocate(Tasks);
    ok := ServersScope(p, o);
    p.Free(Tasks);
    p.Free(Apps);
    p.Free(Readies);
  }

  // -- the clients' cells --

  /** The cells of client `i`. */
  ghost predicate InSlice(x: nat, i: nat, pings: nat) {
    i * pings <= x < (i + 1) * pings
  }

  /** Every cell used belongs to exactly one client. */
  lemma SlicesPartition(x: nat, pings: nat, clients: nat) returns (owner: nat)
    requires x < clients * pings
    ensures owner < clients && InSlice(x, owner, pings)
    ensures forall i: nat :: InSlice(x, i, pings) ==> i == owner
  {
    owner := x / pings;
    forall i: nat | InSlice(x, i, pings)
      ensures i == owner
    {
      OneOwner(x, i, owner, pings);
    }
    if owner >= clients {
      Times(clients, owner, pings);
    }
  }

  lemma SliceInside(i: nat, pings: nat, clients: nat)
    requires i < clients
    ensures (i + 1) * pings <= clients * pings
    ensures i * pings + pings == (i + 1) * pings
  {
    Times(i + 1, clients, pings);
  }

  lemma Times(a: nat, b: nat, n: nat)
    requires a <= b
    ensures a * n <= b * n
  {
  }

  lemma OneOwner(x: nat, i: nat, j: nat, pings: nat)
    requires InSlice(x, i, pings) && InSlice(x, j, pings)
    ensures i == j
  {
    if i < j {
      Times(i + 1, j, pings);
    } else if j < i {
      Times(j + 1, i, pings);
    }
  }
}
