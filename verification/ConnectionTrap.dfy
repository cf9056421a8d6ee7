/**
  The connection trap of the replay acceptance tests
  (pytests/tests/test_replay_acceptance.py): its counters under the condition
  variable, and the protocol of server loop, handler threads and snapshot.
 */
module ConnectionTrap {
  import opened Wrappers

  // ---------------------------------------------------------------- the counters

  datatype Counters = Counters(connections: nat, bytes: nat, active: int, generation: nat)

  /** The critical sections of the trap, as functions of the counters. */
  function CountRequest(c: Counters): Counters {
    c.(connections := c.connections + 1, active := c.active + 1)
  }

  function ServiceActions(c: Counters): Counters {
    c.(generation := c.generation + 1)
  }

  function FinishHandler(c: Counters, received: nat): Counters {
    c.(bytes := c.bytes + received, active := c.active - 1)
  }

  predicate MayReturn(c: Counters, target: nat) {
    c.generation >= target && c.active == 0
  }

  /** One `recv`: a timeout, any other exception, or some octets (none at the end of the stream). */
  datatype Recv = Timeout | Raises | Data(octets: nat)

  /** The octets a handler receives before the first timeout, exception or end of stream. */
  function Received(recvs: seq<Recv>): nat {
    if recvs == [] || !recvs[0].Data? || recvs[0].octets == 0 then 0
    else recvs[0].octets + Received(recvs[1..])
  }

  /** Whether the handler goes on to answer, or its last `recv` raises past it. */
  predicate Answers(recvs: seq<Recv>) {
    if recvs == [] || recvs[0] == Timeout then true
    else if recvs[0] == Raises then false
    else recvs[0].octets == 0 || Answers(recvs[1..])
  }

  /** The `recv` after which a handler stops: none of those before it timed out, raised or came back empty. */
  predicate IsLast(recvs: seq<Recv>, n: nat) {
    && n <= |recvs|
    && (forall k :: 0 <= k < n ==> recvs[k].Data? && recvs[k].octets > 0)
    && (n < |recvs| ==> recvs[n] == Timeout || recvs[n] == Raises || recvs[n] == Data(0))
  }

  /** The octets of the first `n` receives. */
  function OctetsUpTo(recvs: seq<Recv>, n: nat): nat
    requires n <= |recvs|
  {
    if n == 0 then 0 else OctetsUpTo(recvs, n - 1) + if recvs[n - 1].Data? then recvs[n - 1].octets else 0
  }

  lemma {:induction false} OctetsShift(recvs: seq<Recv>, n: nat)
    requires 0 < n <= |recvs| && recvs[0].Data?
    ensures OctetsUpTo(recvs, n) == recvs[0].octets + OctetsUpTo(recvs[1..], n - 1)
  {
    if n == 1 {
      assert OctetsUpTo(recvs, 0) == 0 == OctetsUpTo(recvs[1..], 0);
    } else {
      OctetsShift(recvs, n - 1);
      assert recvs[1..][n - 2] == recvs[n - 1];
    }
  }

  /** A handler's octets are those before its last `recv`, and it answers unless that one raised. */
  lemma {:induction false} ReceivedMeans(recvs: seq<Recv>, n: nat)
    requires IsLast(recvs, n)
    ensures Received(recvs) == OctetsUpTo(recvs, n)
    ensures Answers(recvs) <==> (n < |recvs| ==> recvs[n] != Raises)
  {
    if n > 0 {
      assert IsLast(recvs[1..], n - 1);
      ReceivedMeans(recvs[1..], n - 1);
      OctetsShift(recvs, n);
    }
  }

  class Trap {
    var connections: nat
    var bytes: nat
    var active: int
    var generation: nat

    ghost function State(): Counters
      reads this
    {
      Counters(connections, bytes, active, generation)
    }

    constructor ()
      ensures State() == Counters(0, 0, 0, 0)
    {
      connections, bytes, active, generation := 0, 0, 0, 0;
    }

    method GetRequest()
      modifies this
      ensures State() == CountRequest(old(State()))
      ensures connections == old(connections) + 1 && active == old(active) + 1
      ensures bytes == old(bytes) && generation == old(generation)
    {
      connections := connections + 1;
      active := active + 1;
    }

    method Service()
      modifies this
      ensures State() == ServiceActions(old(State()))
      ensures generation == old(generation) + 1
      ensures connections == old(connections) && bytes == old(bytes) && active == old(active)
    {
      generation := generation + 1;
    }

    /** A handler: the counters are settled in `finally`, whether or not a `recv` raised. */
    method Handle(recvs: seq<Recv>) returns (answered: bool)
      modifies this
      ensures State() == FinishHandler(old(State()), Received(recvs))
      ensures active == old(active) - 1 && connections == old(connections) && generation == old(generation)
      ensures exists n: nat ::
        && IsLast(recvs, n) && bytes == old(bytes) + OctetsUpTo(recvs, n)
        && answered == (n < |recvs| ==> recvs[n] != Raises)
    {
      var received := 0;
      var k := 0;
      answered := true;
      assert recvs[0..] == recvs;
      while k < |recvs|
        invariant 0 <= k <= |recvs|
        invariant forall i :: 0 <= i < k ==> recvs[i].Data? && recvs[i].octets > 0
        invariant Received(recvs) == received + Received(recvs[k..])
        invariant answered && Answers(recvs) == Answers(recvs[k..])
      {
        assert recvs[k..][1..] == recvs[k + 1..];
        if recvs[k] == Raises {
          answered := false;
          break;
        }
        if recvs[k] == Timeout || recvs[k].octets == 0 {
          break;
        }
        received, k := received + recvs[k].octets, k + 1;
      }
      ReceivedMeans(recvs, k);
      bytes := bytes + received;
      active := active - 1;
    }

    /** The generation a snapshot waits for. */
    method Target() returns (target: nat)
      ensures target == generation + 2
    {
      target := generation + 2;
    }

    /** The loop condition of `snapshot`, and its result once the condition is over. */
    method Poll(target: nat) returns (r: Option<(nat, nat)>)
      ensures r == if MayReturn(State(), target) then Some((connections, bytes)) else None
      ensures r.Some? <==> generation >= target && active == 0
    {
      if generation < target || active != 0 {
        return None;
      }
      return Some((connections, bytes));
    }
  }

  // ---------------------------------------------------------------- the protocol

  type Conn = nat

  /**
    Where the server loop is: selecting, about to accept, between accept and count,
    between count and spawn, or about to tick.
   */
  datatype Server = Selecting | Ready | Accepted(c: Conn) | Counted(c: Conn) | Ticking

  datatype Snapshot = Idle | Waiting(target: nat) | Returned(connections: nat, bytes: nat)

  datatype Done = Done(c: Conn, received: nat)

  datatype State = State(
    arrived: set<Conn>,
    backlog: seq<Conn>,
    server: Server,
    counters: Counters,
    receiving: map<Conn, nat>,
    finished: seq<Done>,
    snapshot: Snapshot)

  datatype Action =
    | Arrive(c: Conn)
    | Select
    | Accept
    | Count
    | Spawn
    | Tick
    | Receive(c: Conn, octets: nat)
    | Finish(c: Conn)
    | Begin
    | Return

  predicate Enabled(s: State, a: Action) {
    match a
    case Arrive(c) => c !in s.arrived
    case Select => s.server.Selecting?
    case Accept => s.server.Ready? && s.backlog != []
    case Count => s.server.Accepted?
    case Spawn => s.server.Counted?
    case Tick => s.server.Ticking?
    case Receive(c, _) => c in s.receiving
    case Finish(c) => c in s.receiving
    case Begin => !s.snapshot.Waiting?
    case Return => s.snapshot.Waiting? && MayReturn(s.counters, s.snapshot.target)
  }

  /** One step of one thread; a snapshot waits for `ticks` generations. */
  function Do(s: State, a: Action, ticks: nat): State
    requires Enabled(s, a)
  {
    match a
    case Arrive(c) => s.(arrived := s.arrived + {c}, backlog := s.backlog + [c])
    case Select => s.(server := if s.backlog != [] then Ready else Ticking)
    case Accept => s.(server := Accepted(s.backlog[0]), backlog := s.backlog[1..])
    case Count => s.(server := Counted(s.server.c), counters := CountRequest(s.counters))
    case Spawn => s.(server := Ticking, receiving := s.receiving[s.server.c := 0])
    case Tick => s.(server := Selecting, counters := ServiceActions(s.counters))
    case Receive(c, n) => s.(receiving := s.receiving[c := s.receiving[c] + n])
    case Finish(c) =>
      s.(receiving := s.receiving - {c},
         finished := s.finished + [Done(c, s.receiving[c])],
         counters := FinishHandler(s.counters, s.receiving[c]))
    case Begin => s.(snapshot := Waiting(s.counters.generation + ticks))
    case Return => s.(snapshot := Returned(s.counters.connections, s.counters.bytes))
  }

  const INITIAL := State({}, [], Selecting, Counters(0, 0, 0, 0), map[], [], Idle)

  /** The states of a run: each action is taken in the state before it. */
  ghost predicate IsRun(states: seq<State>, actions: seq<Action>, ticks: nat) {
    && |states| == |actions| + 1
    && states[0] == INITIAL
    && forall i :: 0 <= i < |actions| ==> Follows(states[i], actions[i], states[i + 1], ticks)
  }

  predicate Follows(s: State, a: Action, t: State, ticks: nat) {
    Enabled(s, a) && t == Do(s, a, ticks)
  }

  // ---------------------------------------------------------------- conservation

  function TotalReceived(done: seq<Done>): nat {
    if done == [] then 0 else TotalReceived(done[..|done| - 1]) + done[|done| - 1].received
  }

  function Elements(s: seq<Conn>): set<Conn> {
    set c | c in s
  }

  lemma ElementsAppend(s: seq<Conn>, c: Conn)
    ensures Elements(s + [c]) == Elements(s) + {c}
  {
  }

  function Finished(done: seq<Done>): set<Conn> {
    set d | d in done :: d.c
  }

  function Held(s: Server): set<Conn> {
    if s.Accepted? || s.Counted? then {s.c} else {}
  }

  function Uncounted(s: State): nat {
    if s.server.Counted? then 1 else 0
  }

  /**
    In every reachable state the counters account for every connection and octet:
    active is accepted minus finished, bytes is what finished handlers received, and
    every connection that arrived is in exactly one place.
   */
  ghost predicate Conserved(s: State) {
    Accounted(s) && Placed(s)
  }

  ghost predicate Placed(s: State) {
    && Elements(s.backlog) + Held(s.server) + s.receiving.Keys + Finished(s.finished) == s.arrived
    && (forall i, j :: 0 <= i < j < |s.backlog| ==> s.backlog[i] != s.backlog[j])
    && (forall c :: c in s.backlog ==> c !in Held(s.server) && c !in s.receiving && c !in Finished(s.finished))
    && (forall c :: c in Held(s.server) ==> c !in s.receiving && c !in Finished(s.finished))
    && (forall c :: c in s.receiving ==> c !in Finished(s.finished))
  }

  lemma MapSizes(m: map<Conn, nat>, c: Conn, n: nat)
    ensures |m[c := n]| == if c in m then |m| else |m| + 1
    ensures |m - {c}| == if c in m then |m| - 1 else |m|
  {
    assert m[c := n].Keys == m.Keys + {c};
    assert (m - {c}).Keys == m.Keys - {c};
  }

  predicate Accounted(s: State) {
    && s.counters.connections == |s.finished| + |s.receiving| + Uncounted(s)
    && s.counters.active == s.counters.connections - |s.finished|
    && s.counters.bytes == TotalReceived(s.finished)
  }

  lemma AccountedStep(s: State, a: Action, ticks: nat)
    requires Accounted(s) && Enabled(s, a) && (s.server.Counted? ==> s.server.c !in s.receiving)
    ensures Accounted(Do(s, a, ticks))
  {
    match a
    case Spawn => MapSizes(s.receiving, s.server.c, 0);
    case Receive(c, n) => MapSizes(s.receiving, c, s.receiving[c] + n);
    case Finish(c) =>
      MapSizes(s.receiving, c, 0);
      var done := s.finished + [Done(c, s.receiving[c])];
      assert done[..|s.finished|] == s.finished;
    case _ =>
  }

  lemma FinishedAppend(done: seq<Done>, d: Done)
    ensures Finished(done + [d]) == Finished(done) + {d.c}
  {
    assert d in done + [d];
    forall e | e in done ensures e in done + [d] { }
  }

  lemma PlacedStep(s: State, a: Action, ticks: nat)
    requires Placed(s) && Enabled(s, a)
    ensures Placed(Do(s, a, ticks))
  {
    match a
    case Finish(c) =>
      hide Held, Elements;
      FinishedAppend(s.finished, Done(c, s.receiving[c]));
    case Accept =>
      hide Finished;
      assert s.backlog == [s.backlog[0]] + s.backlog[1..];
    case Arrive(c) =>
      hide Finished, Held;
      ElementsAppend(s.backlog, c);
    case _ =>
      hide Finished, Elements;
  }

  lemma {:induction false} RunConserves(states: seq<State>, actions: seq<Action>, ticks: nat, n: nat)
    requires IsRun(states, actions, ticks) && n < |states|
    ensures Conserved(states[n])
  {
    hide Placed, Accounted, Do;
    if n == 0 {
      InitialConserved();
    } else {
      RunConserves(states, actions, ticks, n - 1);
      assert Follows(states[n - 1], actions[n - 1], states[n], ticks);
      HeldApart(states[n - 1]);
      AccountedStep(states[n - 1], actions[n - 1], ticks);
      PlacedStep(states[n - 1], actions[n - 1], ticks);
    }
  }

  lemma HeldApart(s: State)
    requires Placed(s)
    ensures s.server.Counted? ==> s.server.c !in s.receiving
  {
    assert s.server.Counted? ==> s.server.c in Held(s.server);
  }

  lemma InitialConserved()
    ensures Conserved(INITIAL)
  {
  }

  /** The octets that steps of a run receive for the connections in `cs`. */
  function OctetsFor(actions: seq<Action>, cs: set<Conn>): nat {
    if actions == [] then 0
    else
      var a := actions[|actions| - 1];
      OctetsFor(actions[..|actions| - 1], cs) + if a.Receive? && a.c in cs then a.octets else 0
  }

  /** All octets that the steps of a run receive. */
  function Octets(actions: seq<Action>): nat {
    if actions == [] then 0
    else
      var a := actions[|actions| - 1];
      Octets(actions[..|actions| - 1]) + if a.Receive? then a.octets else 0
  }

  lemma {:induction false} OctetsSplit(actions: seq<Action>, cs: set<Conn>, c: Conn)
    requires c !in cs
    ensures OctetsFor(actions, cs + {c}) == OctetsFor(actions, cs) + OctetsFor(actions, {c})
  {
    if actions != [] {
      OctetsSplit(actions[..|actions| - 1], cs, c);
    }
  }

  lemma {:induction false} OctetsAll(actions: seq<Action>, cs: set<Conn>)
    requires forall a :: a in actions && a.Receive? ==> a.c in cs
    ensures OctetsFor(actions, cs) == Octets(actions)
  {
    if actions != [] {
      OctetsAll(actions[..|actions| - 1], cs);
    }
  }

  /** What each connection has received so far: `receiving` while it is handled, and the total of the finished ones. */
  ghost predicate Tallied(s: State, actions: seq<Action>) {
    && (forall c :: c in s.receiving ==> s.receiving[c] == OctetsFor(actions, {c}))
    && (forall c :: c !in s.receiving && c !in Finished(s.finished) ==> OctetsFor(actions, {c}) == 0)
    && TotalReceived(s.finished) == OctetsFor(actions, Finished(s.finished))
    && (forall a :: a in actions && a.Receive? ==> a.c in s.receiving || a.c in Finished(s.finished))
  }

  lemma OctetsNext(actions: seq<Action>, a: Action, cs: set<Conn>)
    ensures OctetsFor(actions + [a], cs) == OctetsFor(actions, cs) + if a.Receive? && a.c in cs then a.octets else 0
  {
    assert (actions + [a])[..|actions|] == actions;
  }

  lemma TalliedStep(s: State, actions: seq<Action>, a: Action, ticks: nat)
    requires Tallied(s, actions) && Placed(s) && Enabled(s, a)
    ensures Tallied(Do(s, a, ticks), actions + [a])
  {
    hide OctetsFor, Placed, Elements, Finished, Held;
    var t := Do(s, a, ticks);
    forall cs ensures OctetsFor(actions + [a], cs)
      == OctetsFor(actions, cs) + if a.Receive? && a.c in cs then a.octets else 0
    {
      OctetsNext(actions, a, cs);
    }
    PlacedApart(s);
    match a
    case Finish(c) =>
      var d := Done(c, s.receiving[c]);
      FinishedAppend(s.finished, d);
      OctetsSplit(actions, Finished(s.finished), c);
      assert (s.finished + [d])[..|s.finished|] == s.finished;
    case _ =>
  }

  lemma PlacedApart(s: State)
    requires Placed(s)
    ensures s.server.Counted? ==> s.server.c !in s.receiving && s.server.c !in Finished(s.finished)
    ensures forall c :: c in s.receiving ==> c !in Finished(s.finished)
  {
    assert s.server.Counted? ==> s.server.c in Held(s.server);
  }

  lemma {:induction false} RunTallied(states: seq<State>, actions: seq<Action>, ticks: nat, n: nat)
    requires IsRun(states, actions, ticks) && n < |states|
    ensures Tallied(states[n], actions[..n])
  {
    hide Placed, Do, Tallied;
    if n == 0 {
      NothingTallied();
    } else {
      RunTallied(states, actions, ticks, n - 1);
      RunConserves(states, actions, ticks, n - 1);
      assert Follows(states[n - 1], actions[n - 1], states[n], ticks);
      TalliedStep(states[n - 1], actions[..n - 1], actions[n - 1], ticks);
      assert actions[..n] == actions[..n - 1] + [actions[n - 1]];
    }
  }

  lemma NothingTallied()
    ensures Tallied(INITIAL, [])
  {
  }

  /** A snapshot that returns counts only finished connections, and all their octets. */
  lemma SnapshotAccounts(states: seq<State>, actions: seq<Action>, ticks: nat, j: nat)
    requires IsRun(states, actions, ticks) && j < |actions| && actions[j] == Return
    ensures states[j + 1].snapshot
         == Returned(|states[j + 1].finished|, TotalReceived(states[j + 1].finished))
    ensures states[j + 1].receiving == map[] && !states[j + 1].server.Counted?
  {
    hide Placed, TotalReceived;
    RunConserves(states, actions, ticks, j);
    assert Follows(states[j], actions[j], states[j + 1], ticks);
  }

  /** The octets of a returned snapshot are all that any handler had received. */
  lemma SnapshotOctets(states: seq<State>, actions: seq<Action>, ticks: nat, j: nat)
    requires IsRun(states, actions, ticks) && j < |actions| && actions[j] == Return
    ensures states[j + 1].snapshot.Returned? && states[j + 1].snapshot.bytes == Octets(actions[..j])
  {
    hide Octets, OctetsFor, TotalReceived, Placed;
    SnapshotAccounts(states, actions, ticks, j);
    RunTallied(states, actions, ticks, j);
    assert Follows(states[j], actions[j], states[j + 1], ticks);
    OctetsAll(actions[..j], Finished(states[j].finished));
  }

  // ---------------------------------------------------------------- soundness of snapshots

  /** Steps `i` and `j` begin and end one snapshot call. */
  ghost predicate Call(actions: seq<Action>, i: nat, j: nat) {
    && i < j < |actions|
    && actions[i] == Begin && actions[j] == Return
    && forall k :: i < k < j ==> actions[k] != Begin && actions[k] != Return
  }

  /** Connection `c` waits to be accepted with at most `m` before it. */
  predicate Queued(s: State, c: Conn, m: int) {
    exists q :: 0 <= q < |s.backlog| && q <= m && s.backlog[q] == c
  }

  /** Connection `c` waits to be accepted next, or has been accepted but not counted. */
  predicate Next(s: State, c: Conn) {
    (s.backlog != [] && s.backlog[0] == c) || s.server == Accepted(c)
  }

  predicate Seen(s: State, c: Conn) {
    s.server == Counted(c) || c in s.receiving || c in Finished(s.finished)
  }

  /**
    While a snapshot begun at generation `g` waits, a connection it found behind at most
    `m` others is counted, or each generation has brought it one place forward; within a
    generation the server has yet to poll.
   */
  predicate Tracked(s: State, c: Conn, g: nat, m: nat) {
    var n := g + m - s.counters.generation;
    || Seen(s, c)
    || (s.server == Accepted(c) && 0 <= n + 1)
    || (0 <= n && Queued(s, c, n))
    || ((s.server == Selecting || s.server == Ready) && Queued(s, c, n + 1))
  }

  lemma QueuedStep(s: State, a: Action, ticks: nat, c: Conn, n: int)
    requires Enabled(s, a) && Queued(s, c, n)
    ensures !a.Accept? ==> Queued(Do(s, a, ticks), c, n)
    ensures a.Accept? ==> s.backlog[0] == c || Queued(Do(s, a, ticks), c, n - 1)
  {
    var t := Do(s, a, ticks);
    var q :| 0 <= q < |s.backlog| && q <= n && s.backlog[q] == c;
    if a.Accept? {
      if q > 0 {
        assert t.backlog[q - 1] == c;
      }
    } else {
      assert t.backlog[q] == c;
    }
  }

  lemma QueuedMore(s: State, c: Conn, n: int, m: int)
    requires Queued(s, c, n) && n <= m
    ensures Queued(s, c, m)
  {
  }

  lemma TrackedStep(s: State, a: Action, ticks: nat, c: Conn, g: nat, m: nat)
    requires Tracked(s, c, g, m) && Enabled(s, a)
    ensures Tracked(Do(s, a, ticks), c, g, m)
  {
    hide Queued;
    var n := g + m - s.counters.generation;
    if Seen(s, c) {
      SeenStep(s, a, ticks, c);
    } else if s.server != Accepted(c) {
      var place := if 0 <= n && Queued(s, c, n) then n else n + 1;
      QueuedStep(s, a, ticks, c, place);
      PlaceIsNatural(s, c, place);
      var t := Do(s, a, ticks);
      if a.Accept? && s.backlog[0] != c {
        QueuedMore(t, c, place - 1, n);
        PlaceIsNatural(t, c, place - 1);
      }
    }
  }

  lemma PlaceIsNatural(s: State, c: Conn, n: int)
    requires Queued(s, c, n)
    ensures 0 <= n
  {
  }

  lemma SeenStep(s: State, a: Action, ticks: nat, c: Conn)
    requires Seen(s, c) && Enabled(s, a)
    ensures Seen(Do(s, a, ticks), c)
  {
    match a
    case Finish(d) => FinishedAppend(s.finished, Done(d, s.receiving[d]));
    case _ =>
  }

  lemma {:induction false} TrackedUntil(
      states: seq<State>, actions: seq<Action>, ticks: nat, i: nat, k: nat, c: Conn, m: nat)
    requires IsRun(states, actions, ticks) && i < k < |states|
    requires actions[i] == Begin && (Queued(states[i], c, m) || Next(states[i], c) || Seen(states[i], c))
    requires forall n :: i < n < k ==> actions[n] != Begin && actions[n] != Return
    ensures Tracked(states[k], c, states[i].counters.generation, m)
    ensures states[k].snapshot == Waiting(states[i].counters.generation + ticks)
    decreases k
  {
    hide Seen, Tracked, Queued;
    assert Follows(states[k - 1], actions[k - 1], states[k], ticks);
    if k == i + 1 {
      BeginTracks(states[i], ticks, c, m);
    } else {
      TrackedUntil(states, actions, ticks, i, k - 1, c, m);
      TrackedStep(states[k - 1], actions[k - 1], ticks, c, states[i].counters.generation, m);
    }
  }

  lemma BeginTracks(s: State, ticks: nat, c: Conn, m: nat)
    requires Enabled(s, Begin) && (Queued(s, c, m) || Next(s, c) || Seen(s, c))
    ensures Tracked(Do(s, Begin, ticks), c, s.counters.generation, m)
  {
    var t := Do(s, Begin, ticks);
    assert t.backlog == s.backlog;
    if Next(s, c) && s.server != Accepted(c) {
      assert s.backlog[0] == c;
    }
    assert Queued(s, c, m) ==> Queued(t, c, m);
  }

  /** With `m + 2` ticks, whatever had at most `m` before it when a snapshot began is handled when it returns. */
  lemma QueuedIsHandled(states: seq<State>, actions: seq<Action>, ticks: nat, i: nat, j: nat, c: Conn, m: nat)
    requires IsRun(states, actions, ticks) && Call(actions, i, j) && ticks >= m + 2
    requires Queued(states[i], c, m) || Next(states[i], c) || Seen(states[i], c)
    ensures c in Finished(states[j + 1].finished)
  {
    TrackedUntil(states, actions, ticks, i, j, c, m);
    assert Follows(states[j], actions[j], states[j + 1], ticks);
    SnapshotAccounts(states, actions, ticks, j);
  }

  /** With two ticks, whatever was next in line when a snapshot began is handled when it returns. */
  lemma NextIsHandled(states: seq<State>, actions: seq<Action>, ticks: nat, i: nat, j: nat, c: Conn)
    requires IsRun(states, actions, ticks) && Call(actions, i, j) && ticks >= 2
    requires Next(states[i], c) || Seen(states[i], c)
    ensures c in Finished(states[j + 1].finished)
  {
    QueuedIsHandled(states, actions, ticks, i, j, c, 0);
  }

  /** In every run, the first connection in the backlog when a snapshot begins is handled when it returns. */
  ghost predicate Sound(ticks: nat) {
    forall states: seq<State>, actions: seq<Action>, i: nat, j: nat ::
      IsRun(states, actions, ticks) && Call(actions, i, j) && states[i].backlog != [] ==>
        states[i].backlog[0] in Finished(states[j + 1].finished)
  }

  /** The run that shows one tick is too few: the connection arrives after the poll, before the tick. */
  lemma OneTickMisses(ticks: nat)
    requires ticks <= 1
    ensures !Sound(ticks)
  {
    var actions := [Select, Arrive(0), Begin, Tick, Return];
    var s1 := INITIAL.(server := Ticking);
    var s2 := s1.(arrived := {0}, backlog := [0]);
    var s3 := s2.(snapshot := Waiting(ticks));
    var s4 := s3.(server := Selecting, counters := Counters(0, 0, 0, 1));
    var s5 := s4.(snapshot := Returned(0, 0));
    var states := [INITIAL, s1, s2, s3, s4, s5];
    assert Follows(INITIAL, actions[0], s1, ticks);
    assert Follows(s1, actions[1], s2, ticks) by { assert {} + {0} == {0} && [] + [0] == [0]; }
    assert Follows(s2, actions[2], s3, ticks);
    assert Follows(s3, actions[3], s4, ticks);
    assert Follows(s4, actions[4], s5, ticks);
    hide Follows;
    assert IsRun(states, actions, ticks);
    assert Call(actions, 2, 4);
    assert states[2].backlog[0] !in Finished(states[5].finished);
  }

  /** Waiting two ticks is enough, and fewer are not. */
  lemma SoundIffTwoTicks(ticks: nat)
    ensures Sound(ticks) <==> ticks >= 2
  {
    if ticks >= 2 {
      forall states: seq<State>, actions: seq<Action>, i: nat, j: nat
        | IsRun(states, actions, ticks) && Call(actions, i, j) && states[i].backlog != []
        ensures states[i].backlog[0] in Finished(states[j + 1].finished)
      {
        NextIsHandled(states, actions, ticks, i, j, states[i].backlog[0]);
      }
    } else {
      OneTickMisses(ticks);
    }
  }

  // ---------------------------------------------------------------- how many a snapshot waits for

  /** In every run, the `n`-th connection in the backlog when a snapshot begins is handled when it returns. */
  ghost predicate SoundFor(ticks: nat, n: nat)
    requires n > 0
  {
    forall states: seq<State>, actions: seq<Action>, i: nat, j: nat ::
      IsRun(states, actions, ticks) && Call(actions, i, j) && n <= |states[i].backlog| ==>
        states[i].backlog[n - 1] in Finished(states[j + 1].finished)
  }

  function Numbers(from: nat, to: nat): (r: seq<Conn>)
    requires from <= to
    ensures |r| == to - from
  {
    seq(to - from, k requires 0 <= k < to - from => from + k)
  }

  function Silent(n: nat): (r: seq<Done>)
    ensures |r| == n
  {
    seq(n, k requires 0 <= k < n => Done(k, 0))
  }

  lemma NotAmongSilent(n: nat, c: Conn)
    requires n <= c
    ensures c !in Finished(Silent(n))
  {
  }

  lemma Extend(states: seq<State>, actions: seq<Action>, ticks: nat, a: Action, t: State)
    requires IsRun(states, actions, ticks) && Follows(states[|actions|], a, t, ticks)
    ensures IsRun(states + [t], actions + [a], ticks)
  {
    hide Follows;
    var (ss, aa) := (states + [t], actions + [a]);
    forall i | 0 <= i < |aa| ensures Follows(ss[i], aa[i], ss[i + 1], ticks) {
      if i < |actions| {
        assert Follows(states[i], actions[i], states[i + 1], ticks);
      }
    }
  }

  /** `n` connections have arrived behind a poll that found none. */
  function Crowded(n: nat): State {
    INITIAL.(server := Ticking, arrived := Elements(Numbers(0, n)), backlog := Numbers(0, n))
  }

  lemma {:induction false} Crowd(ticks: nat, n: nat) returns (states: seq<State>, actions: seq<Action>)
    ensures IsRun(states, actions, ticks) && |actions| == n + 1 && states[n + 1] == Crowded(n)
  {
    if n == 0 {
      states, actions := [INITIAL, Crowded(0)], [Select];
      assert Follows(INITIAL, Select, Crowded(0), ticks);
    } else {
      states, actions := Crowd(ticks, n - 1);
      assert Numbers(0, n - 1) + [n - 1] == Numbers(0, n);
      ElementsAppend(Numbers(0, n - 1), n - 1);
      assert Follows(Crowded(n - 1), Arrive(n - 1), Crowded(n), ticks);
      hide Follows;
      Extend(states, actions, ticks, Arrive(n - 1), Crowded(n));
      states, actions := states + [Crowded(n)], actions + [Arrive(n - 1)];
    }
  }

  /** A snapshot waits, and the first `k` connections have been handled, one a generation. */
  function Handled(n: nat, k: nat, ticks: nat): State
    requires k <= n
  {
    Crowded(n).(server := Selecting, backlog := Numbers(k, n), counters := Counters(k, 0, 0, k + 1),
                finished := Silent(k), snapshot := Waiting(ticks))
  }

  lemma Round(n: nat, k: nat, ticks: nat) returns (a: State, b: State, c: State, d: State, e: State)
    requires k < n
    ensures Follows(Handled(n, k, ticks), Select, a, ticks) && Follows(a, Accept, b, ticks)
    ensures Follows(b, Count, c, ticks) && Follows(c, Spawn, d, ticks) && Follows(d, Finish(k), e, ticks)
    ensures Follows(e, Tick, Handled(n, k + 1, ticks), ticks)
  {
    var s := Handled(n, k, ticks);
    assert s.backlog[0] == k && s.backlog[1..] == Numbers(k + 1, n);
    a := Do(s, Select, ticks);
    b := Do(a, Accept, ticks);
    c := Do(b, Count, ticks);
    d := Do(c, Spawn, ticks);
    e := Do(d, Finish(k), ticks);
    assert d.receiving - {k} == map[];
    assert Silent(k) + [Done(k, 0)] == Silent(k + 1);
  }

  /** The run in which a snapshot waits while the first `k` connections are handled. */
  lemma {:induction false} Rounds(ticks: nat, n: nat, k: nat) returns (states: seq<State>, actions: seq<Action>)
    requires k <= n
    ensures IsRun(states, actions, ticks) && |actions| > n + 2 && states[|actions|] == Handled(n, k, ticks)
    ensures actions[n + 1] == Begin && states[n + 1] == Crowded(n)
    ensures forall m :: n + 1 < m < |actions| ==> actions[m] != Begin && actions[m] != Return
  {
    hide Follows;
    if k == 0 {
      states, actions := Crowd(ticks, n);
      var s := Crowded(n).(snapshot := Waiting(ticks));
      Starts(n, ticks);
      Extend(states, actions, ticks, Begin, s);
      Extend(states + [s], actions + [Begin], ticks, Tick, Handled(n, 0, ticks));
      states, actions := states + [s] + [Handled(n, 0, ticks)], actions + [Begin] + [Tick];
    } else {
      states, actions := Rounds(ticks, n, k - 1);
      var a, b, c, d, e := Round(n, k - 1, ticks);
      Extend(states, actions, ticks, Select, a);
      Extend(states + [a], actions + [Select], ticks, Accept, b);
      states, actions := states + [a] + [b], actions + [Select] + [Accept];
      Extend(states, actions, ticks, Count, c);
      Extend(states + [c], actions + [Count], ticks, Spawn, d);
      states, actions := states + [c] + [d], actions + [Count] + [Spawn];
      Extend(states, actions, ticks, Finish(k - 1), e);
      Extend(states + [e], actions + [Finish(k - 1)], ticks, Tick, Handled(n, k, ticks));
      states, actions := states + [e] + [Handled(n, k, ticks)], actions + [Finish(k - 1)] + [Tick];
    }
  }

  lemma Starts(n: nat, ticks: nat)
    ensures Follows(Crowded(n), Begin, Crowded(n).(snapshot := Waiting(ticks)), ticks)
    ensures Follows(Crowded(n).(snapshot := Waiting(ticks)), Tick, Handled(n, 0, ticks), ticks)
  {
    assert Silent(0) == [];
  }

  /** With `n` ticks the `n`-th connection can be missed. */
  lemma TicksMiss(ticks: nat, n: nat)
    requires 0 < n && ticks <= n
    ensures !SoundFor(ticks, n)
  {
    hide Follows;
    var states, actions := Rounds(ticks, n, n - 1);
    var s := Handled(n, n - 1, ticks);
    var t := s.(snapshot := Returned(n - 1, 0));
    assert Follows(s, Return, t, ticks) by { Returns(n, ticks); }
    Extend(states, actions, ticks, Return, t);
    var (ss, aa) := (states + [t], actions + [Return]);
    assert Call(aa, n + 1, |actions|);
    assert ss[n + 1] == Crowded(n) && ss[|actions| + 1] == t;
    NotAmongSilent(n - 1, n - 1);
    assert ss[n + 1].backlog[n - 1] == n - 1;
  }

  lemma Returns(n: nat, ticks: nat)
    requires 0 < n && ticks <= n
    ensures var s := Handled(n, n - 1, ticks); Follows(s, Return, s.(snapshot := Returned(n - 1, 0)), ticks)
  {
  }

  /** A snapshot that waits for `n + 1` ticks handles the first `n` connections pending, and no fewer ticks do. */
  lemma SoundForIff(ticks: nat, n: nat)
    requires 0 < n
    ensures SoundFor(ticks, n) <==> ticks >= n + 1
  {
    if ticks >= n + 1 {
      forall states: seq<State>, actions: seq<Action>, i: nat, j: nat
        | IsRun(states, actions, ticks) && Call(actions, i, j) && n <= |states[i].backlog|
        ensures states[i].backlog[n - 1] in Finished(states[j + 1].finished)
      {
        QueuedIsHandled(states, actions, ticks, i, j, states[i].backlog[n - 1], n - 1);
      }
    } else {
      TicksMiss(ticks, n);
    }
  }

  /** What the tests rely on: a snapshot of zero connections means that none had arrived when it began. */
  lemma ZeroMeansNoneArrived(states: seq<State>, actions: seq<Action>, ticks: nat, i: nat, j: nat)
    requires IsRun(states, actions, ticks) && Call(actions, i, j) && ticks >= 2
    requires states[j + 1].snapshot.Returned? && states[j + 1].snapshot.connections == 0
    ensures states[i].arrived == {}
  {
    SnapshotAccounts(states, actions, ticks, j);
    RunConserves(states, actions, ticks, i);
    var s := states[i];
    if c :| c in s.arrived {
      var d := if c in s.backlog then s.backlog[0] else c;
      assert Next(s, d) || Seen(s, d);
      NextIsHandled(states, actions, ticks, i, j, d);
    }
  }

  lemma {:induction false} FinishedGrows(states: seq<State>, actions: seq<Action>, ticks: nat, m: nat, n: nat)
    requires IsRun(states, actions, ticks) && m <= n < |states|
    ensures states[m].finished <= states[n].finished
  {
    if m < n {
      FinishedGrows(states, actions, ticks, m, n - 1);
      assert Follows(states[n - 1], actions[n - 1], states[n], ticks);
    }
  }

  /**
    Two successive snapshots that count the same: whatever had arrived when the second
    began was already finished when the first returned.
   */
  lemma EqualSnapshots(states: seq<State>, actions: seq<Action>, ticks: nat, i: nat, j: nat, k: nat, l: nat)
    requires IsRun(states, actions, ticks) && Call(actions, i, j) && Call(actions, k, l) && j < k && ticks >= 2
    requires states[j + 1].snapshot == states[l + 1].snapshot
    ensures states[k].arrived == Finished(states[j + 1].finished)
  {
    hide IsRun, Follows, Seen, Next, Conserved, Finished, TotalReceived;
    SnapshotAccounts(states, actions, ticks, j);
    SnapshotAccounts(states, actions, ticks, l);
    RunLength(states, actions, ticks);
    FinishedGrows(states, actions, ticks, j + 1, k);
    FinishedGrows(states, actions, ticks, k, l + 1);
    SameLength(states[j + 1].finished, states[k].finished, states[l + 1].finished);
    RunConserves(states, actions, ticks, k);
    forall d | Next(states[k], d) || Seen(states[k], d) ensures d in Finished(states[k].finished) {
      NextIsHandled(states, actions, ticks, k, l, d);
    }
    AllFinished(states[k]);
  }

  lemma SameLength(a: seq<Done>, b: seq<Done>, c: seq<Done>)
    requires a <= b <= c && |a| == |c|
    ensures a == b == c
  {
  }

  lemma RunLength(states: seq<State>, actions: seq<Action>, ticks: nat)
    requires IsRun(states, actions, ticks)
    ensures |states| == |actions| + 1
  {
  }

  lemma FirstIsNext(s: State)
    ensures s.backlog != [] ==> Next(s, s.backlog[0]) && s.backlog[0] in s.backlog
  {
  }

  /** Where all that is next or seen is finished, everything is. */
  lemma AllFinished(s: State)
    requires Conserved(s) && forall d :: Next(s, d) || Seen(s, d) ==> d in Finished(s.finished)
    ensures s.arrived == Finished(s.finished)
  {
    hide Finished;
    FirstIsNext(s);
    assert Elements([]) == {};
    forall c | c in s.arrived ensures c in Finished(s.finished) {
      assert c !in s.backlog ==> Next(s, c) || Seen(s, c);
    }
  }
}
