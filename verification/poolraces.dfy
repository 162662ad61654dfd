/** How one machine of the pool comes to be leased twice: exactly when it is possible, and two runs
    in which it happens. */
module PoolRaces {
  import opened Options
  import opened Pool

  // ---------------------------------------------------------------- exactly when

  /** No machine is put into the queue any more. */
  ghost predicate NoEnqueue(events: seq<Event>) { forall e | e in events :: !e.Enqueue? }

  /** Some continuation without any further enqueueing leases a machine twice. */
  ghost predicate CanLeaseTwice(x: System) {
    exists events, y :: Leads(x, events, y) && NoEnqueue(events) && !OneLease(y.s)
  }

  lemma {:induction false} QuietRunKeepsInv(x: System, events: seq<Event>, y: System)
    requires Inv(x) && Leads(x, events, y) && NoEnqueue(events)
    ensures Inv(y)
    decreases |events|
  {
    hide Inv;
    if events != [] {
      assert events[0] in events && forall e | e in events[1..] :: e in events;
      StepKeepsInvIff(x, events[0]);
      QuietRunKeepsInv(Step(x, events[0]), events[1..], y);
    }
  }

  lemma {:induction false} FreshTaker(taken: set<Taker>) returns (t: Taker)
    ensures t !in taken && forall u | u in taken :: u < t
    decreases taken
  {
    if taken == {} {
      t := 0;
    } else {
      var u :| u in taken;
      var v := FreshTaker(taken - {u});
      t := if u < v then v else u + 1;
      forall w | w in taken ensures w < t {
        if w != u { assert w in taken - {u}; }
      }
    }
  }

  lemma {:induction false} LowestOf(idle: map<Name, int>, names: set<Name>) returns (n: Name)
    requires names != {} && names <= idle.Keys
    ensures n in names && forall m | m in names :: idle[n] <= idle[m]
    decreases names
  {
    var first :| first in names;
    var others := names - {first};
    n := first;
    if others != {} {
      var k := LowestOf(idle, others);
      if idle[k] < idle[first] { n := k; }
      forall m | m in names ensures idle[n] <= idle[m] {
        if m != first { assert m in others; }
      }
    } else {
      assert names == {first};
    }
  }

  ghost predicate Lowest(idle: map<Name, int>, n: Name) { n in idle && forall m | m in idle :: idle[n] <= idle[m] }

  /** x has been changed only by new takers popping machines. */
  ghost predicate PoppedMore(x: System, y: System) {
    && y.s.rows == x.s.rows && y.s.leases == x.s.leases
    && forall t | t in x.popped :: t in y.popped && y.popped[t] == x.popped[t]
  }

  /** Other takers pop what is in the queue before m. */
  lemma {:induction false} ReachFront(x: System, m: Name) returns (events: seq<Event>, y: System)
    requires m in x.s.idle
    ensures Leads(x, events, y) && NoEnqueue(events) && PoppedMore(x, y) && Lowest(y.s.idle, m)
    decreases x.s.idle.Keys
  {
    if Lowest(x.s.idle, m) {
      events, y := [], x;
    } else {
      var n := LowestOf(x.s.idle, x.s.idle.Keys);
      var t := FreshTaker(x.popped.Keys);
      var z := Step(x, Pop(t, n));
      assert n !in z.s.idle && n in x.s.idle && m in z.s.idle;
      var more;
      more, y := ReachFront(z, m);
      events := [Pop(t, n)] + more;
      assert events[1..] == more;
    }
  }

  /** A machine at the front of the queue is popped, found alive and leased. */
  lemma LeaseFront(x: System, m: Name) returns (events: seq<Event>, y: System)
    requires Lowest(x.s.idle, m) && x.s.Here(m)
    ensures Leads(x, events, y) && NoEnqueue(events) && y.s.Here(m) && y.s.leases == x.s.leases + [Lease(m, 0, false)]
    ensures y.s.Alive(m) && forall t | t in x.popped :: t in y.popped && y.popped[t] == x.popped[t]
  {
    var t := FreshTaker(x.popped.Keys);
    var a := Step(x, Record(m, IDLE));
    var b := Step(a, Pop(t, m));
    var c := Step(b, Keep(t));
    y := Step(c, Bind(t, 0));
    events := [] + [Record(m, IDLE)] + [Pop(t, m)] + [Keep(t)] + [Bind(t, 0)];
    hide Step, Enabled;
    LeadsMore(x, [], x, Record(m, IDLE));
    LeadsMore(x, [] + [Record(m, IDLE)], a, Pop(t, m));
    LeadsMore(x, [] + [Record(m, IDLE)] + [Pop(t, m)], b, Keep(t));
    LeadsMore(x, [] + [Record(m, IDLE)] + [Pop(t, m)] + [Keep(t)], c, Bind(t, 0));
  }

  /** A taker that has popped the machine leases it. */
  lemma LeasePopped(x: System, t: Taker, m: Name) returns (events: seq<Event>, y: System)
    requires t in x.popped && x.popped[t] == m && x.s.Here(m) && x.s.Alive(m)
    ensures Leads(x, events, y) && NoEnqueue(events) && y.s.leases == x.s.leases + [Lease(m, 1, false)]
  {
    var a := Step(x, Keep(t));
    y := Step(a, Bind(t, 1));
    events := [] + [Keep(t)] + [Bind(t, 1)];
    hide Step, Enabled;
    LeadsMore(x, [], x, Keep(t));
    LeadsMore(x, [] + [Keep(t)], a, Bind(t, 1));
  }

  lemma TwoOfOne(s: State, i: nat, j: nat)
    requires i < j < |s.leases| && s.leases[i].machine == s.leases[j].machine
    ensures !OneLease(s)
  {
  }

  /** A machine that is there and in the queue, and has been popped or leased as well, can be leased twice. */
  lemma QueuedTwice(x: System, m: Name)
    requires m in x.s.idle && x.s.Here(m) && (Taken(x, m) || Leased(x.s, m))
    ensures CanLeaseTwice(x)
  {
    hide Leads, OneLease, Step, Enabled;
    var toFront, a := ReachFront(x, m);
    var lease, b := LeaseFront(a, m);
    LeadsApp(x, toFront, a, lease, b);
    var n := |x.s.leases|;
    assert b.s.leases[n].machine == m;
    if Leased(x.s, m) {
      var i :| 0 <= i < n && x.s.leases[i].machine == m;
      assert b.s.leases[i] == x.s.leases[i];
      TwoOfOne(b.s, i, n);
    } else {
      var t :| t in x.popped && x.popped[t] == m;
      var again, c := LeasePopped(b, t, m);
      LeadsApp(x, toFront + lease, b, again, c);
      assert c.s.leases[n] == b.s.leases[n] && c.s.leases[n + 1].machine == m;
      TwoOfOne(c.s, n, n + 1);
    }
  }

  /** In every run without a harmful step so far, an enqueueing is harmful exactly
      when, without any other enqueueing, it can lead to a machine leased twice. */
  lemma HarmfulIffLeasesTwice(events: seq<Event>, x: System, e: Event)
    requires Leads(EMPTY, events, x) && Harmless(EMPTY, events) && Enabled(x, e) && e.Enqueue?
    ensures Harmful(x, e) <==> CanLeaseTwice(Step(x, e))
  {
    hide Harmless;
    EmptyIsSound();
    RunIsSoundIff(EMPTY, events, x);
    var z := Step(x, e);
    StepKeepsInvIff(x, e);
    if Harmful(x, e) {
      QueuedTwice(z, x.pending[e.task]);
    } else if CanLeaseTwice(z) {
      var more, y :| Leads(z, more, y) && NoEnqueue(more) && !OneLease(y.s);
      QuietRunKeepsInv(z, more, y);
    }
  }

  // ---------------------------------------------------------------- two runs that lease a machine twice

  /** A pool with one machine: whether its record is there, its place in the queue,
      who has popped and kept it, and the tasks that will enqueue it. */
  ghost function Only(row: Row, m: Name, leases: seq<Lease>, record: bool, idle: map<Name, int>,
                      popped: map<Taker, Name>, kept: set<Taker>, pending: map<Task, Name>): System
  {
    System(State(map[m := row], leases, if record then map[m := IDLE] else map[], idle), popped, kept, pending, {})
  }

  const WAITS := Row(IDLE, None, false)

  lemma OnlyPop(m: Name, record: bool, score: int, popped: map<Taker, Name>, kept: set<Taker>,
          pending: map<Task, Name>, t: Taker)
    requires t !in popped && t !in kept
    ensures var x := Only(WAITS, m, [], record, map[m := score], popped, kept, pending);
      Enabled(x, Pop(t, m)) && Step(x, Pop(t, m)) == Only(WAITS, m, [], record, map[], popped[t := m], kept, pending)
  {
    assert map[m := score] - {m} == map[];
    assert kept - {t} == kept;
  }

  lemma OnlyKeep(m: Name, idle: map<Name, int>, popped: map<Taker, Name>, kept: set<Taker>, pending: map<Task, Name>,
          t: Taker)
    requires t in popped && popped[t] == m
    ensures var x := Only(WAITS, m, [], true, idle, popped, kept, pending);
      Enabled(x, Keep(t)) && Step(x, Keep(t)) == Only(WAITS, m, [], true, idle, popped, kept + {t}, pending)
  {
  }

  /** The record is written; the row is read and found idle; the machine is enqueued. */
  lemma OnlyRevives(m: Name, record: bool, idle: map<Name, int>, popped: map<Taker, Name>, kept: set<Taker>, k: Task,
          now: int)
    ensures var x := Only(WAITS, m, [], record, idle, popped, kept, map[]);
      Enabled(x, ReadRow(k, m)) && Step(x, ReadRow(k, m)) == Only(WAITS, m, [], record, idle, popped, kept, map[k := m])
    ensures var x := Only(WAITS, m, [], record, idle, popped, kept, map[k := m]);
      && Enabled(x, Record(m, IDLE))
      && Step(x, Record(m, IDLE)) == Only(WAITS, m, [], true, idle, popped, kept, map[k := m])
      && Enabled(x, Enqueue(k, now))
      && Step(x, Enqueue(k, now)) == Only(WAITS, m, [], record, idle[m := now], popped, kept, map[])
  {
    var pending: map<Task, Name> := map[];
    assert pending[k := m] == map[k := m] && map[k := m] - {k} == pending;
    var none: map<Name, MachineState> := map[];
    assert none[m := IDLE] == map[m := IDLE] && map[m := IDLE][m := IDLE] == map[m := IDLE];
  }

  lemma OnlyBind(m: Name, row: Row, leases: seq<Lease>, popped: map<Taker, Name>, kept: set<Taker>, t: Taker,
          user: User)
    requires t in popped && popped[t] == m && t in kept && !row.gone
    ensures var x := Only(row, m, leases, true, map[], popped, kept, map[]);
      && Enabled(x, Bind(t, user))
      && Step(x, Bind(t, user)) == Only(Row(LEASED, Some(user), false), m, leases + [Lease(m, user, false)], true,
                                        map[], popped - {t}, kept - {t}, map[])
  {
    assert map[m := row][m := Row(LEASED, Some(user), false)] == map[m := Row(LEASED, Some(user), false)];
  }

  /** A machine is registered, and its record expires while it waits. */
  ghost function Expired(m: Name): seq<Event> { [Insert(0, m), Record(m, IDLE), Enqueue(0, 0), Expire(m)] }

  lemma ExpiredLeads(m: Name, run: seq<Event>)
    requires Expired(m) <= run
    ensures Leads(EMPTY, run[..4], Only(WAITS, m, [], false, map[m := 0], map[], {}, map[]))
  {
    assert Expired(m) == run[..4];
    assert run[0] == Insert(0, m) && run[1] == Record(m, IDLE) && run[2] == Enqueue(0, 0) && run[3] == Expire(m);
    assert run[..0] == [];
    var a := Only(WAITS, m, [], false, map[], map[], {}, map[0 := m]);
    var b := Only(WAITS, m, [], true, map[], map[], {}, map[0 := m]);
    var c := Only(WAITS, m, [], true, map[m := 0], map[], {}, map[]);
    assert Step(EMPTY, run[0]) == a;
    OnlyRevives(m, false, map[], map[], {}, 0, 0);
    OnlyRevives(m, true, map[], map[], {}, 0, 0);
    assert Step(c, run[3]) == Only(WAITS, m, [], false, map[m := 0], map[], {}, map[])
      by { assert map[m := IDLE] - {m} == map[]; }
    hide Step, Only;
    LeadsOne(EMPTY, run, 0, EMPTY, a);
    LeadsOne(EMPTY, run, 1, a, b);
    LeadsOne(EMPTY, run, 2, b, c);
    LeadsOne(EMPTY, run, 3, c, Only(WAITS, m, [], false, map[m := 0], map[], {}, map[]));
  }

  /** One taker has kept the machine, and it is in the queue: another pops and keeps it too, and both bind. */
  ghost function BothBind(m: Name): seq<Event> { [Pop(1, m), Keep(1), Bind(0, 10), Bind(1, 11)] }

  /** Two open leases of one machine. */
  ghost function Twice(m: Name): System {
    Only(Row(LEASED, Some(11), false), m, [Lease(m, 10, false), Lease(m, 11, false)], true, map[], map[], {}, map[])
  }

  lemma BothBindLeads(m: Name, run: seq<Event>)
    requires |run| == 13 && run[9..] == BothBind(m)
    requires Leads(EMPTY, run[..9], Only(WAITS, m, [], true, map[m := 1], map[0 := m], {0}, map[]))
    ensures Leads(EMPTY, run, Twice(m))
  {
    hide Step, Enabled, Only, Leads;
    assert run[9] == run[9..][0] && run[10] == run[9..][1] && run[11] == run[9..][2] && run[12] == run[9..][3];
    var both, one: map<Taker, Name> := map[0 := m][1 := m], map[1 := m];
    assert both - {0} == one && one - {1} == map[] && {0} + {1} - {0} == {1} && {1} - {1} == {};
    var b, c :=
      Only(WAITS, m, [], true, map[], both, {0}, map[]), Only(WAITS, m, [], true, map[], both, {0} + {1}, map[]);
    var d := Only(Row(LEASED, Some(10), false), m, [] + [Lease(m, 10, false)], true, map[], one, {1}, map[]);
    OnlyPop(m, true, 1, map[0 := m], {0}, map[], 1);
    LeadsOne(EMPTY, run, 9, Only(WAITS, m, [], true, map[m := 1], map[0 := m], {0}, map[]), b);
    OnlyKeep(m, map[], both, {0}, map[], 1);
    LeadsOne(EMPTY, run, 10, b, c);
    OnlyBind(m, WAITS, [], both, {0} + {1}, 0, 10);
    LeadsOne(EMPTY, run, 11, c, d);
    OnlyBind(m, Row(LEASED, Some(10), false), [] + [Lease(m, 10, false)], one, {1}, 1, 11);
    assert [] + [Lease(m, 10, false)] + [Lease(m, 11, false)] == [Lease(m, 10, false), Lease(m, 11, false)];
    LeadsOne(EMPTY, run, 12, d, Twice(m));
    assert run[..13] == run;
  }

  /** The machine's heartbeat revives it; between the two writes of `revive` a taker
      pops it and finds it alive, and the second write puts it into the queue again. */
  ghost function LateRevive(m: Name): seq<Event> {
    Expired(m) + [ReadRow(1, m), Record(m, IDLE), Pop(0, m), Keep(0), Enqueue(1, 1)] + BothBind(m)
  }

  lemma LateReviveLeads(m: Name, run: seq<Event>)
    requires |run| == 13 && Leads(EMPTY, run[..4], Only(WAITS, m, [], false, map[m := 0], map[], {}, map[]))
    requires run[4] == ReadRow(1, m) && run[5] == Record(m, IDLE) && run[6] == Pop(0, m) && run[7] == Keep(0)
      && run[8] == Enqueue(1, 1)
    ensures Leads(EMPTY, run[..9], Only(WAITS, m, [], true, map[m := 1], map[0 := m], {0}, map[]))
  {
    hide Step, Enabled, Only, Leads;
    var none: map<Taker, Name> := map[];
    assert none[0 := m] == map[0 := m] && {} + {0} == {0};
    var a := Only(WAITS, m, [], false, map[m := 0], map[], {}, map[]);
    var b, c :=
      Only(WAITS, m, [], false, map[m := 0], map[], {}, map[1 := m]),
      Only(WAITS, m, [], true, map[m := 0], map[], {}, map[1 := m]);
    var d, e :=
      Only(WAITS, m, [], true, map[], map[0 := m], {}, map[1 := m]),
      Only(WAITS, m, [], true, map[], map[0 := m], {0}, map[1 := m]);
    OnlyRevives(m, false, map[m := 0], map[], {}, 1, 1);
    LeadsOne(EMPTY, run, 4, a, b);
    LeadsOne(EMPTY, run, 5, b, c);
    OnlyPop(m, true, 0, map[], {}, map[1 := m], 0);
    LeadsOne(EMPTY, run, 6, c, d);
    OnlyKeep(m, map[], map[0 := m], {}, map[1 := m], 0);
    LeadsOne(EMPTY, run, 7, d, e);
    OnlyRevives(m, true, map[], map[0 := m], {0}, 1, 1);
    LeadsOne(EMPTY, run, 8, e, Only(WAITS, m, [], true, map[m := 1], map[0 := m], {0}, map[]));
  }

  lemma LateReviveLeasesTwice(m: Name)
    ensures Leads(EMPTY, LateRevive(m), Twice(m)) && Twice(m).s.leases == [Lease(m, 10, false), Lease(m, 11, false)]
  {
    hide Step, Enabled, Leads;
    var run := LateRevive(m);
    assert run[9..] == BothBind(m);
    ExpiredLeads(m, run);
    LateReviveLeads(m, run);
    BothBindLeads(m, run);
  }

  /** `revive` is not interrupted here: a taker pops the machine whose record has
      expired, and before it asks whether the machine is alive, a heartbeat revives it. */
  ghost function PoppedExpired(m: Name): seq<Event> {
    Expired(m) + [Pop(0, m), ReadRow(1, m), Record(m, IDLE), Enqueue(1, 1), Keep(0)] + BothBind(m)
  }

  lemma PoppedExpiredLeads(m: Name, run: seq<Event>)
    requires |run| == 13 && Leads(EMPTY, run[..4], Only(WAITS, m, [], false, map[m := 0], map[], {}, map[]))
    requires run[4] == Pop(0, m) && run[5] == ReadRow(1, m) && run[6] == Record(m, IDLE) && run[7] == Enqueue(1, 1)
      && run[8] == Keep(0)
    ensures Leads(EMPTY, run[..9], Only(WAITS, m, [], true, map[m := 1], map[0 := m], {0}, map[]))
  {
    hide Step, Enabled, Only, Leads;
    var none: map<Taker, Name> := map[];
    assert none[0 := m] == map[0 := m] && {} + {0} == {0};
    var a, b :=
      Only(WAITS, m, [], false, map[m := 0], map[], {}, map[]),
      Only(WAITS, m, [], false, map[], map[0 := m], {}, map[]);
    var c, d :=
      Only(WAITS, m, [], false, map[], map[0 := m], {}, map[1 := m]),
      Only(WAITS, m, [], true, map[], map[0 := m], {}, map[1 := m]);
    var e := Only(WAITS, m, [], true, map[m := 1], map[0 := m], {}, map[]);
    OnlyPop(m, false, 0, map[], {}, map[], 0);
    LeadsOne(EMPTY, run, 4, a, b);
    OnlyRevives(m, false, map[], map[0 := m], {}, 1, 1);
    LeadsOne(EMPTY, run, 5, b, c);
    LeadsOne(EMPTY, run, 6, c, d);
    OnlyRevives(m, true, map[], map[0 := m], {}, 1, 1);
    LeadsOne(EMPTY, run, 7, d, e);
    OnlyKeep(m, map[m := 1], map[0 := m], {}, map[], 0);
    LeadsOne(EMPTY, run, 8, e, Only(WAITS, m, [], true, map[m := 1], map[0 := m], {0}, map[]));
  }

  lemma PoppedExpiredLeasesTwice(m: Name)
    ensures Leads(EMPTY, PoppedExpired(m), Twice(m)) && Twice(m).s.leases == [Lease(m, 10, false), Lease(m, 11, false)]
  {
    hide Step, Enabled, Leads;
    var run := PoppedExpired(m);
    assert run[9..] == BothBind(m);
    ExpiredLeads(m, run);
    PoppedExpiredLeads(m, run);
    BothBindLeads(m, run);
  }
}
