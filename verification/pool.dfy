/** The machine pool of `pool/registry.py` and `pool/leases.py`: rows and leases
    in the database, machine records and the idle queue in Redis. */
module Pool {
  import opened Options

  type Name = string
  type User = int

  datatype MachineState = IDLE | LEASED | GONE

  /** A machine's row: it has a `gone_at` exactly when `gone`. */
  datatype Row = Row(state: MachineState, user: Option<User>, gone: bool)

  datatype Lease = Lease(machine: Name, user: User, released: bool)

  /** rows and leases are tables; records are the machine keys that have not
      expired; idle is the sorted set with its scores. */
  datatype State = State(rows: map<Name, Row>, leases: seq<Lease>, records: map<Name, MachineState>,
      idle: map<Name, int>)
  {
    predicate Alive(name: Name) { name in records && records[name] != GONE }

    predicate Here(name: Name) { name in rows && !rows[name].gone }

    /** `register`, under a name never used before. */
    function Register(name: Name, now: int): State {
      State(rows[name := Row(IDLE, None, false)], leases, records[name := IDLE], idle[name := now])
    }

    /** `revive`. */
    function Revive(name: Name, now: int): State {
      if !Here(name) then this
      else State(rows, leases, records[name := rows[name].state],
                 if rows[name].state == IDLE then idle[name := now] else idle)
    }

    /** `heartbeat`, which revives a machine whose record has expired. */
    function Heartbeat(name: Name, now: int): State { if name in records then this else Revive(name, now) }

    /** The row update of `forget`. */
    function MarkGone(name: Name): State {
      if Here(name) then this.(rows := rows[name := rows[name].(state := GONE, gone := true)]) else this
    }

    /** `forget`. */
    function Forget(name: Name): State { MarkGone(name).(records := records - {name}, idle := idle - {name}) }

    /** The transaction of `_bind`; nothing when the machine is not there any more. */
    function Assign(name: Name, user: User): State {
      if Here(name) then
        this.(rows := rows[name := Row(LEASED, Some(user), false)], leases := leases + [Lease(name, user, false)])
      else this
    }

    /** `_bind`, and the `mark` after it. */
    function Bind(name: Name, user: User): State {
      if Here(name) then Assign(name, user).(records := records[name := LEASED], idle := idle - {name}) else this
    }

    /** `_close_lease`: the latest open lease of the machine. */
    function CloseLease(name: Name): State { this.(leases := CloseLatest(leases, name)) }

    /** `_close_stray_leases`. */
    function CloseStray(): State {
      this.(leases := seq(|leases|, i requires 0 <= i < |leases| =>
        if leases[i].machine in rows && rows[leases[i].machine].gone then leases[i].(released := true) else leases[i]))
    }

    /** `destroy`. */
    function Destroy(name: Name): State { CloseLease(name).Forget(name) }
  }

  function CloseLatest(leases: seq<Lease>, name: Name): (r: seq<Lease>)
    ensures |r| == |leases|
    ensures forall i | 0 <= i < |r| ::
      r[i] == leases[i] || (leases[i].machine == name && r[i] == leases[i].(released := true))
  {
    if leases == [] then []
    else
      var n := |leases| - 1;
      if leases[n].machine == name && !leases[n].released then leases[..n] + [leases[n].(released := true)]
      else CloseLatest(leases[..n], name) + [leases[n]]
  }

  // ---------------------------------------------------------------- steps

  type Taker = nat

  /** A registration or a revival. */
  type Task = nat

  /** The pool; the machine each taker has popped and not yet bound, and which takers
      have found theirs alive; the machines that a registration or a revival is still
      going to put into the queue; and those whose lease `destroy` has closed and
      whose row is not yet gone. */
  datatype System = System(s: State, popped: map<Taker, Name>, kept: set<Taker>, pending: map<Task, Name>,
      doomed: set<Name>)

  /** One transaction, or one command on one key. */
  datatype Event =
    | Insert(task: Task, name: Name)
    | Record(name: Name, state: MachineState)
    | Expire(name: Name)
    | ReadRow(task: Task, name: Name)
    | Enqueue(task: Task, now: int)
    | Unqueue(name: Name)
    | Pop(taker: Taker, name: Name)
    | Keep(taker: Taker)
    | Drop(taker: Taker)
    | Bind(taker: Taker, user: User)
    | CloseLease(name: Name)
    | MarkGone(name: Name)
    | CloseStray

  ghost predicate Taken(x: System, name: Name) { exists t :: t in x.popped && x.popped[t] == name }

  /** When a step can happen: names are new, `zpopmin` takes a lowest score, and
      `alive` decides whether a popped machine is kept.  Records are written and
      vanish, and rows are marked gone, at any time. */
  ghost predicate Enabled(x: System, e: Event) {
    match e
    case Insert(task, name) => task !in x.pending && name !in x.s.rows
    case ReadRow(task, _) => task !in x.pending
    case Enqueue(task, _) => task in x.pending
    case Pop(taker, name) =>
      taker !in x.popped && name in x.s.idle && forall m | m in x.s.idle :: x.s.idle[name] <= x.s.idle[m]
    case Keep(taker) => taker in x.popped && x.s.Alive(x.popped[taker])
    case Drop(taker) => taker in x.popped && taker !in x.kept && !x.s.Alive(x.popped[taker])
    case Bind(taker, _) => taker in x.popped && taker in x.kept
    case _ => true
  }

  ghost function Step(x: System, e: Event): System
    requires Enabled(x, e)
  {
    match e
    case Insert(task, name) =>
      x.(s := x.s.(rows := x.s.rows[name := Row(IDLE, None, false)]), pending := x.pending[task := name])
    case Record(name, state) => x.(s := x.s.(records := x.s.records[name := state]))
    case Expire(name) => x.(s := x.s.(records := x.s.records - {name}))
    case ReadRow(task, name) =>
      if x.s.Here(name) && x.s.rows[name].state == IDLE then x.(pending := x.pending[task := name]) else x
    case Enqueue(task, now) => x.(s := x.s.(idle := x.s.idle[x.pending[task] := now]), pending := x.pending - {task})
    case Unqueue(name) => x.(s := x.s.(idle := x.s.idle - {name}))
    case Pop(taker, name) =>
      x.(s := x.s.(idle := x.s.idle - {name}), popped := x.popped[taker := name], kept := x.kept - {taker})
    case Keep(taker) => x.(kept := x.kept + {taker})
    case Drop(taker) => x.(popped := x.popped - {taker})
    case Bind(taker, user) =>
      x.(s := x.s.Assign(x.popped[taker], user), popped := x.popped - {taker}, kept := x.kept - {taker})
    case CloseLease(name) => x.(s := x.s.CloseLease(name), doomed := x.doomed + {name})
    case MarkGone(name) => x.(s := x.s.MarkGone(name), doomed := x.doomed - {name})
    case CloseStray => x.(s := x.s.CloseStray())
  }

  // ---------------------------------------------------------------- the invariant

  ghost predicate OneLease(s: State) {
    forall i, j | 0 <= i < j < |s.leases| :: s.leases[i].machine != s.leases[j].machine
  }

  ghost predicate OpenLease(s: State, name: Name) {
    exists i :: 0 <= i < |s.leases| && s.leases[i].machine == name && !s.leases[i].released
  }

  ghost predicate Leased(s: State, name: Name) { exists i :: 0 <= i < |s.leases| && s.leases[i].machine == name }

  /** A row is marked as gone as a whole. */
  ghost predicate Marked(s: State) { forall m | m in s.rows :: s.rows[m].gone <==> s.rows[m].state == GONE }

  /** What every run keeps: a lease is of a machine that is leased or gone; a leased
      machine has a lease, and has it open unless its destruction has begun. */
  ghost predicate Booked(x: System) {
    && Marked(x.s)
    && (forall i | 0 <= i < |x.s.leases| ::
          x.s.leases[i].machine in x.s.rows && x.s.rows[x.s.leases[i].machine].state != IDLE)
    && (forall m | m in x.s.rows && x.s.rows[m].state == LEASED :: Leased(x.s, m))
    && (forall m | m in x.s.rows && x.s.rows[m].state == LEASED && m !in x.doomed :: OpenLease(x.s, m))
  }

  /** Machines that wait, or have been popped, are not leased; and no machine that is
      there has been popped twice, or popped and is in the queue. */
  ghost predicate Queued(x: System) {
    && (forall m | m in x.s.idle :: m in x.s.rows && x.s.rows[m].state != LEASED)
    && (forall t | t in x.popped :: x.popped[t] in x.s.rows && x.s.rows[x.popped[t]].state != LEASED)
    && (forall t | t in x.popped && x.s.Here(x.popped[t]) :: x.popped[t] !in x.s.idle)
    && (forall t, u | t in x.popped && u in x.popped && x.popped[t] == x.popped[u] && x.s.Here(x.popped[t]) :: t == u)
    && (forall k | k in x.pending :: x.pending[k] in x.s.rows)
  }

  ghost predicate Inv(x: System) { Booked(x) && Queued(x) && OneLease(x.s) }

  /** A machine that is there is put into the queue although it has been popped, or
      even leased, since its row was read. */
  ghost predicate Harmful(x: System, e: Event) {
    && e.Enqueue? && e.task in x.pending
    && var m := x.pending[e.task];
       x.s.Here(m) && (Taken(x, m) || x.s.rows[m].state == LEASED)
  }

  lemma BookedBind(x: System, taker: Taker, user: User)
    requires Booked(x) && Enabled(x, Bind(taker, user))
    ensures Booked(Step(x, Bind(taker, user)))
  {
    var name, y := x.popped[taker], Step(x, Bind(taker, user));
    if x.s.Here(name) {
      var n := |x.s.leases|;
      assert y.s.leases[n] == Lease(name, user, false);
      forall m | m in y.s.rows && y.s.rows[m].state == LEASED && m != name
        ensures Leased(y.s, m) && (m !in y.doomed ==> OpenLease(y.s, m))
      {
        var i :| 0 <= i < n && x.s.leases[i].machine == m;
        assert y.s.leases[i] == x.s.leases[i];
        if m !in x.doomed {
          var j :| 0 <= j < n && x.s.leases[j].machine == m && !x.s.leases[j].released;
          assert y.s.leases[j] == x.s.leases[j];
        }
      }
    }
  }

  /** The leases of x and y agree, but some may have been closed; those of machines
      leased in y and not doomed have not. */
  lemma BookedClose(x: System, y: System)
    requires Booked(x) && Marked(y.s) && |y.s.leases| == |x.s.leases|
    requires forall i | 0 <= i < |x.s.leases| :: y.s.leases[i].machine == x.s.leases[i].machine
    requires forall m | m in x.s.rows :: m in y.s.rows && (x.s.rows[m].state != IDLE ==> y.s.rows[m].state != IDLE)
    requires forall m | m in y.s.rows && y.s.rows[m].state == LEASED :: m in x.s.rows && x.s.rows[m].state == LEASED
    requires forall i | 0 <= i < |x.s.leases| && y.s.leases[i] != x.s.leases[i] ::
      var m := x.s.leases[i].machine; m in y.doomed || (m in y.s.rows && y.s.rows[m].state != LEASED)
    requires forall m | m in x.doomed ::
      m in y.doomed || (m in y.s.rows && y.s.rows[m].state != LEASED) || m !in x.s.rows
    ensures Booked(y)
  {
    forall m | m in y.s.rows && y.s.rows[m].state == LEASED
      ensures Leased(y.s, m) && (m !in y.doomed ==> OpenLease(y.s, m))
    {
      var i :| 0 <= i < |x.s.leases| && x.s.leases[i].machine == m;
      assert y.s.leases[i].machine == m;
      if m !in y.doomed {
        var j :| 0 <= j < |x.s.leases| && x.s.leases[j].machine == m && !x.s.leases[j].released;
        assert y.s.leases[j] == x.s.leases[j];
      }
    }
  }

  lemma MarkedStep(x: System, e: Event)
    requires Marked(x.s) && Enabled(x, e)
    ensures Marked(Step(x, e).s)
  {
  }

  /** Every step keeps the books. */
  lemma BookedStep(x: System, e: Event)
    requires Booked(x) && Enabled(x, e)
    ensures Booked(Step(x, e))
  {
    hide OpenLease, Leased, Marked;
    MarkedStep(x, e);
    match e
    case Bind(taker, user) => BookedBind(x, taker, user);
    case _ => BookedClose(x, Step(x, e));
  }

  lemma QueuedMarkGone(x: System, name: Name)
    requires Queued(x)
    ensures Queued(Step(x, MarkGone(name)))
  {
  }

  lemma QueuedEnqueue(x: System, task: Task, now: int)
    requires Queued(x) && Marked(x.s) && task in x.pending
    ensures Queued(Step(x, Enqueue(task, now))) <==> !Harmful(x, Enqueue(task, now))
  {
    var y := Step(x, Enqueue(task, now));
    assert x.pending[task] in y.s.idle;
  }

  lemma QueuedPop(x: System, taker: Taker, name: Name)
    requires Queued(x) && Enabled(x, Pop(taker, name))
    ensures Queued(Step(x, Pop(taker, name)))
  {
  }

  lemma QueuedBind(x: System, taker: Taker, user: User)
    requires Queued(x) && Marked(x.s) && Enabled(x, Bind(taker, user))
    ensures Queued(Step(x, Bind(taker, user)))
  {
  }

  lemma QueuedOther(x: System, e: Event)
    requires Queued(x) && Enabled(x, e) && !e.Enqueue? && !e.Pop? && !e.Bind? && !e.MarkGone?
    ensures Queued(Step(x, e))
  {
  }

  lemma QueuedStep(x: System, e: Event)
    requires Queued(x) && Marked(x.s) && Enabled(x, e)
    ensures Queued(Step(x, e)) <==> !Harmful(x, e)
  {
    hide Queued, Marked;
    match e
    case Enqueue(task, now) => QueuedEnqueue(x, task, now);
    case Pop(taker, name) => QueuedPop(x, taker, name);
    case Bind(taker, user) => QueuedBind(x, taker, user);
    case MarkGone(name) => QueuedMarkGone(x, name);
    case _ => QueuedOther(x, e);
  }

  /** A machine that is popped and there has no lease yet. */
  lemma OneLeaseStep(x: System, e: Event)
    requires Inv(x) && Enabled(x, e)
    ensures OneLease(Step(x, e).s)
  {
    hide OpenLease, Leased;
  }

  /** Every step keeps the invariant, but for exactly the harmful ones. */
  lemma StepKeepsInvIff(x: System, e: Event)
    requires Inv(x) && Enabled(x, e)
    ensures Inv(Step(x, e)) <==> !Harmful(x, e)
  {
    OneLeaseStep(x, e);
    BookedStep(x, e);
    hide OneLease, OpenLease, Leased, Queued, Harmful;
    QueuedStep(x, e);
  }

  // ---------------------------------------------------------------- runs

  ghost predicate Leads(x: System, events: seq<Event>, y: System)
    decreases |events|
  {
    if events == [] then y == x else Enabled(x, events[0]) && Leads(Step(x, events[0]), events[1..], y)
  }

  lemma LeadsNowhere(x: System)
    ensures Leads(x, [], x)
  {
  }

  lemma {:induction false} LeadsApp(x: System, a: seq<Event>, y: System, b: seq<Event>, z: System)
    requires Leads(x, a, y) && Leads(y, b, z)
    ensures Leads(x, a + b, z)
    decreases |a|
  {
    hide Enabled, Step;
    if a == [] {
      assert a + b == b;
    } else {
      assert (a + b)[1..] == a[1..] + b;
      LeadsApp(Step(x, a[0]), a[1..], y, b, z);
    }
  }

  lemma LeadsMore(x: System, events: seq<Event>, y: System, e: Event)
    requires Leads(x, events, y) && Enabled(y, e)
    ensures Leads(x, events + [e], Step(y, e))
  {
    hide Enabled, Step;
    assert [e][1..] == [] && Leads(y, [e], Step(y, e));
    LeadsApp(x, events, y, [e], Step(y, e));
  }

  /** A run as far as its first k steps, and one more. */
  lemma {:induction false} LeadsOne(x: System, run: seq<Event>, k: nat, y: System, z: System)
    requires k < |run| && Leads(x, run[..k], y) && Enabled(y, run[k]) && Step(y, run[k]) == z
    ensures Leads(x, run[..k + 1], z)
    decreases k
  {
    hide Enabled, Step;
    if k == 0 {
      assert run[..1] == [run[0]] && run[..1][1..] == [];
    } else {
      assert run[1..][..k - 1] == run[..k][1..] && run[1..][..k] == run[..k + 1][1..];
      LeadsOne(Step(x, run[0]), run[1..], k - 1, y, z);
    }
  }

  const EMPTY := System(State(map[], [], map[], map[]), map[], {}, map[], {})

  /** No step of the run from x is harmful. */
  ghost predicate Harmless(x: System, events: seq<Event>)
    decreases |events|
  {
    events == [] || (Enabled(x, events[0]) && !Harmful(x, events[0]) && Harmless(Step(x, events[0]), events[1..]))
  }

  /** The invariant holds all along the run from x. */
  ghost predicate Sound(x: System, events: seq<Event>)
    decreases |events|
  {
    Inv(x) && (events == [] || (Enabled(x, events[0]) && Sound(Step(x, events[0]), events[1..])))
  }

  /** The invariant holds all along a run exactly when none of its steps is harmful. */
  lemma {:induction false} RunIsSoundIff(x: System, events: seq<Event>, y: System)
    requires Inv(x) && Leads(x, events, y)
    ensures Sound(x, events) <==> Harmless(x, events)
    ensures Harmless(x, events) ==> Inv(y)
    decreases |events|
  {
    hide Inv, Harmful;
    if events != [] {
      var z := Step(x, events[0]);
      StepKeepsInvIff(x, events[0]);
      if Inv(z) { RunIsSoundIff(z, events[1..], y); }
    }
  }

  lemma EmptyIsSound()
    ensures Inv(EMPTY)
  {
  }

  /** Every run keeps the books. */
  lemma {:induction false} RunKeepsBooks(x: System, events: seq<Event>, y: System)
    requires Booked(x) && Leads(x, events, y)
    ensures Booked(y)
    decreases |events|
  {
    hide Booked;
    if events != [] {
      BookedStep(x, events[0]);
      RunKeepsBooks(Step(x, events[0]), events[1..], y);
    }
  }

  /** In a run without harmful steps no machine is leased to two takers, or twice at
      all; no two takers hold the same popped machine, if it is still there; and every
      leased machine that is there has exactly one open lease, unless its destruction
      is under way. */
  lemma NoDoubleLease(events: seq<Event>, y: System)
    requires Leads(EMPTY, events, y) && Harmless(EMPTY, events)
    ensures OneLease(y.s)
    ensures forall t, u | t in y.popped && u in y.popped && y.popped[t] == y.popped[u] && y.s.Here(y.popped[t]) ::
      t == u
    ensures forall m | y.s.Here(m) && y.s.rows[m].state == LEASED && m !in y.doomed :: OpenLease(y.s, m)
    ensures forall m | OpenLease(y.s, m) :: m in y.s.rows && y.s.rows[m].state != IDLE
  {
    EmptyIsSound();
    RunIsSoundIff(EMPTY, events, y);
  }

  /** Whenever in any run the stray leases are closed, the open leases left are those
      of the machines that are there and leased, but for those being destroyed. */
  lemma StrayLeavesLive(events: seq<Event>, y: System, m: Name)
    requires Leads(EMPTY, events, y)
    ensures var z := Step(y, CloseStray).s;
      && (OpenLease(z, m) ==> z.Here(m) && z.rows[m].state == LEASED)
      && (z.Here(m) && z.rows[m].state == LEASED && m !in y.doomed ==> OpenLease(z, m))
  {
    hide CloseLatest, Leads;
    EmptyIsSound();
    RunKeepsBooks(EMPTY, events, y);
    BookedStep(y, CloseStray);
  }

  /** A gone machine stays gone: its row never changes again. */
  lemma {:induction false} GoneForGood(x: System, events: seq<Event>, y: System, m: Name)
    requires Leads(x, events, y) && m in x.s.rows && x.s.rows[m].gone
    ensures m in y.s.rows && y.s.rows[m] == x.s.rows[m]
    decreases |events|
  {
    if events != [] { GoneForGood(Step(x, events[0]), events[1..], y, m); }
  }

  /** A lease, once written, stays with its machine and user, and once closed stays closed. */
  lemma {:induction false} LeasesAreKept(x: System, events: seq<Event>, y: System, i: nat)
    requires Leads(x, events, y) && i < |x.s.leases|
    ensures i < |y.s.leases| && y.s.leases[i].machine == x.s.leases[i].machine
      && y.s.leases[i].user == x.s.leases[i].user
    ensures x.s.leases[i].released ==> y.s.leases[i].released
    decreases |events|
  {
    hide CloseLatest;
    if events != [] {
      LeaseKept(x, events[0], i);
      hide Step, Enabled;
      LeasesAreKept(Step(x, events[0]), events[1..], y, i);
    }
  }

  lemma LeaseKept(x: System, e: Event, i: nat)
    requires Enabled(x, e) && i < |x.s.leases|
    ensures var l, y := x.s.leases[i], Step(x, e);
      i < |y.s.leases| && y.s.leases[i].machine == l.machine && y.s.leases[i].user == l.user
        && (l.released ==> y.s.leases[i].released)
  {
    hide CloseLatest;
  }

  // ---------------------------------------------------------------- when nothing is harmful

  /** Nobody is still going to enqueue a machine that is popped, and no revival of a
      machine that is there begins while it is popped.  Revivals begin only when the
      record is missing, so the latter is so as long as a popped machine has its
      record until it is bound. */
  ghost predicate Calm(x: System, e: Event) {
    match e
    case Pop(_, name) => forall k | k in x.pending :: x.pending[k] != name
    case ReadRow(_, name) => Taken(x, name) ==> !x.s.Here(name)
    case _ => true
  }

  ghost predicate CalmRun(x: System, events: seq<Event>)
    decreases |events|
  {
    events == [] || (Enabled(x, events[0]) && Calm(x, events[0]) && CalmRun(Step(x, events[0]), events[1..]))
  }

  ghost predicate Waiting(x: System) {
    forall k | k in x.pending ::
      !Taken(x, x.pending[k]) && x.pending[k] in x.s.rows && x.s.rows[x.pending[k]].state != LEASED
  }

  lemma CalmBind(x: System, taker: Taker, user: User)
    requires Queued(x) && Waiting(x) && Enabled(x, Bind(taker, user))
    ensures Waiting(Step(x, Bind(taker, user)))
  {
    assert Taken(x, x.popped[taker]);
  }

  lemma CalmStep(x: System, e: Event)
    requires Queued(x) && Waiting(x) && Enabled(x, e) && Calm(x, e)
    ensures !Harmful(x, e) && Waiting(Step(x, e))
  {
    if e.Bind? {
      CalmBind(x, e.taker, e.user);
    } else {
      var y := Step(x, e);
      forall k | k in y.pending ensures !Taken(y, y.pending[k]) && y.s.rows[y.pending[k]].state != LEASED {
        if k in x.pending && x.pending[k] == y.pending[k] {
          assert !Taken(x, x.pending[k]);
        }
      }
    }
  }

  /** A calm run is harmless. */
  lemma {:induction false} CalmIsHarmless(x: System, events: seq<Event>, y: System)
    requires Inv(x) && Waiting(x) && Leads(x, events, y) && CalmRun(x, events)
    ensures Harmless(x, events)
    decreases |events|
  {
    hide Booked, Queued, Waiting, Harmful, Calm;
    if events != [] {
      CalmStep(x, events[0]);
      StepKeepsInvIff(x, events[0]);
      CalmIsHarmless(Step(x, events[0]), events[1..], y);
    }
  }

  /** So in every calm run no machine is leased twice, or popped by two takers. */
  lemma NoDoubleLeaseWhenCalm(events: seq<Event>, y: System)
    requires Leads(EMPTY, events, y) && CalmRun(EMPTY, events)
    ensures OneLease(y.s)
    ensures forall t, u | t in y.popped && u in y.popped && y.popped[t] == y.popped[u] && y.s.Here(y.popped[t]) ::
      t == u
  {
    EmptyIsSound();
    CalmIsHarmless(EMPTY, events, y);
    NoDoubleLease(events, y);
  }
}
