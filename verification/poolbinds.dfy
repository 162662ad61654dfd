/** Whom the machines of the pool are leased to, in every run. */
module PoolBinds {
  import opened Options
  import opened Pool

  /** A machine and the user a taker bound it to. */
  datatype Bound = Bound(machine: Name, user: User)

  /** What a step binds: the machine its taker has popped, when that is still there. */
  ghost function BoundBy(x: System, e: Event): seq<Bound> {
    if e.Bind? && e.taker in x.popped && x.popped[e.taker] in x.s.rows && !x.s.rows[x.popped[e.taker]].gone
    then [Bound(x.popped[e.taker], e.user)] else []
  }

  /** What a run binds, in order. */
  ghost function BoundIn(x: System, events: seq<Event>): seq<Bound>
    decreases |events|
  {
    if events == [] || !Enabled(x, events[0]) then []
    else BoundBy(x, events[0]) + BoundIn(Step(x, events[0]), events[1..])
  }

  ghost predicate Agree(leases: seq<Lease>, bound: seq<Bound>) {
    |leases| == |bound|
    && forall i | 0 <= i < |leases| :: leases[i].machine == bound[i].machine && leases[i].user == bound[i].user
  }

  lemma BindsAgree(x: System, e: Event, bound: seq<Bound>)
    requires Enabled(x, e) && Agree(x.s.leases, bound)
    ensures Agree(Step(x, e).s.leases, bound + BoundBy(x, e))
  {
    hide CloseLatest;
  }

  lemma {:induction false} RunsAgree(x: System, events: seq<Event>, y: System, bound: seq<Bound>)
    requires Leads(x, events, y) && Agree(x.s.leases, bound)
    ensures Agree(y.s.leases, bound + BoundIn(x, events))
    decreases |events|
  {
    hide Agree, Enabled, Step, BoundBy;
    if events == [] {
      assert bound + BoundIn(x, events) == bound;
    } else {
      var now, rest := BoundBy(x, events[0]), BoundIn(Step(x, events[0]), events[1..]);
      BindsAgree(x, events[0], bound);
      RunsAgree(Step(x, events[0]), events[1..], y, bound + now);
      assert bound + now + rest == bound + (now + rest);
    }
  }

  /** In every run the leases are, in order, those of the machines that takers bound
      while they were there, each to the user it was bound to. */
  lemma LeasesAreBinds(events: seq<Event>, y: System)
    requires Leads(EMPTY, events, y)
    ensures |y.s.leases| == |BoundIn(EMPTY, events)|
    ensures forall i | 0 <= i < |y.s.leases| ::
      var b := BoundIn(EMPTY, events)[i]; y.s.leases[i].machine == b.machine && y.s.leases[i].user == b.user
  {
    RunsAgree(EMPTY, events, y, []);
    assert [] + BoundIn(EMPTY, events) == BoundIn(EMPTY, events);
  }

  // ---------------------------------------------------------------- rows

  /** Lease i is the machine's last one. */
  ghost predicate LastOf(leases: seq<Lease>, i: int, m: Name) {
    0 <= i < |leases| && leases[i].machine == m && forall j | i < j < |leases| :: leases[j].machine != m
  }

  /** A row names the user of the machine's last lease. */
  ghost predicate Named(s: State) {
    && (forall m | m in s.rows && s.rows[m].user.Some? ::
          exists i :: LastOf(s.leases, i, m) && s.leases[i].user == s.rows[m].user.value)
    && (forall m | m in s.rows && s.rows[m].state == LEASED :: s.rows[m].user.Some?)
  }

  lemma NamedBind(x: System, taker: Taker, user: User)
    requires Named(x.s) && Enabled(x, Bind(taker, user))
    ensures Named(Step(x, Bind(taker, user)).s)
  {
    var name, y := x.popped[taker], Step(x, Bind(taker, user)).s;
    if x.s.Here(name) {
      assert LastOf(y.leases, |x.s.leases|, name);
      forall m | m in y.rows && m != name && y.rows[m].user.Some?
        ensures exists i :: LastOf(y.leases, i, m) && y.leases[i].user == y.rows[m].user.value
      {
        var i :| LastOf(x.s.leases, i, m) && x.s.leases[i].user == x.s.rows[m].user.value;
        assert LastOf(y.leases, i, m);
      }
    }
  }

  /** Leases may have been closed and rows marked gone, but for that x and y agree. */
  lemma NamedStays(s: State, t: State)
    requires Named(s) && |t.leases| == |s.leases|
    requires forall i | 0 <= i < |s.leases| ::
      t.leases[i].machine == s.leases[i].machine && t.leases[i].user == s.leases[i].user
    requires forall m | m in t.rows && t.rows[m].user.Some? :: m in s.rows && s.rows[m].user == t.rows[m].user
    requires forall m | m in t.rows && t.rows[m].state == LEASED :: t.rows[m].user.Some?
    ensures Named(t)
  {
    forall m | m in t.rows && t.rows[m].user.Some?
      ensures exists i :: LastOf(t.leases, i, m) && t.leases[i].user == t.rows[m].user.value
    {
      var i :| LastOf(s.leases, i, m) && s.leases[i].user == s.rows[m].user.value;
      assert LastOf(t.leases, i, m);
    }
  }

  lemma NamedStep(x: System, e: Event)
    requires Named(x.s) && Enabled(x, e)
    ensures Named(Step(x, e).s)
  {
    hide CloseLatest, LastOf;
    if e.Bind? { NamedBind(x, e.taker, e.user); } else { NamedStays(x.s, Step(x, e).s); }
  }

  lemma {:induction false} RunIsNamed(x: System, events: seq<Event>, y: System)
    requires Leads(x, events, y) && Named(x.s)
    ensures Named(y.s)
    decreases |events|
  {
    hide Named, Enabled, Step;
    if events != [] {
      NamedStep(x, events[0]);
      RunIsNamed(Step(x, events[0]), events[1..], y);
    }
  }

  /** In every run a leased machine's row names the user its last lease is for. */
  lemma RowsNameTheirUser(events: seq<Event>, y: System, m: Name)
    requires Leads(EMPTY, events, y) && m in y.s.rows && y.s.rows[m].state == LEASED
    ensures y.s.rows[m].user.Some?
    ensures exists i :: LastOf(y.s.leases, i, m) && y.s.rows[m].user == Some(y.s.leases[i].user)
  {
    hide LastOf;
    RunIsNamed(EMPTY, events, y);
  }
}
