/** The pool's operations as they change the tables and keys in place. */
module PoolStore {
  import opened Options
  import opened Pool

  class Store {
    var rows: map<Name, Row>
    var leases: seq<Lease>
    var records: map<Name, MachineState>
    var idle: map<Name, int>

    ghost function View(): State reads this { State(rows, leases, records, idle) }

    constructor ()
      ensures View() == EMPTY.s
    {
      rows, leases, records, idle := map[], [], map[], map[];
    }

    method Register(name: Name, now: int)
      modifies this
      ensures View() == old(View()).Register(name, now)
    {
      rows := rows[name := Row(IDLE, None, false)];
      records := records[name := IDLE];
      idle := idle[name := now];
    }

    /** `revive`: the state written back, or nothing for a machine that is gone. */
    method Revive(name: Name, now: int) returns (found: bool)
      modifies this
      ensures View() == old(View()).Revive(name, now) && found == old(View()).Here(name)
    {
      if name !in rows || rows[name].gone { return false; }
      records := records[name := rows[name].state];
      if rows[name].state == IDLE { idle := idle[name := now]; }
      return true;
    }

    method Heartbeat(name: Name, now: int) returns (ok: bool)
      modifies this
      ensures View() == old(View()).Heartbeat(name, now)
      ensures ok <==> name in old(records) || old(View()).Here(name)
    {
      ok := true;
      if name !in records { ok := Revive(name, now); }
    }

    method Forget(name: Name)
      modifies this
      ensures View() == old(View()).Forget(name)
    {
      idle := idle - {name};
      records := records - {name};
      if name in rows && !rows[name].gone { rows := rows[name := rows[name].(state := GONE, gone := true)]; }
    }

    /** One name with the lowest score (`zpopmin`). */
    method Lowest() returns (name: Name)
      requires idle != map[]
      ensures name in idle && forall m | m in idle :: idle[name] <= idle[m]
    {
      var left := idle.Keys;
      assert left != {};
      name :| name in left;
      left := left - {name};
      while left != {}
        invariant name in idle && left <= idle.Keys
        invariant forall m | m in idle && m !in left :: idle[name] <= idle[m]
        decreases left
      {
        var m :| m in left;
        if idle[m] < idle[name] { name := m; }
        left := left - {m};
      }
    }

    /** `grab_idle`: pops by score; machines found dead on the way are forgotten. */
    method GrabIdle() returns (r: Option<Name>, ghost dropped: seq<Name>)
      modifies this
      ensures Grabbed(old(View()), View(), dropped, r)
    {
      hide Grabbing, Grabbed;
      dropped := [];
      GrabbingStarts(View());
      while idle != map[]
        invariant Grabbing(old(View()), View(), dropped)
        decreases idle.Keys
      {
        var name := Lowest();
        GrabbingNext(old(View()), View(), dropped, name);
        ghost var was := idle;
        idle := idle - {name};
        if name in records && records[name] != GONE { return Some(name), dropped; }
        Forget(name);
        assert idle == was - {name};
        dropped := dropped + [name];
      }
      GrabbingEnds(old(View()), View(), dropped);
      return None, dropped;
    }

    /** `_close_lease`: the latest open lease of the machine. */
    method CloseLease(name: Name)
      modifies this
      ensures View() == old(View()).CloseLease(name)
    {
      hide CloseLatest;
      var i := |leases|;
      while i > 0 && !(leases[i - 1].machine == name && !leases[i - 1].released)
        invariant 0 <= i <= |leases|
        invariant forall k | i <= k < |leases| :: !(leases[k].machine == name && !leases[k].released)
      {
        i := i - 1;
      }
      CloseLatestAt(leases, name, i);
      if i > 0 { leases := leases[i - 1 := leases[i - 1].(released := true)]; }
    }

    method Destroy(name: Name)
      modifies this
      ensures View() == old(View()).Destroy(name)
    {
      CloseLease(name);
      Forget(name);
    }

    /** `_bind` and the `mark` that follows it. */
    method Bind(name: Name, user: User) returns (ok: bool)
      modifies this
      ensures View() == old(View()).Bind(name, user) && ok == old(View()).Here(name)
    {
      if name !in rows || rows[name].gone { return false; }
      rows := rows[name := Row(LEASED, Some(user), false)];
      leases := leases + [Lease(name, user, false)];
      records := records[name := LEASED];
      idle := idle - {name};
      return true;
    }

    method CloseStrayLeases()
      modifies this
      ensures View() == old(View()).CloseStray()
    {
      ghost var was := leases;
      for i := 0 to |leases|
        invariant |leases| == |was| && rows == old(rows) && records == old(records) && idle == old(idle)
        invariant forall k | 0 <= k < |was| ::
          leases[k] ==
            if k < i && was[k].machine in rows && rows[was[k].machine].gone then was[k].(released := true) else was[k]
      {
        var l := leases[i];
        if !l.released && l.machine in rows && rows[l.machine].gone {
          leases := leases[i := l.(released := true)];
        }
      }
      assert leases == old(View()).CloseStray().leases;
    }

    /** `leases.reap`: held machines and those quiet for too long are given. Past the
        boot grace it closes the leases of machines that were gone, and ends exactly
        the condemned machines, each with its latest open lease. */
    method Reap(uptime: nat, ttl: nat, held: set<Name>, quiet: set<Name>)
      modifies this
      ensures uptime < ttl ==> View() == old(View())
      ensures uptime >= ttl ==>
        Ended(old(View()), View(), set m | m in old(rows) && Condemned(old(View()), held, quiet, m))
    {
      hide Ended, Reaping, Condemned;
      if uptime < ttl { return; }
      ghost var before := View();
      CloseStrayLeases();
      var left := set m | m in rows && rows[m].state == LEASED && !rows[m].gone;
      ReapingStarts(before, left, held, quiet);
      while left != {}
        invariant Reaping(before, View(), left, held, quiet)
        decreases left
      {
        var m :| m in left;
        ReapingNext(before, View(), left, held, quiet, m);
        left := left - {m};
        if m !in records || records[m] == GONE {
          CloseLease(m);
          Forget(m);
        } else if m !in held && m in quiet && rows[m].user.Some? {
          Destroy(m);
        }
      }
      ReapingEnds(before, View(), held, quiet);
    }
  }

  /** The condemned machines that are not in `left`. */
  ghost function Judged(before: State, left: set<Name>, held: set<Name>, quiet: set<Name>): set<Name> {
    set m | m in before.rows && m !in left && Condemned(before, held, quiet, m)
  }

  /** Part of a reap: the machines of `left`, leased when it began, are still to be looked at. */
  ghost predicate Reaping(before: State, s: State, left: set<Name>, held: set<Name>, quiet: set<Name>) {
    && (forall m | m in left :: before.Here(m) && before.rows[m].state == LEASED)
    && (forall m | m in left :: m in s.rows && s.rows[m] == before.rows[m] && s.Alive(m) == before.Alive(m))
    && Ended(before, s, Judged(before, left, held, quiet))
  }

  lemma ReapingStarts(before: State, left: set<Name>, held: set<Name>, quiet: set<Name>)
    requires left == set m | m in before.rows && before.rows[m].state == LEASED && !before.rows[m].gone
    ensures Reaping(before, before.CloseStray(), left, held, quiet)
  {
    hide Ended;
    StrayEnded(before);
    assert Judged(before, left, held, quiet) == {};
  }

  lemma ReapingNext(before: State, s: State, left: set<Name>, held: set<Name>, quiet: set<Name>, m: Name)
    requires Reaping(before, s, left, held, quiet) && m in left
    ensures s.Alive(m) == before.Alive(m) && m in s.rows && s.rows[m] == before.rows[m]
    ensures var over := !s.Alive(m) || (m !in held && m in quiet && s.rows[m].user.Some?);
      Reaping(before, if over then s.Destroy(m) else s, left - {m}, held, quiet)
  {
    hide Ended;
    var done, now := Judged(before, left, held, quiet), Judged(before, left - {m}, held, quiet);
    if Condemned(before, held, quiet, m) {
      assert now == done + {m};
      EndedNext(before, s, done, m);
    } else {
      assert now == done;
    }
  }

  lemma ReapingEnds(before: State, s: State, held: set<Name>, quiet: set<Name>)
    requires Reaping(before, s, {}, held, quiet)
    ensures Ended(before, s, set m | m in before.rows && Condemned(before, held, quiet, m))
  {
    hide Ended;
    assert Judged(before, {}, held, quiet) == (set m | m in before.rows && Condemned(before, held, quiet, m));
  }

  lemma StrayEnded(s: State)
    ensures Ended(s, s.CloseStray(), {})
  {
  }

  lemma {:induction false} CloseLatestAt(leases: seq<Lease>, name: Name, i: nat)
    requires i <= |leases| && (i > 0 ==> leases[i - 1].machine == name && !leases[i - 1].released)
    requires forall k | i <= k < |leases| :: !(leases[k].machine == name && !leases[k].released)
    ensures CloseLatest(leases, name) == if i == 0 then leases else leases[i - 1 := leases[i - 1].(released := true)]
  {
    if i < |leases| {
      var n := |leases| - 1;
      CloseLatestAt(leases[..n], name, i);
    }
  }

  /** What `leases.reap` ends: a leased machine that is dead, or quiet for too long and not held. */
  ghost predicate Condemned(s: State, held: set<Name>, quiet: set<Name>, m: Name) {
    && m in s.rows && !s.rows[m].gone && s.rows[m].state == LEASED
    && (m !in s.records || s.records[m] == GONE || (m !in held && m in quiet && s.rows[m].user.Some?))
  }

  /** The latest open lease of its machine. */
  ghost predicate Latest(leases: seq<Lease>, i: nat)
    requires i < |leases|
  {
    && !leases[i].released
    && forall j | i < j < |leases| :: !(leases[j].machine == leases[i].machine && !leases[j].released)
  }

  /** Lease i is closed as a stray, or as the latest one of a machine that is ended. */
  ghost predicate Closed(before: State, ended: set<Name>, i: nat)
    requires i < |before.leases|
  {
    var m := before.leases[i].machine;
    (m in before.rows && before.rows[m].gone) || (m in ended && Latest(before.leases, i))
  }

  /** The pool once the stray leases have been closed and the machines of `ended` destroyed. */
  ghost predicate Ended(before: State, after: State, ended: set<Name>) {
    && after.rows.Keys == before.rows.Keys
    && (forall m | m in before.rows ::
          after.rows[m] == if m in ended then before.rows[m].(state := GONE, gone := true) else before.rows[m])
    && |after.leases| == |before.leases|
    && (forall i | 0 <= i < |before.leases| ::
          after.leases[i] == if Closed(before, ended, i) then before.leases[i].(released := true) else before.leases[i])
    && after.records == before.records - ended && after.idle == before.idle - ended
  }

  lemma {:induction false} CloseLatestIs(leases: seq<Lease>, name: Name)
    ensures forall i | 0 <= i < |leases| ::
      CloseLatest(leases, name)[i] ==
        if leases[i].machine == name && Latest(leases, i) then leases[i].(released := true) else leases[i]
  {
    if leases != [] {
      var n := |leases| - 1;
      CloseLatestIs(leases[..n], name);
      forall i | 0 <= i < n && leases[i].machine == name
        ensures Latest(leases, i) <==> Latest(leases[..n], i) && (leases[n].machine != name || leases[n].released)
      {
      }
    }
  }

  lemma EndedNext(before: State, s: State, ended: set<Name>, m: Name)
    requires Ended(before, s, ended) && before.Here(m) && m !in ended
    ensures Ended(before, s.Destroy(m), ended + {m})
  {
    hide CloseLatest;
    CloseLatestIs(s.leases, m);
    forall i | 0 <= i < |before.leases| && before.leases[i].machine == m
      ensures s.leases[i] == before.leases[i] && Latest(s.leases, i) == Latest(before.leases, i)
    {
      assert forall j | i < j < |before.leases| && before.leases[j].machine == m :: s.leases[j] == before.leases[j];
    }
    assert s.records - {m} == before.records - (ended + {m}) && s.idle - {m} == before.idle - (ended + {m});
  }

  lemma EndedOnce(before: State, a: State, b: State, ended: set<Name>)
    requires Ended(before, a, ended) && Ended(before, b, ended)
    ensures a == b
  {
  }

  /** The machine has two open leases. */
  ghost predicate TwoOpen(s: State, m: Name) {
    exists i, j | 0 <= i < j < |s.leases| ::
      s.leases[i].machine == m == s.leases[j].machine && !s.leases[i].released && !s.leases[j].released
  }

  /** A reap leaves an open lease behind a gone machine exactly when it has ended that
      machine itself and the machine had two open leases. */
  lemma LeaseLeftBehindIff(before: State, after: State, ended: set<Name>, m: Name)
    requires Ended(before, after, ended) && (forall n | n in ended :: before.Here(n))
    requires m in after.rows && after.rows[m].gone
    ensures OpenLease(after, m) <==> m in ended && TwoOpen(before, m)
  {
    if OpenLease(after, m) {
      var i :| 0 <= i < |after.leases| && after.leases[i].machine == m && !after.leases[i].released;
      assert !Closed(before, ended, i) && !Latest(before.leases, i);
      var j :| i < j < |before.leases| && before.leases[j].machine == m && !before.leases[j].released;
    }
    if m in ended && TwoOpen(before, m) {
      var i, j :| 0 <= i < j < |before.leases| && before.leases[i].machine == m == before.leases[j].machine
        && !before.leases[i].released && !before.leases[j].released;
      assert !Latest(before.leases, i) && after.leases[i] == before.leases[i];
    }
  }

  /** These machines are dead, and in the order of the queue come before all others. */
  ghost predicate DeadInOrder(before: State, dropped: seq<Name>) {
    && (forall m | m in dropped :: m in before.idle && (m !in before.records || before.records[m] == GONE))
    && (forall k | 0 <= k < |dropped| :: First(before, dropped[..k], dropped[k]))
  }

  /** The machine has the lowest score of all but those of `dropped`. */
  ghost predicate First(before: State, dropped: seq<Name>, name: Name) {
    && name in before.idle && name !in dropped
    && forall m | m in before.idle && m !in dropped :: before.idle[name] <= before.idle[m]
  }

  /** Part of a grab: the machines of `dropped`, all dead, have been popped and forgotten. */
  ghost predicate Grabbing(before: State, s: State, dropped: seq<Name>) {
    && s == ForgetAll(before, dropped)
    && s.idle == before.idle - (set m | m in dropped)
    && DeadInOrder(before, dropped)
    && (forall m | m !in dropped :: s.Alive(m) == before.Alive(m))
  }

  /** A grab: a living machine with the lowest score left after the dead ones before it were
      forgotten, or nothing when all were dead. */
  ghost predicate Grabbed(before: State, after: State, dropped: seq<Name>, r: Option<Name>) {
    && DeadInOrder(before, dropped)
    && match r
       case None =>
         after == ForgetAll(before, dropped) && after.idle == map[] && forall m | m in before.idle :: m in dropped
       case Some(name) =>
         && First(before, dropped, name) && name in before.records && before.records[name] != GONE
         && after == ForgetAll(before, dropped).(idle := before.idle - (set m | m in dropped) - {name})
  }

  lemma GrabbingStarts(s: State)
    ensures Grabbing(s, s, [])
  {
    assert s.idle - (set m | m in []) == s.idle;
  }

  lemma GrabbingNext(before: State, s: State, dropped: seq<Name>, name: Name)
    requires Grabbing(before, s, dropped) && name in s.idle && forall m | m in s.idle :: s.idle[name] <= s.idle[m]
    ensures s.Alive(name) ==> Grabbed(before, s.(idle := s.idle - {name}), dropped, Some(name))
    ensures !s.Alive(name) ==> Grabbing(before, s.Forget(name), dropped + [name])
    ensures s.(idle := s.idle - {name}).Forget(name) == s.Forget(name)
  {
    hide DeadInOrder, ForgetAll;
    var gone := set m | m in dropped;
    assert s.idle == before.idle - gone && name !in gone;
    assert forall m | m in before.idle && m !in gone :: m in s.idle && s.idle[m] == before.idle[m];
    assert First(before, dropped, name);
    assert s.idle - {name} - {name} == s.idle - {name};
    if !s.Alive(name) {
      DeadMore(before, dropped, name);
      ForgetAllMore(before, dropped, name);
      assert before.idle - (set m | m in dropped) - {name} == before.idle - (set m | m in dropped + [name]);
    }
  }

  lemma DeadMore(before: State, dropped: seq<Name>, name: Name)
    requires DeadInOrder(before, dropped) && First(before, dropped, name) && !before.Alive(name)
    ensures DeadInOrder(before, dropped + [name])
  {
    assert name in before.idle;
    hide First;
    var all := dropped + [name];
    forall k | 0 <= k < |all| ensures First(before, all[..k], all[k]) {
      assert all[..k] == if k < |dropped| then dropped[..k] else dropped;
    }
  }

  lemma GrabbingEnds(before: State, s: State, dropped: seq<Name>)
    requires Grabbing(before, s, dropped) && s.idle == map[]
    ensures Grabbed(before, s, dropped, None)
  {
    assert forall m | m in before.idle :: m in dropped || m in s.idle;
  }

  ghost function ForgetAll(s: State, names: seq<Name>): State {
    if names == [] then s else ForgetAll(s, names[..|names| - 1]).Forget(names[|names| - 1])
  }

  lemma ForgetAllMore(s: State, names: seq<Name>, name: Name)
    ensures ForgetAll(s, names + [name]) == ForgetAll(s, names).Forget(name)
  {
    assert (names + [name])[..|names|] == names;
  }
}
