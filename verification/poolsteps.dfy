/** The operations of the pool's store as runs of the transactions and commands they consist of. */
module PoolSteps {
  import opened Options
  import opened Pool
  import opened PoolRaces
  import opened PoolStore

  /** Registration, revival, heartbeat and bind: done without interruption they have
      the effect of their steps in order. */
  lemma OperationsAreSteps(x: System, task: Task, taker: Taker, name: Name, user: User, now: int)
    requires task !in x.pending
    ensures name !in x.s.rows ==>
      Step(Step(Step(x, Insert(task, name)), Record(name, IDLE)), Enqueue(task, now)).s == x.s.Register(name, now)
    ensures x.s.Here(name) ==>
      var y := Step(Step(x, ReadRow(task, name)), Record(name, x.s.rows[name].state));
      (if x.s.rows[name].state == IDLE then Step(y, Enqueue(task, now)) else y).s == x.s.Revive(name, now)
    ensures x.s.Heartbeat(name, now) ==
      if name in x.s.records then Step(x, Record(name, x.s.records[name])).s else x.s.Revive(name, now)
    ensures taker in x.popped && taker in x.kept && x.s.Here(x.popped[taker]) ==>
      var m := x.popped[taker];
      Step(Step(Step(x, Bind(taker, user)), Record(m, LEASED)), Unqueue(m)).s == x.s.Bind(m, user)
  {
    if name in x.s.records { assert x.s.records[name := x.s.records[name]] == x.s.records; }
  }

  ghost predicate Shows(y: System, s: State, popped: map<Taker, Name>, kept: set<Taker>) {
    y.s == s && y.popped == popped && y.kept == kept
  }

  /** Some run from x ends with these tables and keys, and these machines popped and kept. */
  ghost predicate Reaches(x: System, s: State, popped: map<Taker, Name>, kept: set<Taker>) {
    exists events, y :: Leads(x, events, y) && Shows(y, s, popped, kept)
  }

  lemma ForgetIsSteps(x: System, m: Name)
    ensures Reaches(x, x.s.Forget(m), x.popped, x.kept)
  {
    var a := Step(x, Unqueue(m));
    var b := Step(a, Expire(m));
    var y := Step(b, MarkGone(m));
    assert Enabled(x, Unqueue(m)) && Enabled(a, Expire(m)) && Enabled(b, MarkGone(m));
    assert Shows(y, x.s.Forget(m), x.popped, x.kept);
    hide Step, Enabled;
    LeadsNowhere(x);
    LeadsMore(x, [], x, Unqueue(m));
    LeadsMore(x, [] + [Unqueue(m)], a, Expire(m));
    LeadsMore(x, [] + [Unqueue(m)] + [Expire(m)], b, MarkGone(m));
  }

  lemma DestroyIsSteps(x: System, m: Name)
    ensures Reaches(x, x.s.Destroy(m), x.popped, x.kept)
  {
    var a := Step(x, CloseLease(m));
    ForgetIsSteps(a, m);
    var more, y :| Leads(a, more, y) && Shows(y, a.s.Forget(m), a.popped, a.kept);
    LeadsNowhere(x);
    LeadsMore(x, [], x, CloseLease(m));
    LeadsApp(x, [] + [CloseLease(m)], a, more, y);
  }

  // ---------------------------------------------------------------- a grab

  /** The dead machines at the front of the queue are popped, found dead and forgotten one after the other. */
  lemma {:induction false} DropsAreSteps(x: System, taker: Taker, dropped: seq<Name>)
    requires taker !in x.popped && taker !in x.kept && DeadInOrder(x.s, dropped)
    ensures Reaches(x, ForgetAll(x.s, dropped), x.popped, x.kept) && Grabbing(x.s, ForgetAll(x.s, dropped), dropped)
    decreases |dropped|
  {
    if dropped == [] {
      GrabbingStarts(x.s);
      LeadsNowhere(x);
      assert Shows(x, ForgetAll(x.s, []), x.popped, x.kept);
    } else {
      var n := |dropped| - 1;
      var name := dropped[n];
      assert dropped == dropped[..n] + [name];
      DeadBefore(x.s, dropped);
      DropsAreSteps(x, taker, dropped[..n]);
      var before, a :| Leads(x, before, a) && Shows(a, ForgetAll(x.s, dropped[..n]), x.popped, x.kept);
      hide Leads, Grabbing, DeadInOrder, PoolStore.First, Step, Reaches;
      FrontOfQueue(x.s, a.s, dropped[..n], name);
      GrabbingNext(x.s, a.s, dropped[..n], name);
      DropIsSteps(a, taker, name);
      ReachesApp(x, before, a, a.s.Forget(name), a.popped, a.kept);
    }
  }

  lemma ReachesApp(x: System, before: seq<Event>, a: System, s: State, popped: map<Taker, Name>, kept: set<Taker>)
    requires Leads(x, before, a) && Reaches(a, s, popped, kept)
    ensures Reaches(x, s, popped, kept)
  {
    hide Leads, Shows;
    var more, y :| Leads(a, more, y) && Shows(y, s, popped, kept);
    LeadsApp(x, before, a, more, y);
  }

  lemma DeadBefore(s: State, dropped: seq<Name>)
    requires DeadInOrder(s, dropped) && dropped != []
    ensures var n := |dropped| - 1;
      DeadInOrder(s, dropped[..n]) && PoolStore.First(s, dropped[..n], dropped[n]) && !s.Alive(dropped[n])
  {
    hide PoolStore.First;
    var n := |dropped| - 1;
    assert dropped[n] in dropped;
    forall k | 0 <= k < n ensures PoolStore.First(s, dropped[..n][..k], dropped[..n][k]) {
      assert dropped[..n][..k] == dropped[..k];
    }
  }

  lemma FrontOfQueue(before: State, s: State, dropped: seq<Name>, name: Name)
    requires Grabbing(before, s, dropped) && PoolStore.First(before, dropped, name)
    ensures PoolRaces.Lowest(s.idle, name) && s.Alive(name) == before.Alive(name)
  {
    var gone := set m | m in dropped;
    assert s.idle == before.idle - gone && name !in gone;
  }

  /** One turn of the loop of `grab_idle` for a dead machine. */
  lemma DropIsSteps(x: System, taker: Taker, name: Name)
    requires taker !in x.popped && taker !in x.kept && PoolRaces.Lowest(x.s.idle, name) && !x.s.Alive(name)
    ensures Reaches(x, x.s.Forget(name), x.popped, x.kept)
  {
    var a := Step(x, Pop(taker, name));
    var b := Step(a, Drop(taker));
    assert x.popped[taker := name] - {taker} == x.popped && x.kept - {taker} == x.kept;
    assert x.s.idle - {name} - {name} == x.s.idle - {name} && b.s.Forget(name) == x.s.Forget(name);
    ForgetIsSteps(b, name);
    assert Enabled(x, Pop(taker, name)) && Enabled(a, Drop(taker));
    hide Step, Enabled, Reaches;
    LeadsNowhere(x);
    LeadsMore(x, [], x, Pop(taker, name));
    LeadsMore(x, [] + [Pop(taker, name)], a, Drop(taker));
    ReachesApp(x, [] + [Pop(taker, name)] + [Drop(taker)], b, x.s.Forget(name), x.popped, x.kept);
  }

  /** And for a living one. */
  lemma KeepIsSteps(x: System, taker: Taker, name: Name)
    requires taker !in x.popped && taker !in x.kept && PoolRaces.Lowest(x.s.idle, name) && x.s.Alive(name)
    ensures Reaches(x, x.s.(idle := x.s.idle - {name}), x.popped[taker := name], x.kept + {taker})
  {
    var a := Step(x, Pop(taker, name));
    var y := Step(a, Keep(taker));
    assert Enabled(x, Pop(taker, name)) && Enabled(a, Keep(taker)) && x.kept - {taker} == x.kept;
    assert Shows(y, x.s.(idle := x.s.idle - {name}), x.popped[taker := name], x.kept + {taker});
    hide Step, Enabled;
    LeadsNowhere(x);
    LeadsMore(x, [], x, Pop(taker, name));
    LeadsMore(x, [] + [Pop(taker, name)], a, Keep(taker));
  }

  /** Every outcome of `grab_idle` is one of a run of a single taker: pops, and after
      each of them the machine is kept, or dropped and forgotten. */
  lemma GrabIsSteps(x: System, taker: Taker, after: State, dropped: seq<Name>, r: Option<Name>)
    requires taker !in x.popped && taker !in x.kept && Grabbed(x.s, after, dropped, r)
    ensures if r.None? then Reaches(x, after, x.popped, x.kept)
            else Reaches(x, after, x.popped[taker := r.value], x.kept + {taker})
  {
    DropsAreSteps(x, taker, dropped);
    if r.Some? {
      var before, a :| Leads(x, before, a) && Shows(a, ForgetAll(x.s, dropped), x.popped, x.kept);
      FrontOfQueue(x.s, a.s, dropped, r.value);
      KeepIsSteps(a, taker, r.value);
      hide DeadInOrder, Leads, PoolStore.First, Reaches;
      ReachesApp(x, before, a, after, x.popped[taker := r.value], x.kept + {taker});
    }
  }

  // ---------------------------------------------------------------- a reap

  lemma {:induction false} EndAll(before: State, x: System, done: set<Name>, left: set<Name>, after: State)
    requires Ended(before, x.s, done) && Ended(before, after, done + left)
    requires done !! left && forall m | m in left :: before.Here(m)
    ensures Reaches(x, after, x.popped, x.kept)
    decreases left
  {
    hide Ended, Leads;
    if left == {} {
      assert done + left == done;
      EndedOnce(before, x.s, after, done);
      LeadsNowhere(x);
      assert Shows(x, after, x.popped, x.kept);
    } else {
      var m :| m in left;
      EndedNext(before, x.s, done, m);
      DestroyIsSteps(x, m);
      var first, a :| Leads(x, first, a) && Shows(a, x.s.Destroy(m), x.popped, x.kept);
      assert done + {m} + (left - {m}) == done + left;
      EndAll(before, a, done + {m}, left - {m}, after);
      ReachesApp(x, first, a, after, x.popped, x.kept);
    }
  }

  /** Every outcome of a reap is one of a run: the stray leases are closed, then machines destroyed. */
  lemma ReapIsSteps(x: System, after: State, ended: set<Name>)
    requires Ended(x.s, after, ended) && forall m | m in ended :: x.s.Here(m)
    ensures Reaches(x, after, x.popped, x.kept)
  {
    hide Ended;
    var a := Step(x, CloseStray);
    StrayEnded(x.s);
    assert {} + ended == ended;
    EndAll(x.s, a, {}, ended, after);
    LeadsNowhere(x);
    LeadsMore(x, [], x, CloseStray);
    ReachesApp(x, [] + [CloseStray], a, after, x.popped, x.kept);
  }

  // ---------------------------------------------------------------- a lease left behind

  /** The machine leased twice dies, and the reap that ends it closes only the later lease. */
  lemma ReapLeavesLease(m: Name)
    ensures exists y, after ::
      && Leads(EMPTY, LateRevive(m) + [Expire(m)], y)
      && Ended(y.s, after, set n | n in y.s.rows && Condemned(y.s, {}, {}, n))
      && after.rows.Keys == {m} && after.rows[m].gone && OpenLease(after, m)
  {
    LateReviveLeasesTwice(m);
    LeadsMore(EMPTY, LateRevive(m), Twice(m), Expire(m));
    var y := Step(Twice(m), Expire(m));
    assert y.s.rows == map[m := Row(LEASED, Some(11), false)] && !y.s.Alive(m);
    assert y.s.leases == [Lease(m, 10, false), Lease(m, 11, false)];
    var after := y.s.CloseStray().Destroy(m);
    StrayEnded(y.s);
    EndedNext(y.s, y.s.CloseStray(), {}, m);
    assert (set n | n in y.s.rows && Condemned(y.s, {}, {}, n)) == {} + {m};
    hide Ended, CloseLatest;
    Behind(y.s, after, m);
  }

  lemma Behind(before: State, after: State, m: Name)
    requires Ended(before, after, {} + {m}) && before.Here(m) && before.rows.Keys == {m}
    requires before.leases == [Lease(m, 10, false), Lease(m, 11, false)]
    ensures after.rows.Keys == {m} && after.rows[m].gone && OpenLease(after, m)
  {
    var i, j := 0, 1;
    assert before.leases[i].machine == m == before.leases[j].machine;
    assert TwoOpen(before, m);
    LeaseLeftBehindIff(before, after, {} + {m}, m);
  }
}
