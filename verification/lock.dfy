/** The Redis lock of `cluster.py`. */
module Lock {
  // One key has a token and an expiry, and any number of holders set, extend and
  // delete it.  Times are in milliseconds.

  import opened Options

  type Token = string

  /** What the key holds until it expires. */
  datatype Entry = Entry(token: Token, expires: nat)

  datatype Store = Store(now: nat, entry: Option<Entry>) {
    /** GET: an expired key reads as absent. */
    function Get(): Option<Token> {
      if entry.Some? && now < entry.value.expires then Some(entry.value.token) else None
    }

    /** SET token NX PX ttl. */
    function SetNx(token: Token, ttl: nat): (Store, bool) {
      if Get().Some? then (this, false) else (this.(entry := Some(Entry(token, now + ttl))), true)
    }

    /** The EXTEND script. */
    function Extend(token: Token, ttl: nat): (Store, bool) {
      if Get() == Some(token) then (this.(entry := Some(Entry(token, now + ttl))), true) else (this, false)
    }

    /** The RELEASE script. */
    function Release(token: Token): (Store, bool) {
      if Get() == Some(token) then (this.(entry := None), true) else (this, false)
    }
  }

  /** The server, running one command at a time. */
  class Redis {
    var now: nat
    var token: Option<Token>
    var expires: nat

    ghost function View(): Store reads this {
      Store(now, if token.Some? then Some(Entry(token.value, expires)) else None)
    }

    method SetNx(t: Token, ttl: nat) returns (ok: bool)
      modifies this
      ensures (View(), ok) == old(View()).SetNx(t, ttl)
    {
      if token.Some? && now < expires { return false; }
      token, expires := Some(t), now + ttl;
      return true;
    }

    method Extend(t: Token, ttl: nat) returns (ok: bool)
      modifies this
      ensures (View(), ok) == old(View()).Extend(t, ttl)
    {
      if token != Some(t) || expires <= now { return false; }
      expires := now + ttl;
      return true;
    }

    method Release(t: Token) returns (ok: bool)
      modifies this
      ensures (View(), ok) == old(View()).Release(t)
    {
      if token != Some(t) || expires <= now { return false; }
      token := None;
      return true;
    }
  }

  // ---------------------------------------------------------------- runs

  /** `Held`, as its holder knows it: when the server last told it that it has the
      key and for how long, whether it has left the lock, whether `lost` is set,
      and whether the server has ever refused to extend it. */
  datatype Held = Held(granted: nat, ttl: nat, released: bool, lost: bool, refused: bool) {
    /** Its last successful set or extension is younger than the time to live. */
    predicate Fresh(now: nat) { !released && now < granted + ttl }
  }

  /** The key, and every token ever used: None when its attempt gave no `Held`. */
  datatype System = System(store: Store, held: map<Token, Option<Held>>)

  /** What becomes of a command: it runs and is answered, it runs but the answer is
      lost, or it never arrives. In the last two cases the client sees an error. */
  datatype Net = Answered | Unanswered | Undelivered

  /** One atomic step: an attempt of `acquire`, a turn of `_keep`, the release at the
      end of `_holding`, or time passing, which is how the key expires. */
  datatype Event =
    | Acquire(token: Token, ttl: nat, net: Net)
    | Renew(token: Token, net: Net)
    | Free(token: Token, net: Net)
    | Pass(ms: nat)

  ghost predicate Holding(s: System, t: Token) { t in s.held && s.held[t].Some? && !s.held[t].value.released }

  /** Tokens are unique, and `_keep` stops once `lost` is set. */
  ghost predicate Enabled(s: System, e: Event) {
    match e
    case Acquire(token, ttl, _) => token !in s.held && ttl > 0
    case Renew(token, _) => Holding(s, token) && !s.held[token].value.lost
    case Free(token, _) => Holding(s, token)
    case Pass(_) => true
  }

  ghost function Step(s: System, e: Event): System
    requires Enabled(s, e)
  {
    match e
    case Acquire(token, ttl, net) =>
      var r := if net == Undelivered then (s.store, false) else s.store.SetNx(token, ttl);
      var held := if r.1 && net == Answered then Some(Held(s.store.now, ttl, false, false, false)) else None;
      System(r.0, s.held[token := held])
    case Renew(token, net) =>
      var h := s.held[token].value;
      var r := if net == Undelivered then (s.store, false) else s.store.Extend(token, h.ttl);
      var h' := if net != Answered then h.(lost := true)
                else if r.1 then h.(granted := s.store.now)
                else h.(lost := true, refused := true);
      System(r.0, s.held[token := Some(h')])
    case Free(token, net) =>
      var r := if net == Undelivered then s.store else s.store.Release(token).0;
      System(r, s.held[token := Some(s.held[token].value.(released := true))])
    case Pass(ms) => s.(store := s.store.(now := s.store.now + ms))
  }

  /** These steps, taken from s, lead to s'. */
  ghost predicate Leads(s: System, events: seq<Event>, s': System)
    decreases |events|
  {
    if events == [] then s' == s
    else Enabled(s, events[0]) && Leads(Step(s, events[0]), events[1..], s')
  }

  ghost predicate Start(s: System) { s.store.entry.None? && s.held == map[] }

  /** A fresh holder has the key, for at least as long as it believes; and one
      that was refused does not have it. */
  ghost predicate Inv(s: System) {
    && (forall t | t in s.held && s.held[t].Some? && s.held[t].value.Fresh(s.store.now) ::
          s.store.entry.Some? && s.store.entry.value.token == t
          && s.held[t].value.granted + s.held[t].value.ttl <= s.store.entry.value.expires)
    && (forall t | t in s.held && s.held[t].Some? :: s.held[t].value.granted <= s.store.now)
    && (forall t | t in s.held && s.held[t].Some? && s.held[t].value.refused :: s.store.Get() != Some(t))
    && (s.store.entry.Some? ==> s.store.entry.value.token in s.held)
    && (forall t | t in s.held && s.held[t].Some? && !s.held[t].value.released && !s.held[t].value.lost ::
         Accurate(s, t))
  }

  /** As long as `lost` is not set, the expiry of a holder's key is the one it knows. */
  ghost predicate Accurate(s: System, t: Token)
    requires t in s.held && s.held[t].Some?
  {
    s.store.entry.Some? && s.store.entry.value.token == t ==>
      s.store.entry.value.expires == s.held[t].value.granted + s.held[t].value.ttl
  }

  lemma AcquireKeepsInv(s: System, token: Token, ttl: nat, net: Net)
    requires Inv(s) && Enabled(s, Acquire(token, ttl, net))
    ensures Inv(Step(s, Acquire(token, ttl, net)))
  {
  }

  lemma RenewKeepsInv(s: System, token: Token, net: Net)
    requires Inv(s) && Enabled(s, Renew(token, net))
    ensures Inv(Step(s, Renew(token, net)))
  {
  }

  lemma FreeKeepsInv(s: System, e: Event)
    requires Inv(s) && Enabled(s, e) && (e.Free? || e.Pass?)
    ensures Inv(Step(s, e))
  {
  }

  lemma StepKeepsInv(s: System, e: Event)
    requires Inv(s) && Enabled(s, e)
    ensures Inv(Step(s, e))
  {
    hide Inv;
    match e
    case Acquire(token, ttl, net) => AcquireKeepsInv(s, token, ttl, net);
    case Renew(token, net) => RenewKeepsInv(s, token, net);
    case _ => FreeKeepsInv(s, e);
  }

  lemma {:induction false} RunKeepsInv(s: System, events: seq<Event>, s': System)
    requires Inv(s) && Leads(s, events, s')
    ensures Inv(s')
    decreases |events|
  {
    if events != [] {
      StepKeepsInv(s, events[0]);
      RunKeepsInv(Step(s, events[0]), events[1..], s');
    }
  }

  /** In every run, a holder that has not left and whose last successful set or
      extension is younger than its time to live owns the key; so no two do. */
  lemma MutualExclusion(start: System, events: seq<Event>, s: System, t: Token, u: Token)
    requires Start(start) && Leads(start, events, s)
    requires t in s.held && s.held[t].Some? && s.held[t].value.Fresh(s.store.now)
    ensures s.store.Get() == Some(t)
    ensures u in s.held && s.held[u].Some? && s.held[u].value.Fresh(s.store.now) ==> u == t
  {
    RunKeepsInv(start, events, s);
  }

  predicate StepOf(e: Event, t: Token) { !e.Pass? && e.token == t }

  /** Nobody else can take, extend or delete the key of a fresh holder, stale
      holders with a late release or renewal included. */
  lemma OthersAreHarmless(start: System, events: seq<Event>, s: System, t: Token, e: Event)
    requires Start(start) && Leads(start, events, s)
    requires t in s.held && s.held[t].Some? && s.held[t].value.Fresh(s.store.now)
    requires Enabled(s, e) && !StepOf(e, t) && !e.Pass?
    ensures Step(s, e).store == s.store && Step(s, e).held[t] == s.held[t]
  {
    RunKeepsInv(start, events, s);
  }

  /** A renewal that reaches the server in time is granted, so `lost` stays unset. */
  lemma RenewalInTime(start: System, events: seq<Event>, s: System, t: Token)
    requires Start(start) && Leads(start, events, s)
    requires Enabled(s, Renew(t, Answered)) && s.held[t].value.Fresh(s.store.now)
    ensures var h := Step(s, Renew(t, Answered)).held[t];
      h == Some(s.held[t].value.(granted := s.store.now)) && !h.value.lost
  {
    RunKeepsInv(start, events, s);
  }

  /** Until `lost` is set, a holder that has not left has the key exactly as long as
      its last successful set or extension is younger than its time to live. */
  lemma OwnsIffFresh(start: System, events: seq<Event>, s: System, t: Token)
    requires Start(start) && Leads(start, events, s)
    requires Holding(s, t) && !s.held[t].value.lost
    ensures s.store.Get() == Some(t) <==> s.held[t].value.Fresh(s.store.now)
  {
    RunKeepsInv(start, events, s);
  }

  /** In every run a renewal sets `lost` exactly when its answer does not arrive or the
      holder is no longer fresh; and when it does, the holder still has the key exactly
      when the answer did not arrive and the holder was fresh. */
  lemma LostStillOwnsIff(start: System, events: seq<Event>, s: System, t: Token, net: Net)
    requires Start(start) && Leads(start, events, s) && Enabled(s, Renew(t, net))
    ensures var y, young := Step(s, Renew(t, net)), s.held[t].value.Fresh(s.store.now);
      && y.held[t].Some? && (y.held[t].value.lost <==> net != Answered || !young)
      && (y.held[t].value.lost ==> (y.store.Get() == Some(t) <==> net != Answered && young))
  {
    RunKeepsInv(start, events, s);
  }

  // ---------------------------------------------------------------- progress

  /** A key nobody has is given to the first who asks, for exactly as long as asked. */
  lemma FreeKeyIsTaken(s: System, t: Token, ttl: nat, ms: nat)
    requires Enabled(s, Acquire(t, ttl, Answered)) && s.store.Get() == None
    ensures var y := Step(s, Acquire(t, ttl, Answered));
      && y.held == s.held[t := Some(Held(s.store.now, ttl, false, false, false))]
      && Step(y, Pass(ms)).store.Get() == if ms < ttl then Some(t) else None
  {
  }

  /** In every run a release that reaches the server, answered or not, leaves the key
      free if the holder had it, so the next one gets it; anybody else's key it leaves alone. */
  lemma ReleaseFreesTheKey(start: System, events: seq<Event>, s: System, t: Token, net: Net, u: Token, ttl: nat)
    requires Start(start) && Leads(start, events, s) && Holding(s, t) && net != Undelivered
    requires u !in s.held && ttl > 0
    ensures var y := Step(s, Free(t, net));
      && y.store.Get() == (if s.store.Get() == Some(t) then None else s.store.Get())
      && (s.held[t].value.Fresh(s.store.now) ==> Step(y, Acquire(u, ttl, Answered)).store.Get() == Some(u))
  {
    RunKeepsInv(start, events, s);
  }

  // ---------------------------------------------------------------- loss is final

  ghost predicate Gone(s: System, t: Token) { t in s.held && s.store.Get() != Some(t) }

  lemma {:induction false} GoneForGood(s: System, events: seq<Event>, s': System, t: Token)
    requires Gone(s, t) && Leads(s, events, s')
    ensures Gone(s', t)
    decreases |events|
  {
    if events != [] { GoneForGood(Step(s, events[0]), events[1..], s', t); }
  }

  /** Once the server has refused to extend a lock, no later step gives that holder the key back. */
  lemma RefusedForGood(start: System, events: seq<Event>, s: System, more: seq<Event>, s': System, t: Token)
    requires Start(start) && Leads(start, events, s) && Leads(s, more, s')
    requires t in s.held && s.held[t].Some? && s.held[t].value.refused
    ensures s'.store.Get() != Some(t)
  {
    RunKeepsInv(start, events, s);
    GoneForGood(s, more, s', t);
  }

  /** A set `lost` flag does not mean the key is gone: when the answer to a
      renewal is lost, the holder gives up a key that it still has. */
  lemma LostMayStillOwn(t: Token, s: System)
    requires s == System(Store(0, None), map[])
    ensures var events := [Acquire(t, 30, Answered), Pass(10), Renew(t, Unanswered)];
      exists s' ::
        Leads(s, events, s') && s'.store.Get() == Some(t) && t in s'.held && s'.held[t].Some? && s'.held[t].value.lost
  {
    var a := Step(s, Acquire(t, 30, Answered));
    var b := Step(a, Pass(10));
    var c := Step(b, Renew(t, Unanswered));
    assert Leads(c, [], c);
    assert Leads(b, [Renew(t, Unanswered)], c);
    assert [Pass(10), Renew(t, Unanswered)][1..] == [Renew(t, Unanswered)];
    assert Leads(a, [Pass(10), Renew(t, Unanswered)], c);
    var events := [Acquire(t, 30, Answered), Pass(10), Renew(t, Unanswered)];
    assert events[1..] == [Pass(10), Renew(t, Unanswered)];
    assert Leads(s, events, c);
  }
}
