/** The life of a turn's row, `database/repositories/turn.py`. Times are in microseconds. */
module TurnRow {
  import opened Options

  datatype Status = RUNNING | DONE | FAILED | CANCELLED

  type Instance = string

  const HOUR := 3_600_000_000

  datatype Row = Row(
    status: Status, instance: Instance, heartbeat: Option<int>, created: int, finished: Option<int>,
    attempts: nat, subagent: bool)
  {
    /** `beat`. */
    function Beat(now: int): Row { if status == RUNNING then this.(heartbeat := Some(now)) else this }

    /** `seal`. */
    function Seal(): Row { if status == RUNNING then this.(heartbeat := None) else this }

    /** `finish`, which does not look at the status the row has. */
    function Finish(final: Status, now: int): Row { this.(status := final, heartbeat := None, finished := Some(now)) }

    function Fail(now: int): Row { Finish(FAILED, now) }

    /** The owner has sealed the row or has been silent for longer than allowed. */
    predicate Claimable(claimer: Instance, staleAfter: Option<nat>, now: int) {
      staleAfter.None? || heartbeat.None? || instance == claimer || heartbeat.value < now - staleAfter.value
    }

    /** `claim_for_recovery`: the row, and whether it was claimed. */
    function Claim(claimer: Instance, limit: nat, staleAfter: Option<nat>, now: int): (Row, bool) {
      if status != RUNNING || subagent || !Claimable(claimer, staleAfter, now) then (this, false)
      else if attempts >= limit then (Fail(now), false)
      else (this.(attempts := attempts + 1, instance := claimer, heartbeat := Some(now)), true)
    }

    /** `reap_stale`. */
    function Reap(staleAfter: nat, now: int): Row {
      var seen := if heartbeat.Some? then heartbeat.value else created;
      if status == RUNNING && seen < now - staleAfter && (attempts >= 3 || created < now - HOUR) then Fail(now)
      else this
    }
  }

  class Turn {
    var row: Row

    /** `create`. */
    constructor (instance: Instance, now: int, subagent: bool)
      ensures row == Row(RUNNING, instance, Some(now), now, None, 0, subagent)
    {
      row := Row(RUNNING, instance, Some(now), now, None, 0, subagent);
    }

    method Beat(now: int)
      modifies this
      ensures row == old(row).Beat(now)
    {
      if row.status == RUNNING { row := row.(heartbeat := Some(now)); }
    }

    method Seal()
      modifies this
      ensures row == old(row).Seal()
    {
      if row.status == RUNNING { row := row.(heartbeat := None); }
    }

    method Finish(final: Status, now: int)
      modifies this
      ensures row == old(row).Finish(final, now)
    {
      row := row.(status := final);
      row := row.(heartbeat := None);
      row := row.(finished := Some(now));
    }

    method ClaimForRecovery(claimer: Instance, limit: nat, staleAfter: Option<nat>, now: int) returns (claimed: bool)
      modifies this
      ensures (row, claimed) == old(row).Claim(claimer, limit, staleAfter, now)
    {
      if row.status != RUNNING || row.subagent { return false; }
      if staleAfter.Some? && row.heartbeat.Some? && row.instance != claimer {
        var cutoff := now - staleAfter.value;
        if row.heartbeat.value >= cutoff { return false; }
      }
      if row.attempts >= limit {
        row := row.(status := FAILED, heartbeat := None, finished := Some(now));
        return false;
      }
      row := row.(attempts := row.attempts + 1);
      row := row.(instance := claimer);
      row := row.(heartbeat := Some(now));
      return true;
    }

    method ReapStale(staleAfter: nat, now: int) returns (reaped: bool)
      modifies this
      ensures row == old(row).Reap(staleAfter, now) && (reaped <==> row != old(row))
    {
      var cutoff, ancient := now - staleAfter, now - HOUR;
      var seen := if row.heartbeat.Some? then row.heartbeat.value else row.created;
      if row.status != RUNNING || seen >= cutoff || (row.attempts < 3 && row.created >= ancient) { return false; }
      row := row.(status := FAILED, heartbeat := None, finished := Some(now));
      return true;
    }
  }

  // ---------------------------------------------------------------- runs

  datatype Event =
    | Beat(at: int)
    | Seal(at: int)
    | Finish(final: Status, at: int)
    | Claim(claimer: Instance, staleAfter: nat, at: int)
    | Reap(staleAfter: nat, at: int)

  /** The supervisor's limit of recoveries. */
  const MAX_RECOVERIES := 3

  function Step(r: Row, e: Event): Row {
    match e
    case Beat(at) => r.Beat(at)
    case Seal(_) => r.Seal()
    case Finish(final, at) => r.Finish(final, at)
    case Claim(claimer, staleAfter, at) => r.Claim(claimer, MAX_RECOVERIES, Some(staleAfter), at).0
    case Reap(staleAfter, at) => r.Reap(staleAfter, at)
  }

  /** Time goes forward, and `finish` gets a final status. */
  ghost predicate Legal(start: int, events: seq<Event>)
    decreases |events|
  {
    events == [] ||
    (start <= events[0].at && (events[0].Finish? ==> events[0].final != RUNNING) && Legal(events[0].at, events[1..]))
  }

  function Run(r: Row, events: seq<Event>): Row
    decreases |events|
  {
    if events == [] then r else Run(Step(r, events[0]), events[1..])
  }

  function Created(instance: Instance, now: int, subagent: bool): Row {
    Row(RUNNING, instance, Some(now), now, None, 0, subagent)
  }

  /** A final row has no heartbeat and a finish time; recoveries stay within the limit. */
  predicate Sound(r: Row) {
    && (r.status != RUNNING ==> r.heartbeat.None? && r.finished.Some?)
    && r.attempts <= MAX_RECOVERIES
  }

  /** In every run: a turn that has left RUNNING never runs again, final rows are
      sound, and no more than three recoveries are counted. */
  lemma {:induction false} RunIsSound(r: Row, now: int, events: seq<Event>)
    requires Sound(r) && Legal(now, events)
    ensures Sound(Run(r, events))
    ensures r.status != RUNNING ==> Run(r, events).status != RUNNING && Run(r, events).instance == r.instance
    decreases |events|
  {
    if events != [] { RunIsSound(Step(r, events[0]), events[0].at, events[1..]); }
  }

  // ---------------------------------------------------------------- change of owner

  /** A beat of the running turn, or a recovery of it. */
  predicate IsSign(r: Row, e: Event) {
    r.status == RUNNING && (e.Beat? || (e.Claim? && r.Claim(e.claimer, MAX_RECOVERIES, Some(e.staleAfter), e.at).1))
  }

  /** The last sign of life of the owner in a run that began with one at `last`. */
  function LastSign(r: Row, events: seq<Event>, last: int): int
    decreases |events|
  {
    if events == [] then last
    else LastSign(Step(r, events[0]), events[1..], if IsSign(r, events[0]) then events[0].at else last)
  }

  /** Sealed since its last sign of life. */
  function Sealed(r: Row, events: seq<Event>, was: bool): bool
    decreases |events|
  {
    if events == [] then was
    else Sealed(Step(r, events[0]), events[1..], events[0].Seal? || (was && !IsSign(r, events[0])))
  }

  lemma {:induction false} HeartbeatTells(r: Row, now: int, events: seq<Event>, last: int, was: bool)
    requires Legal(now, events) && (r.status == RUNNING ==> r.heartbeat == if was then None else Some(last))
    ensures var s := Run(r, events);
      s.status == RUNNING ==> s.heartbeat == if Sealed(r, events, was) then None else Some(LastSign(r, events, last))
    decreases |events|
  {
    if events != [] {
      var e := events[0];
      var sign := IsSign(r, e);
      HeartbeatTells(Step(r, e), e.at, events[1..], if sign then e.at else last, e.Seal? || (was && !sign));
    }
  }

  /** When a recovery gives a turn to another instance, its owner had sealed the
      turn, or had given no sign of life for longer than `stale_after`. */
  lemma OwnersAreSeparated(instance: Instance, start: int, subagent: bool, events: seq<Event>, claimer: Instance,
          staleAfter: nat, now: int)
    requires Legal(start, events)
    requires var r := Run(Created(instance, start, subagent), events);
      r.Claim(claimer, MAX_RECOVERIES, Some(staleAfter), now).1 && r.instance != claimer
    ensures var c := Created(instance, start, subagent);
      Sealed(c, events, false) || LastSign(c, events, start) < now - staleAfter
  {
    HeartbeatTells(Created(instance, start, subagent), start, events, start, false);
  }

  /** The owner beats, nothing happens later than `gap` after its last beat, and the
      others, who try to claim the turn or to reap it, allow at least that much silence. */
  ghost predicate Beaten(owner: Instance, last: int, events: seq<Event>, gap: nat)
    decreases |events|
  {
    events == [] ||
    var e := events[0];
    && last <= e.at <= last + gap
    && (match e
        case Beat(_) => true
        case Claim(claimer, staleAfter, _) => claimer != owner && gap <= staleAfter
        case Reap(staleAfter, _) => gap <= staleAfter
        case _ => false)
    && Beaten(owner, if e.Beat? then e.at else last, events[1..], gap)
  }

  /** An owner whose beats are never further apart than that keeps its turn, whatever the others try. */
  lemma {:induction false} LiveOwnerKeepsTurn(r: Row, last: int, events: seq<Event>, gap: nat)
    requires r.status == RUNNING && r.heartbeat == Some(last) && Beaten(r.instance, last, events, gap)
    ensures var s := Run(r, events);
      s.status == RUNNING && s.instance == r.instance && s.attempts == r.attempts && s.heartbeat.Some?
    decreases |events|
  {
    if events != [] {
      var e := events[0];
      LiveOwnerKeepsTurn(Step(r, e), if e.Beat? then e.at else last, events[1..], gap);
    }
  }

  // ---------------------------------------------------------------- what decides

  /** Since its start the turn's owner has sealed it and not beaten since, or has
      been silent for longer than allowed. */
  ghost predicate Silent(r: Row, events: seq<Event>, start: int, staleAfter: nat, now: int) {
    Sealed(r, events, false) || LastSign(r, events, start) < now - staleAfter
  }

  /** In every run a recovery is granted exactly to a turn that runs, is no
      sub-agent's, was recovered less than three times, and is the claimer's own
      or silent; the same claim on one recovered three times fails it, and any
      other leaves it as it is. */
  lemma ClaimedIff(instance: Instance, start: int, subagent: bool, events: seq<Event>, claimer: Instance,
          staleAfter: nat, now: int)
    requires Legal(start, events)
    ensures var c := Created(instance, start, subagent);
      var r := Run(c, events);
      var (s, claimed) := r.Claim(claimer, 3, Some(staleAfter), now);
      var due := r.status == RUNNING && !r.subagent
        && (r.instance == claimer || Silent(c, events, start, staleAfter, now));
      && (claimed <==> due && r.attempts < 3)
      && s == if !due then r
              else if r.attempts < 3 then r.(attempts := r.attempts + 1, instance := claimer, heartbeat := Some(now))
              else r.(status := FAILED, heartbeat := None, finished := Some(now))
  {
    HeartbeatTells(Created(instance, start, subagent), start, events, start, false);
  }

  /** In every run a sweep fails exactly the turns that run, have been recovered
      three times or were created more than an hour ago, and have been silent for
      longer than allowed, since their creation if they are sealed. */
  lemma ReapedIff(instance: Instance, start: int, subagent: bool, events: seq<Event>, staleAfter: nat, now: int)
    requires Legal(start, events)
    ensures var c := Created(instance, start, subagent);
      var r := Run(c, events);
      var since := if Sealed(c, events, false) then start else LastSign(c, events, start);
      r.Reap(staleAfter, now) ==
        if r.status == RUNNING && since < now - staleAfter && (r.attempts >= 3 || start < now - 3_600_000_000)
        then r.(status := FAILED, heartbeat := None, finished := Some(now)) else r
  {
    var c := Created(instance, start, subagent);
    HeartbeatTells(c, start, events, start, false);
    CreatedStays(c, events);
  }

  lemma {:induction false} CreatedStays(r: Row, events: seq<Event>)
    ensures Run(r, events).created == r.created && Run(r, events).subagent == r.subagent
    decreases |events|
  {
    if events != [] { CreatedStays(Step(r, events[0]), events[1..]); }
  }

  /** The row keeps the last final status it was given and the time of that,
      whatever is tried with it afterwards. */
  lemma FinishIsKept(r: Row, final: Status, at: int, events: seq<Event>)
    requires final != RUNNING && forall e | e in events :: !e.Finish?
    ensures Run(r, [Finish(final, at)] + events) == r.(status := final, heartbeat := None, finished := Some(at))
  {
    assert ([Finish(final, at)] + events)[1..] == events;
    FinalStays(r.Finish(final, at), events);
  }

  lemma {:induction false} FinalStays(r: Row, events: seq<Event>)
    requires r.status != RUNNING && forall e | e in events :: !e.Finish?
    ensures Run(r, events) == r
    decreases |events|
  {
    if events != [] {
      assert events[0] in events;
      FinalStays(r, events[1..]);
    }
  }
}
