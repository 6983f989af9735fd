/**
 * The rebuild rate limiter and the steps of `fire`
 * (crates/specton-rebuild/src/rate_limit.rs, crates/specton-rebuild/src/service.rs).
 *
 * Any number of `fire` calls run at once. Each SQL statement is one atomic step;
 * between two steps of one call anything else may happen, midnight included: the
 * database picks the bucket of the current day at every statement.
 */
module RateLimit {
  import opened Common

  datatype Slot = Slot(subscription: string, downstream: string)

  datatype Bucket = Bucket(slot: Slot, day: int)

  /** `rebuild_rate`: firings per subscription, downstream and day. */
  type Table = map<Bucket, nat>

  const INT_MAX: nat := 0x7fff_ffff

  function Fired(t: Table, b: Bucket): nat {
    if b in t then t[b] else 0
  }

  /** The cap a limiter is built with. */
  function Cap(perDay: int): (c: nat)
    ensures c >= 1 && c >= perDay && (perDay >= 1 ==> c == perDay) && (perDay < 1 ==> c == 1)
  {
    if perDay < 1 then 1 else perDay
  }

  /** The upsert fails when the 32-bit counter column would overflow. */
  function Incremented(t: Table, b: Bucket): Option<Table> {
    if Fired(t, b) >= INT_MAX then None else Some(t[b := Fired(t, b) + 1])
  }

  function Decremented(t: Table, b: Bucket): Table {
    if b in t then t[b := if t[b] == 0 then 0 else t[b] - 1] else t
  }

  /** Taking back what was just counted gives every counter its old value. */
  lemma UndoRestores(t: Table, b: Bucket, c: Bucket)
    requires Incremented(t, b).Some?
    ensures Fired(Decremented(Incremented(t, b).value, b), c) == Fired(t, c)
  {
  }

  class Limiter {
    var table: Table
    const cap: nat

    constructor (table: Table, perDay: int)
      ensures this.table == table && cap == Cap(perDay)
    {
      this.table := table;
      cap := if perDay < 1 then 1 else perDay;
    }

    /** The counter goes up whether or not the caller may fire. */
    method CheckAndIncrement(b: Bucket) returns (allowed: Option<bool>)
      modifies this
      ensures allowed.None? ==> table == old(table) && Incremented(old(table), b) == None
      ensures allowed.Some? ==> Incremented(old(table), b) == Some(table) && allowed.value == (Fired(table, b) <= cap)
      ensures allowed.None? <==> Fired(old(table), b) >= INT_MAX
      ensures allowed.Some? ==> Fired(table, b) == Fired(old(table), b) + 1
      ensures forall other :: other != b ==> Fired(table, other) == Fired(old(table), other)
    {
      var fired;
      if b in table {
        if table[b] >= INT_MAX {
          return None;
        }
        fired := table[b] + 1;
      } else {
        fired := 1;
      }
      table := table[b := fired];
      return Some(fired <= cap);
    }

    /** Best effort: `lost` says that the statement never reached the database. */
    method DecrementOnFailure(b: Bucket, lost: bool)
      modifies this
      ensures table == if lost then old(table) else Decremented(old(table), b)
      ensures Fired(table, b) == Fired(old(table), b) - if lost || Fired(old(table), b) == 0 then 0 else 1
      ensures forall other :: other != b ==> Fired(table, other) == Fired(old(table), other)
    {
      if !lost && b in table {
        table := table[b := if table[b] > 0 then table[b] - 1 else 0];
      }
    }

    /** One `fire` call with nothing in between; the environment picks what fails. */
    method Fire(b: Bucket, configured: bool, delivered: bool, lost: bool) returns (r: FireResult)
      modifies this
      ensures r == LimiterError <==> Fired(old(table), b) >= INT_MAX
      ensures r == RateLimited <==> cap <= Fired(old(table), b) < INT_MAX
      ensures r == ConfigError <==> Fired(old(table), b) < cap && Fired(old(table), b) < INT_MAX && !configured
      ensures r == Sent <==> Fired(old(table), b) < cap && Fired(old(table), b) < INT_MAX && configured && delivered
      ensures Fired(table, b) == Fired(old(table), b) + if r == LimiterError || (r == EmitFailed && !lost) then 0 else 1
      ensures forall other :: other != b ==> Fired(table, other) == Fired(old(table), other)
    {
      var allowed := CheckAndIncrement(b);
      if allowed.None? {
        return LimiterError;
      }
      if !allowed.value {
        return RateLimited;
      }
      if !configured {
        return ConfigError;
      }
      if delivered {
        return Sent;
      }
      DecrementOnFailure(b, lost);
      return EmitFailed;
    }
  }

  datatype FireResult = LimiterError | RateLimited | ConfigError | Sent | EmitFailed

  // ---- Interleaved calls ----

  /** How far a call has come; `day` is the day its increment was counted on. */
  datatype Phase =
    | Ready
    | Allowed(day: int)
    | Emitting(day: int)
    | Undoing(day: int)
    | Delivered(day: int)
    | Finished

  datatype Call = Call(slot: Slot, phase: Phase)

  /** `strayed` counts, per bucket, decrements that belonged to another day's increment. */
  datatype Sys = Sys(today: int, table: Table, calls: map<nat, Call>, strayed: Table)

  datatype Step =
    | Start(id: nat, slot: Slot)
    | Check(id: nat)
    | Configure(id: nat, ok: bool)
    | Emit(id: nat, ok: bool)
    | Undo(id: nat, lost: bool)
    | Midnight

  function SetPhase(calls: map<nat, Call>, id: nat, p: Phase): map<nat, Call>
    requires id in calls
  {
    calls[id := calls[id].(phase := p)]
  }

  predicate Enabled(s: Sys, step: Step) {
    match step
    case Start(id, _) => id !in s.calls
    case Check(id) => id in s.calls && s.calls[id].phase.Ready?
    case Configure(id, _) => id in s.calls && s.calls[id].phase.Allowed?
    case Emit(id, _) => id in s.calls && s.calls[id].phase.Emitting?
    case Undo(id, _) => id in s.calls && s.calls[id].phase.Undoing?
    case Midnight => true
  }

  function Next(caps: Slot -> int, s: Sys, step: Step): Sys
    requires Enabled(s, step)
  {
    match step
    case Start(id, slot) => s.(calls := s.calls[id := Call(slot, Ready)])
    case Check(id) =>
      var slot := s.calls[id].slot;
      var b := Bucket(slot, s.today);
      var table := Incremented(s.table, b);
      if table.None? then s.(calls := SetPhase(s.calls, id, Finished))
      else if Fired(table.value, b) > Cap(caps(slot)) then
        s.(table := table.value, calls := SetPhase(s.calls, id, Finished))
      else s.(table := table.value, calls := SetPhase(s.calls, id, Allowed(s.today)))
    case Configure(id, ok) =>
      s.(calls := SetPhase(s.calls, id, if ok then Emitting(s.calls[id].phase.day) else Finished))
    case Emit(id, ok) =>
      var day := s.calls[id].phase.day;
      s.(calls := SetPhase(s.calls, id, if ok then Delivered(day) else Undoing(day)))
    case Undo(id, lost) =>
      var b := Bucket(s.calls[id].slot, s.today);
      var done := s.(calls := SetPhase(s.calls, id, Finished));
      if lost then done
      else done.(table := Decremented(s.table, b),
                 strayed := if s.calls[id].phase.day != s.today && Fired(s.table, b) > 0
                            then s.strayed[b := Fired(s.strayed, b) + 1] else s.strayed)
    case Midnight => s.(today := s.today + 1)
  }

  // ---- What every step keeps ----

  /** Calls whose increment for the bucket still stands. */
  ghost predicate Holds(c: Call, b: Bucket) {
    c.slot == b.slot && !c.phase.Ready? && !c.phase.Finished? && c.phase.day == b.day
  }

  /** Of those, the calls that may still deliver or have delivered. */
  ghost predicate Active(c: Call, b: Bucket) {
    Holds(c, b) && !c.phase.Undoing?
  }

  /** Emissions in flight plus emissions sent, for one bucket. */
  ghost predicate Emission(c: Call, b: Bucket) {
    Holds(c, b) && (c.phase.Emitting? || c.phase.Delivered?)
  }

  ghost function Holders(s: Sys, b: Bucket): set<nat> {
    set id | id in s.calls && Holds(s.calls[id], b)
  }

  ghost function Actives(s: Sys, b: Bucket): set<nat> {
    set id | id in s.calls && Active(s.calls[id], b)
  }

  ghost function Emissions(s: Sys, b: Bucket): set<nat> {
    set id | id in s.calls && Emission(s.calls[id], b)
  }

  ghost predicate Counted(caps: Slot -> int, s: Sys, b: Bucket) {
    && |Holders(s, b)| <= Fired(s.table, b) + Fired(s.strayed, b)
    && |Actives(s, b)| <= Cap(caps(b.slot)) + Fired(s.strayed, b)
  }

  ghost predicate Inv(caps: Slot -> int, s: Sys) {
    forall b: Bucket :: Counted(caps, s, b)
  }

  /** One call moved: each set gains it or loses it. */
  lemma MoveOne(s: Sys, t: Sys, id: nat, b: Bucket)
    requires id in t.calls && s.calls.Keys <= t.calls.Keys <= s.calls.Keys + {id}
    requires forall k :: k in s.calls && k != id ==> t.calls[k] == s.calls[k]
    ensures Holders(t, b) == if Holds(t.calls[id], b) then Holders(s, b) + {id} else Holders(s, b) - {id}
    ensures Actives(t, b) == if Active(t.calls[id], b) then Actives(s, b) + {id} else Actives(s, b) - {id}
  {
  }

  lemma CheckKeepsCounted(caps: Slot -> int, s: Sys, id: nat, b: Bucket)
    requires Enabled(s, Check(id)) && Counted(caps, s, b)
    ensures Counted(caps, Next(caps, s, Check(id)), b)
  {
    var t := Next(caps, s, Check(id));
    MoveOne(s, t, id, b);
    assert id !in Holders(s, b) && id !in Actives(s, b);
    assert Actives(t, b) <= Holders(t, b);
    SubsetSize(Actives(t, b), Holders(t, b));
  }

  lemma SubsetSize(a: set<nat>, b: set<nat>)
    requires a <= b
    ensures |a| <= |b|
  {
    assert b == a + (b - a);
  }

  lemma UndoKeepsCounted(caps: Slot -> int, s: Sys, id: nat, lost: bool, b: Bucket)
    requires Enabled(s, Undo(id, lost)) && Counted(caps, s, b)
    ensures Counted(caps, Next(caps, s, Undo(id, lost)), b)
  {
    var t := Next(caps, s, Undo(id, lost));
    MoveOne(s, t, id, b);
    assert id !in Actives(s, b);
    if Holds(s.calls[id], b) {
      assert id in Holders(s, b);
    }
  }

  /** A step that touches no counter only lets go of places. */
  lemma MoveLetsGo(caps: Slot -> int, s: Sys, step: Step, b: Bucket)
    requires Enabled(s, step) && (step.Start? || step.Configure? || step.Emit?)
    ensures var t := Next(caps, s, step);
            t.table == s.table && t.strayed == s.strayed && Holders(t, b) <= Holders(s, b)
                && Actives(t, b) <= Actives(s, b)
  {
    MoveOne(s, Next(caps, s, step), step.id, b);
  }

  lemma MoveKeepsCounted(caps: Slot -> int, s: Sys, step: Step, b: Bucket)
    requires Enabled(s, step) && (step.Start? || step.Configure? || step.Emit?) && Counted(caps, s, b)
    ensures Counted(caps, Next(caps, s, step), b)
  {
    var t := Next(caps, s, step);
    MoveLetsGo(caps, s, step, b);
    SubsetSize(Holders(t, b), Holders(s, b));
    SubsetSize(Actives(t, b), Actives(s, b));
  }

  lemma StepKeepsInv(caps: Slot -> int, s: Sys, step: Step)
    requires Inv(caps, s) && Enabled(s, step)
    ensures Inv(caps, Next(caps, s, step))
  {
    forall b: Bucket
      ensures Counted(caps, Next(caps, s, step), b)
    {
      assert Counted(caps, s, b);
      match step
      case Check(id) => CheckKeepsCounted(caps, s, id, b);
      case Undo(id, lost) => UndoKeepsCounted(caps, s, id, lost, b);
      case Midnight => assert Holders(Next(caps, s, step), b) == Holders(s, b)
          && Actives(Next(caps, s, step), b) == Actives(s, b);
      case _ => MoveKeepsCounted(caps, s, step, b);
    }
  }

  // ---- Every run ----

  ghost predicate Runnable(caps: Slot -> int, s: Sys, steps: seq<Step>)
    decreases |steps|
  {
    steps == [] || (Enabled(s, steps[0]) && Runnable(caps, Next(caps, s, steps[0]), steps[1..]))
  }

  ghost function Run(caps: Slot -> int, s: Sys, steps: seq<Step>): Sys
    requires Runnable(caps, s, steps)
    decreases |steps|
  {
    if steps == [] then s else Run(caps, Next(caps, s, steps[0]), steps[1..])
  }

  lemma {:induction false} RunKeepsInv(caps: Slot -> int, s: Sys, steps: seq<Step>)
    requires Inv(caps, s) && Runnable(caps, s, steps)
    ensures Inv(caps, Run(caps, s, steps))
    decreases |steps|
  {
    if steps != [] {
      StepKeepsInv(caps, s, steps[0]);
      RunKeepsInv(caps, Next(caps, s, steps[0]), steps[1..]);
    }
  }

  /** The step takes back a count of the bucket that a call of another day made. */
  ghost predicate Strays(s: Sys, step: Step, b: Bucket)
    requires Enabled(s, step)
  {
    && step.Undo? && !step.lost && s.calls[step.id].slot == b.slot && s.today == b.day
    && s.calls[step.id].phase.day != b.day && Fired(s.table, b) > 0
  }

  ghost function StraysIn(caps: Slot -> int, s: Sys, steps: seq<Step>, b: Bucket): nat
    requires Runnable(caps, s, steps)
    decreases |steps|
  {
    if steps == [] then 0
    else (if Strays(s, steps[0], b) then 1 else 0) + StraysIn(caps, Next(caps, s, steps[0]), steps[1..], b)
  }

  /** What the bound allows for is the number of undos that hit another day's count, and no more. */
  lemma {:induction false} StrayedExactly(caps: Slot -> int, s: Sys, steps: seq<Step>, b: Bucket)
    requires Runnable(caps, s, steps)
    ensures Fired(Run(caps, s, steps).strayed, b) == Fired(s.strayed, b) + StraysIn(caps, s, steps, b)
    decreases |steps|
  {
    if steps != [] {
      StrayedExactly(caps, Next(caps, s, steps[0]), steps[1..], b);
    }
  }

  lemma {:induction false} OneStepMore(caps: Slot -> int, s: Sys, steps: seq<Step>, step: Step)
    requires Runnable(caps, s, steps) && Enabled(Run(caps, s, steps), step)
    ensures Runnable(caps, s, steps + [step])
    ensures Run(caps, s, steps + [step]) == Next(caps, Run(caps, s, steps), step)
    decreases |steps|
  {
    if steps == [] {
      assert steps + [step] == [step] && [step][1..] == [];
    } else {
      OneStepMore(caps, Next(caps, s, steps[0]), steps[1..], step);
      assert (steps + [step])[1..] == steps[1..] + [step] && (steps + [step])[0] == steps[0];
    }
  }

  /**
   * What one call alone does to the counters, and whether it delivers: the increment stands
   * unless the counter is full or a failed delivery is taken back.
   */
  ghost predicate Fires(caps: Slot -> int, s: Sys, t: Sys, id: nat, slot: Slot, configured: bool, delivered: bool,
                        lost: bool)
  {
    var b, cap := Bucket(slot, s.today), Cap(caps(slot));
    var was := Fired(s.table, b);
    && id in t.calls && t.calls == s.calls[id := t.calls[id]] && t.calls[id].slot == slot
    && t.today == s.today && t.strayed == s.strayed
    && t.calls[id].phase ==
       (if was < cap && was < INT_MAX && configured && delivered then Delivered(s.today) else Finished)
    && Fired(t.table, b) ==
       was + (if was >= INT_MAX || (was < cap && configured && !delivered && !lost) then 0 else 1)
    && forall other :: other != b ==> Fired(t.table, other) == Fired(s.table, other)
  }

  /** The state after the check of a new call: allowed below the cap, and counted unless the counter is full. */
  ghost predicate Checked(caps: Slot -> int, s: Sys, u: Sys, id: nat, slot: Slot) {
    var b := Bucket(slot, s.today);
    var was := Fired(s.table, b);
    && u.today == s.today && u.strayed == s.strayed
    && u.calls ==
       s.calls[id := Call(slot, if was < Cap(caps(slot)) && was < INT_MAX then Allowed(s.today) else Finished)]
    && Fired(u.table, b) == was + (if was >= INT_MAX then 0 else 1)
    && forall other :: other != b ==> Fired(u.table, other) == Fired(s.table, other)
  }

  lemma CheckCounts(caps: Slot -> int, s: Sys, id: nat, slot: Slot)
    requires id !in s.calls
    ensures Checked(caps, s, Next(caps, Next(caps, s, Start(id, slot)), Check(id)), id, slot)
  {
  }

  lemma ConfigureAndEmit(caps: Slot -> int, u: Sys, id: nat, delivered: bool)
    requires Enabled(u, Configure(id, true))
    ensures var v := Next(caps, u, Configure(id, true));
            && Enabled(v, Emit(id, delivered))
            && var day := u.calls[id].phase.day;
               Next(caps, v, Emit(id, delivered)) ==
               u.(calls := SetPhase(u.calls, id, if delivered then Delivered(day) else Undoing(day)))
  {
  }

  lemma UndoTakesBack(caps: Slot -> int, s: Sys, u: Sys, v: Sys, id: nat, slot: Slot, lost: bool)
    requires Checked(caps, s, u, id, slot) && u.calls[id].phase == Allowed(s.today)
    requires v == u.(calls := SetPhase(u.calls, id, Undoing(s.today)))
    ensures Fires(caps, s, Next(caps, v, Undo(id, lost)), id, slot, true, false, lost)
  {
  }

  /** The rest of a call that was allowed. */
  lemma RestOfFire(caps: Slot -> int, s: Sys, u: Sys, steps: seq<Step>, id: nat, slot: Slot, delivered: bool,
                   lost: bool)
    returns (more: seq<Step>)
    requires Runnable(caps, s, steps) && Run(caps, s, steps) == u
    requires Checked(caps, s, u, id, slot) && u.calls[id].phase == Allowed(s.today)
    ensures steps <= more && Runnable(caps, s, more)
    ensures Fires(caps, s, Run(caps, s, more), id, slot, true, delivered, lost)
  {
    OneStepMore(caps, s, steps, Configure(id, true));
    more := steps + [Configure(id, true)];
    ConfigureAndEmit(caps, u, id, delivered);
    OneStepMore(caps, s, more, Emit(id, delivered));
    more := more + [Emit(id, delivered)];
    if !delivered {
      UndoTakesBack(caps, s, u, Run(caps, s, more), id, slot, lost);
      OneStepMore(caps, s, more, Undo(id, lost));
      more := more + [Undo(id, lost)];
    }
  }

  /** The steps of a call that nothing comes between are one `fire`. */
  lemma AloneIsFire(caps: Slot -> int, s: Sys, id: nat, slot: Slot, configured: bool, delivered: bool, lost: bool)
    returns (steps: seq<Step>)
    requires id !in s.calls
    ensures Runnable(caps, s, steps) && steps != [] && steps[0] == Start(id, slot)
    ensures Fires(caps, s, Run(caps, s, steps), id, slot, configured, delivered, lost)
  {
    OneStepMore(caps, s, [], Start(id, slot));
    OneStepMore(caps, s, [] + [Start(id, slot)], Check(id));
    CheckCounts(caps, s, id, slot);
    steps := [] + [Start(id, slot)] + [Check(id)];
    var u := Run(caps, s, steps);
    if u.calls[id].phase.Allowed? {
      if configured {
        steps := RestOfFire(caps, s, u, steps, id, slot, delivered, lost);
      } else {
        OneStepMore(caps, s, steps, Configure(id, false));
        steps := steps + [Configure(id, false)];
      }
    }
  }

  /** No call has run yet; the counters may hold anything. */
  ghost predicate Initial(s: Sys) {
    s.calls == map[] && s.strayed == map[]
  }

  /**
   * In every interleaving, what is in flight or sent for one subscription, downstream
   * and day never exceeds the cap plus the decrements that strayed into that day from
   * calls counted on an earlier one.
   */
  lemma EmissionsBounded(caps: Slot -> int, s: Sys, steps: seq<Step>, b: Bucket)
    requires Initial(s) && Runnable(caps, s, steps)
    ensures var t := Run(caps, s, steps);
            |Emissions(t, b)| <= Cap(caps(b.slot)) + Fired(t.strayed, b)
  {
    forall c: Bucket
      ensures Counted(caps, s, c)
    {
      assert Holders(s, c) == {} && Actives(s, c) == {};
    }
    RunKeepsInv(caps, s, steps);
    var t := Run(caps, s, steps);
    assert Counted(caps, t, b);
    SubsetSize(Emissions(t, b), Actives(t, b));
  }

  /** Every undo of the run happens on the day its call was counted. */
  ghost predicate SameDay(caps: Slot -> int, s: Sys, steps: seq<Step>)
    requires Runnable(caps, s, steps)
    decreases |steps|
  {
    steps == [] ||
    ((steps[0].Undo? ==> s.calls[steps[0].id].phase.day == s.today)
        && SameDay(caps, Next(caps, s, steps[0]), steps[1..]))
  }

  lemma {:induction false} SameDayNeverStrays(caps: Slot -> int, s: Sys, steps: seq<Step>)
    requires Runnable(caps, s, steps) && SameDay(caps, s, steps)
    ensures Run(caps, s, steps).strayed == s.strayed
    decreases |steps|
  {
    if steps != [] {
      SameDayNeverStrays(caps, Next(caps, s, steps[0]), steps[1..]);
    }
  }

  /** Without an undo across midnight the cap holds outright. */
  lemma CapHoldsWithinTheDay(caps: Slot -> int, s: Sys, steps: seq<Step>, b: Bucket)
    requires Initial(s) && Runnable(caps, s, steps) && SameDay(caps, s, steps)
    ensures |Emissions(Run(caps, s, steps), b)| <= Cap(caps(b.slot))
  {
    EmissionsBounded(caps, s, steps, b);
    SameDayNeverStrays(caps, s, steps);
  }

  /** The four steps of one call that is allowed and configured. */
  function FireSteps(id: nat, slot: Slot, ok: bool): seq<Step> {
    [Start(id, slot), Check(id), Configure(id, true), Emit(id, ok)]
  }

  function AfterFire(s: Sys, id: nat, slot: Slot, ok: bool): Sys {
    var b := Bucket(slot, s.today);
    s.(table := s.table[b := Fired(s.table, b) + 1],
       calls := s.calls[id := Call(slot, if ok then Delivered(s.today) else Undoing(s.today))])
  }

  lemma FireRuns(caps: Slot -> int, s: Sys, id: nat, slot: Slot, ok: bool, rest: seq<Step>)
    requires id !in s.calls && Fired(s.table, Bucket(slot, s.today)) < Cap(caps(slot))
             && Fired(s.table, Bucket(slot, s.today)) < INT_MAX
    requires Runnable(caps, AfterFire(s, id, slot, ok), rest)
    ensures Runnable(caps, s, FireSteps(id, slot, ok) + rest)
    ensures Run(caps, s, FireSteps(id, slot, ok) + rest) == Run(caps, AfterFire(s, id, slot, ok), rest)
  {
    var steps := FireSteps(id, slot, ok) + rest;
    var s1 := Next(caps, s, steps[0]);
    var s2 := Next(caps, s1, steps[1]);
    var s3 := Next(caps, s2, steps[2]);
    assert Next(caps, s3, steps[3]) == AfterFire(s, id, slot, ok);
    assert steps[1..][0] == steps[1] && steps[1..][1..] == steps[2..];
    assert steps[2..][0] == steps[2] && steps[2..][1..] == steps[3..];
    assert steps[3..][0] == steps[3] && steps[3..][1..] == rest;
    assert Runnable(caps, s3, steps[3..]) && Run(caps, s3, steps[3..]) == Run(caps, AfterFire(s, id, slot, ok), rest);
    assert Runnable(caps, s2, steps[2..]) && Run(caps, s2, steps[2..]) == Run(caps, s3, steps[3..]);
    assert Runnable(caps, s1, steps[1..]) && Run(caps, s1, steps[1..]) == Run(caps, s2, steps[2..]);
  }

  lemma OneStepRuns(caps: Slot -> int, s: Sys, step: Step, rest: seq<Step>)
    requires Enabled(s, step) && Runnable(caps, Next(caps, s, step), rest)
    ensures Runnable(caps, s, [step] + rest)
    ensures Run(caps, s, [step] + rest) == Run(caps, Next(caps, s, step), rest)
  {
    assert ([step] + rest)[1..] == rest;
  }

  /** A call fails before midnight and is undone after it, between two that succeed. */
  function MidnightRun(slot: Slot): seq<Step> {
    var onTheNewDay := FireSteps(1, slot, true) + ([Undo(0, false)] + (FireSteps(2, slot, true) + []));
    FireSteps(0, slot, false) + ([Midnight] + onTheNewDay)
  }

  /** The stations of that run: one count on the new day is undone by the old day's failure. */
  lemma MidnightCounts(caps: Slot -> int, slot: Slot, day: int)
    ensures var b := Bucket(slot, day + 1);
            var s2 := Next(caps, AfterFire(Sys(day, map[], map[], map[]), 0, slot, false), Midnight);
            var s3 := AfterFire(s2, 1, slot, true);
            var s4 := Next(caps, s3, Undo(0, false));
            && s2.today == day + 1 && s2.calls.Keys == {0} && Fired(s2.table, b) == 0
            && Enabled(s3, Undo(0, false))
            && s4.today == day + 1 && s4.calls.Keys == {0, 1} && Fired(s4.table, b) == 0
            && Emissions(AfterFire(s4, 2, slot, true), b) == {1, 2}
  {
  }

  /**
   * The strayed term is needed: with a cap of one, such a run lets two emissions
   * out on the new day.
   */
  lemma StrayedUndoBreaksTheCap(caps: Slot -> int, slot: Slot, day: int)
    requires caps(slot) == 1
    ensures var s := Sys(day, map[], map[], map[]);
            Runnable(caps, s, MidnightRun(slot))
            && |Emissions(Run(caps, s, MidnightRun(slot)), Bucket(slot, day + 1))| == 2
  {
    var s0 := Sys(day, map[], map[], map[]);
    var s1 := AfterFire(s0, 0, slot, false);
    var s2 := Next(caps, s1, Midnight);
    var s3 := AfterFire(s2, 1, slot, true);
    var s4 := Next(caps, s3, Undo(0, false));
    var s5 := AfterFire(s4, 2, slot, true);
    MidnightCounts(caps, slot, day);
    FireRuns(caps, s4, 2, slot, true, []);
    var r4 := FireSteps(2, slot, true) + [];
    OneStepRuns(caps, s3, Undo(0, false), r4);
    var r3 := [Undo(0, false)] + r4;
    FireRuns(caps, s2, 1, slot, true, r3);
    var r2 := FireSteps(1, slot, true) + r3;
    OneStepRuns(caps, s1, Midnight, r2);
    FireRuns(caps, s0, 0, slot, false, [Midnight] + r2);
  }

  // ---- Exactly when the cap holds ----

  function Max(a: int, b: int): int {
    if a < b then b else a
  }

  /** The most emissions the bucket of today can still see, as far as today's own calls go. */
  ghost function Peak(caps: Slot -> int, s: Sys, b: Bucket): int {
    Max(|Actives(s, b)|, Cap(caps(b.slot)) + |Holders(s, b)| - Fired(s.table, b))
  }

  /** A check takes a place below the cap, or at most counts up. */
  lemma CheckMoves(caps: Slot -> int, s: Sys, id: nat, b: Bucket)
    requires Enabled(s, Check(id))
    ensures id !in Holders(s, b) && id !in Actives(s, b)
    ensures var t := Next(caps, s, Check(id));
            || (Holders(t, b) == Holders(s, b) && Actives(t, b) == Actives(s, b)
                && Fired(t.table, b) >= Fired(s.table, b))
            || (Holders(t, b) == Holders(s, b) + {id} && Actives(t, b) == Actives(s, b) + {id}
                && Fired(t.table, b) == Fired(s.table, b) + 1 <= Cap(caps(b.slot)))
  {
    MoveOne(s, Next(caps, s, Check(id)), id, b);
  }

  lemma CheckKeepsPeak(caps: Slot -> int, s: Sys, id: nat, b: Bucket)
    requires Enabled(s, Check(id))
    ensures Peak(caps, Next(caps, s, Check(id)), b) <= Peak(caps, s, b)
  {
    CheckMoves(caps, s, id, b);
    BothGain(Holders(s, b), Actives(s, b), id);
    SubsetSize(Actives(s, b), Holders(s, b));
  }

  lemma UndoKeepsPeak(caps: Slot -> int, s: Sys, id: nat, lost: bool, b: Bucket)
    requires Enabled(s, Undo(id, lost)) && s.calls[id].phase.day == s.today
    ensures Peak(caps, Next(caps, s, Undo(id, lost)), b) <= Peak(caps, s, b)
  {
    var t := Next(caps, s, Undo(id, lost));
    MoveOne(s, t, id, b);
    assert id !in Actives(s, b);
    if Holds(s.calls[id], b) {
      assert id in Holders(s, b);
    }
  }

  lemma MoveKeepsPeak(caps: Slot -> int, s: Sys, step: Step, b: Bucket)
    requires Enabled(s, step) && (step.Start? || step.Configure? || step.Emit?)
    ensures Peak(caps, Next(caps, s, step), b) <= Peak(caps, s, b)
  {
    var t := Next(caps, s, step);
    MoveLetsGo(caps, s, step, b);
    SubsetSize(Holders(t, b), Holders(s, b));
    SubsetSize(Actives(t, b), Actives(s, b));
  }

  lemma StepKeepsPeak(caps: Slot -> int, s: Sys, step: Step, b: Bucket)
    requires Enabled(s, step) && (step.Undo? ==> s.calls[step.id].phase.day == s.today)
    ensures Peak(caps, Next(caps, s, step), b) <= Peak(caps, s, b)
  {
    match step
    case Check(id) => CheckKeepsPeak(caps, s, id, b);
    case Undo(id, lost) => UndoKeepsPeak(caps, s, id, lost, b);
    case Midnight => assert Holders(Next(caps, s, step), b) == Holders(s, b)
        && Actives(Next(caps, s, step), b) == Actives(s, b);
    case _ => MoveKeepsPeak(caps, s, step, b);
  }

  /** From any state, whatever strayed before it: as long as no further undo strays, emissions stay within the peak. */
  lemma {:induction false} NeverAbovePeak(caps: Slot -> int, s: Sys, steps: seq<Step>, b: Bucket)
    requires Runnable(caps, s, steps) && SameDay(caps, s, steps)
    ensures |Emissions(Run(caps, s, steps), b)| <= Peak(caps, s, b)
    decreases |steps|
  {
    if steps == [] {
      SubsetSize(Emissions(s, b), Actives(s, b));
    } else {
      StepKeepsPeak(caps, s, steps[0], b);
      NeverAbovePeak(caps, Next(caps, s, steps[0]), steps[1..], b);
    }
  }

  lemma UpperBound(ids: set<nat>) returns (m: nat)
    ensures forall i :: i in ids ==> i < m
    decreases |ids|
  {
    m := 0;
    if ids != {} {
      var x :| x in ids;
      var rest := UpperBound(ids - {x});
      m := if x < rest then rest else x + 1;
      assert forall i :: i in ids ==> i == x || i in ids - {x};
    }
  }

  /** Calls let through that have not begun to emit. */
  ghost function Waiting(s: Sys, b: Bucket): set<nat> {
    set id | id in s.calls && Holds(s.calls[id], b) && s.calls[id].phase.Allowed?
  }

  lemma FireMoves(s: Sys, b: Bucket, id: nat)
    requires b.day == s.today && id !in s.calls
    ensures var t := AfterFire(s, id, b.slot, true);
            && id !in Holders(s, b) && id !in Actives(s, b)
            && Holders(t, b) == Holders(s, b) + {id} && Actives(t, b) == Actives(s, b) + {id}
            && Fired(t.table, b) == Fired(s.table, b) + 1
  {
    MoveOne(s, AfterFire(s, id, b.slot, true), id, b);
  }

  lemma FireReaches(caps: Slot -> int, s: Sys, b: Bucket, id: nat)
    requires b.day == s.today && id !in s.calls && |Actives(s, b)| < Peak(caps, s, b)
    ensures Peak(caps, AfterFire(s, id, b.slot, true), b) == Peak(caps, s, b)
    ensures Fired(AfterFire(s, id, b.slot, true).table, b) == Fired(s.table, b) + 1
    ensures Undoings(AfterFire(s, id, b.slot, true), b) == Undoings(s, b)
  {
    FireMoves(s, b, id);
    GainKeepsPeak(caps, s, AfterFire(s, id, b.slot, true), b, id);
  }

  /** Places held by calls that failed and are still to be taken back. */
  ghost function Undoings(s: Sys, b: Bucket): set<nat> {
    Holders(s, b) - Actives(s, b)
  }

  lemma GainKeepsPeak(caps: Slot -> int, s: Sys, t: Sys, b: Bucket, id: nat)
    requires id !in Holders(s, b) && id !in Actives(s, b)
    requires Holders(t, b) == Holders(s, b) + {id} && Actives(t, b) == Actives(s, b) + {id}
    requires Fired(t.table, b) == Fired(s.table, b) + 1 && |Actives(s, b)| < Peak(caps, s, b)
    ensures Peak(caps, t, b) == Peak(caps, s, b) && Undoings(t, b) == Undoings(s, b)
  {
    BothGain(Holders(s, b), Actives(s, b), id);
  }

  lemma BothGain(a: set<nat>, b: set<nat>, id: nat)
    requires id !in a && id !in b
    ensures |a + {id}| == |a| + 1 && |b + {id}| == |b| + 1 && (a + {id}) - (b + {id}) == a - b
  {
  }

  lemma StillWaiting(s: Sys, t: Sys, id: nat, b: Bucket)
    requires t.calls.Keys == s.calls.Keys + {id} && !t.calls[id].phase.Allowed?
             && (id in s.calls ==> !s.calls[id].phase.Allowed?)
    requires forall k :: k in s.calls && k != id ==> t.calls[k] == s.calls[k]
    ensures Waiting(t, b) == Waiting(s, b)
  {
  }

  lemma UndoReaches(caps: Slot -> int, s: Sys, b: Bucket, id: nat)
    requires b.day == s.today && id in Undoings(s, b) && Fired(s.table, b) > 0
    requires |Actives(s, b)| < Peak(caps, s, b)
    ensures Enabled(s, Undo(id, false)) && s.calls[id].phase.day == s.today
    ensures var t := Next(caps, s, Undo(id, false));
            && t.today == s.today && Peak(caps, t, b) == Peak(caps, s, b)
            && Waiting(t, b) == Waiting(s, b) && Undoings(t, b) == Undoings(s, b) - {id}
  {
    var t := Next(caps, s, Undo(id, false));
    MoveOne(s, t, id, b);
    StillWaiting(s, t, id, b);
  }

  lemma ConfigureReaches(caps: Slot -> int, s: Sys, b: Bucket, id: nat)
    requires b.day == s.today && id in Waiting(s, b)
    ensures Enabled(s, Configure(id, true))
    ensures var t := Next(caps, s, Configure(id, true));
            t.today == s.today && Peak(caps, t, b) == Peak(caps, s, b) && Waiting(t, b) == Waiting(s, b) - {id}
  {
    var t := Next(caps, s, Configure(id, true));
    MoveOne(s, t, id, b);
    assert Holders(t, b) == Holders(s, b) && Actives(t, b) == Actives(s, b);
  }

  lemma SameDayOneMore(caps: Slot -> int, s: Sys, step: Step, rest: seq<Step>)
    requires Enabled(s, step) && Runnable(caps, Next(caps, s, step), rest) && SameDay(caps, Next(caps, s, step), rest)
    requires step.Undo? ==> s.calls[step.id].phase.day == s.today
    ensures Runnable(caps, s, [step] + rest) && SameDay(caps, s, [step] + rest)
    ensures Run(caps, s, [step] + rest) == Run(caps, Next(caps, s, step), rest)
  {
    assert ([step] + rest)[1..] == rest;
  }

  /** One whole call on the same day. */
  lemma FireSameDay(caps: Slot -> int, s: Sys, id: nat, slot: Slot, rest: seq<Step>) returns (steps: seq<Step>)
    requires id !in s.calls && Fired(s.table, Bucket(slot, s.today)) < Cap(caps(slot)) <= INT_MAX
    requires Runnable(caps, AfterFire(s, id, slot, true), rest) && SameDay(caps, AfterFire(s, id, slot, true), rest)
    ensures Runnable(caps, s, steps) && SameDay(caps, s, steps)
    ensures Run(caps, s, steps) == Run(caps, AfterFire(s, id, slot, true), rest)
  {
    var s1 := Next(caps, s, Start(id, slot));
    var s2 := Next(caps, s1, Check(id));
    var s3 := Next(caps, s2, Configure(id, true));
    assert Next(caps, s3, Emit(id, true)) == AfterFire(s, id, slot, true);
    SameDayOneMore(caps, s3, Emit(id, true), rest);
    steps := [Emit(id, true)] + rest;
    SameDayOneMore(caps, s2, Configure(id, true), steps);
    steps := [Configure(id, true)] + steps;
    SameDayOneMore(caps, s1, Check(id), steps);
    steps := [Check(id)] + steps;
    SameDayOneMore(caps, s, Start(id, slot), steps);
    steps := [Start(id, slot)] + steps;
  }

  /** And the peak is reached: start what waits, fire while the counter allows it, undo what failed when it does not. */
  lemma {:induction false} PeakIsReached(caps: Slot -> int, s: Sys, b: Bucket) returns (steps: seq<Step>)
    requires b.day == s.today && Cap(caps(b.slot)) <= INT_MAX
    ensures Runnable(caps, s, steps) && SameDay(caps, s, steps)
    ensures |Emissions(Run(caps, s, steps), b)| == Peak(caps, s, b)
    decreases |Waiting(s, b)|
  {
    if Waiting(s, b) != {} {
      var id :| id in Waiting(s, b);
      ConfigureReaches(caps, s, b, id);
      var rest := PeakIsReached(caps, Next(caps, s, Configure(id, true)), b);
      SameDayOneMore(caps, s, Configure(id, true), rest);
      steps := [Configure(id, true)] + rest;
    } else {
      steps := PeakByFiring(caps, s, b);
    }
  }

  lemma {:induction false} PeakByFiring(caps: Slot -> int, s: Sys, b: Bucket) returns (steps: seq<Step>)
    requires b.day == s.today && Cap(caps(b.slot)) <= INT_MAX && Waiting(s, b) == {}
    ensures Runnable(caps, s, steps) && SameDay(caps, s, steps)
    ensures |Emissions(Run(caps, s, steps), b)| == Peak(caps, s, b)
    decreases |Undoings(s, b)|, Max(0, Cap(caps(b.slot)) - Fired(s.table, b))
  {
    if |Actives(s, b)| == Peak(caps, s, b) {
      AllEmit(s, b);
      steps := [];
    } else if Fired(s.table, b) < Cap(caps(b.slot)) {
      var id := UpperBound(s.calls.Keys);
      FireReaches(caps, s, b, id);
      StillWaiting(s, AfterFire(s, id, b.slot, true), id, b);
      var rest := PeakByFiring(caps, AfterFire(s, id, b.slot, true), b);
      steps := FireSameDay(caps, s, id, b.slot, rest);
    } else {
      var id := SomeUndoing(caps, s, b);
      UndoReaches(caps, s, b, id);
      var rest := PeakByFiring(caps, Next(caps, s, Undo(id, false)), b);
      SameDayOneMore(caps, s, Undo(id, false), rest);
      steps := [Undo(id, false)] + rest;
    }
  }

  lemma AllEmit(s: Sys, b: Bucket)
    requires Waiting(s, b) == {}
    ensures Emissions(s, b) == Actives(s, b)
  {
    forall id | id in Actives(s, b)
      ensures id in Emissions(s, b)
    {
      assert id !in Waiting(s, b);
    }
  }

  lemma SomeUndoing(caps: Slot -> int, s: Sys, b: Bucket) returns (id: nat)
    requires |Actives(s, b)| < Peak(caps, s, b) && Fired(s.table, b) >= Cap(caps(b.slot))
    ensures id in Undoings(s, b)
  {
    var h, a, u := Holders(s, b), Actives(s, b), Undoings(s, b);
    assert h <= a + u;
    SubsetSize(h, a + u);
    assert u == {} ==> a + u == a;
    id :| id in Undoings(s, b);
  }

  /**
   * From any reachable state, strays or not: every continuation of the day respects the cap
   * if and only if today's calls are within it and the counter covers all that hold a place.
   */
  lemma CapHoldsExactly(caps: Slot -> int, s: Sys, b: Bucket)
    requires b.day == s.today && Cap(caps(b.slot)) <= INT_MAX
    ensures (forall steps | Runnable(caps, s, steps) && SameDay(caps, s, steps) ::
            |Emissions(Run(caps, s, steps), b)| <= Cap(caps(b.slot)))
            <==> |Actives(s, b)| <= Cap(caps(b.slot)) && |Holders(s, b)| <= Fired(s.table, b)
  {
    var steps := PeakIsReached(caps, s, b);
    forall more | Runnable(caps, s, more) && SameDay(caps, s, more)
      ensures |Emissions(Run(caps, s, more), b)| <= Peak(caps, s, b)
    {
      NeverAbovePeak(caps, s, more, b);
    }
  }

  // ---- Undos of earlier days included ----

  /** A call of an earlier day that may still take back a count of this one. */
  ghost predicate IsEarly(c: Call, b: Bucket) {
    c.slot == b.slot && (c.phase.Allowed? || c.phase.Emitting? || c.phase.Undoing?) && c.phase.day < b.day
  }

  ghost function Early(s: Sys, b: Bucket): set<nat> {
    set id | id in s.calls && IsEarly(s.calls[id], b)
  }

  ghost function EarlyAllowed(s: Sys, b: Bucket): set<nat> {
    set id | id in s.calls && IsEarly(s.calls[id], b) && s.calls[id].phase.Allowed?
  }

  ghost function EarlyEmitting(s: Sys, b: Bucket): set<nat> {
    set id | id in s.calls && IsEarly(s.calls[id], b) && s.calls[id].phase.Emitting?
  }

  /** The most emissions the bucket of today can still see, whatever happens. */
  ghost function FullPeak(caps: Slot -> int, s: Sys, b: Bucket): int {
    Max(|Actives(s, b)|, Cap(caps(b.slot)) + |Holders(s, b)| + |Early(s, b)| - Fired(s.table, b))
  }

  /** Nothing but call `id` differs. */
  ghost predicate OnlyMoves(s: Sys, t: Sys, id: nat) {
    && id in t.calls && s.calls.Keys <= t.calls.Keys <= s.calls.Keys + {id}
    && forall k :: k in s.calls && k != id ==> t.calls[k] == s.calls[k]
  }

  lemma MoveEarly(s: Sys, t: Sys, id: nat, b: Bucket)
    requires OnlyMoves(s, t, id)
    ensures Early(t, b) == if IsEarly(t.calls[id], b) then Early(s, b) + {id} else Early(s, b) - {id}
  {
  }

  lemma MoveEarlyAllowed(s: Sys, t: Sys, id: nat, b: Bucket)
    requires OnlyMoves(s, t, id)
    ensures EarlyAllowed(t, b) ==
            if IsEarly(t.calls[id], b) && t.calls[id].phase.Allowed? then EarlyAllowed(s, b) + {id}
            else EarlyAllowed(s, b) - {id}
  {
  }

  lemma MoveEarlyEmitting(s: Sys, t: Sys, id: nat, b: Bucket)
    requires OnlyMoves(s, t, id)
    ensures EarlyEmitting(t, b) ==
            if IsEarly(t.calls[id], b) && t.calls[id].phase.Emitting? then EarlyEmitting(s, b) + {id}
            else EarlyEmitting(s, b) - {id}
  {
  }

  /** A move that gains nothing early keeps the bound if it keeps the day's own one. */
  lemma FullFromPeak(caps: Slot -> int, s: Sys, t: Sys, b: Bucket)
    requires |Actives(t, b)| <= |Actives(s, b)| && |Early(t, b)| <= |Early(s, b)|
    requires |Holders(t, b)| - Fired(t.table, b) <= |Holders(s, b)| - Fired(s.table, b)
    ensures FullPeak(caps, t, b) <= FullPeak(caps, s, b)
  {
  }

  lemma CheckKeepsFull(caps: Slot -> int, s: Sys, id: nat, b: Bucket)
    requires Enabled(s, Check(id)) && s.today >= b.day
    ensures FullPeak(caps, Next(caps, s, Check(id)), b) <= FullPeak(caps, s, b)
  {
    var t := Next(caps, s, Check(id));
    CheckIsNotEarly(caps, s, id, b);
    CheckMoves(caps, s, id, b);
    CheckKeepsBound(caps, s, t, id, b);
  }

  lemma CheckIsNotEarly(caps: Slot -> int, s: Sys, id: nat, b: Bucket)
    requires Enabled(s, Check(id)) && s.today >= b.day
    ensures Early(Next(caps, s, Check(id)), b) == Early(s, b)
  {
    MoveEarly(s, Next(caps, s, Check(id)), id, b);
    assert id !in Early(s, b);
  }

  lemma CheckKeepsBound(caps: Slot -> int, s: Sys, t: Sys, id: nat, b: Bucket)
    requires id !in Holders(s, b) && id !in Actives(s, b) && Early(t, b) == Early(s, b)
    requires || (Holders(t, b) == Holders(s, b) && Actives(t, b) == Actives(s, b)
                 && Fired(t.table, b) >= Fired(s.table, b))
             || (Holders(t, b) == Holders(s, b) + {id} && Actives(t, b) == Actives(s, b) + {id}
                 && Fired(t.table, b) == Fired(s.table, b) + 1 <= Cap(caps(b.slot)))
    ensures FullPeak(caps, t, b) <= FullPeak(caps, s, b)
  {
    BothGain(Holders(s, b), Actives(s, b), id);
    SubsetSize(Actives(s, b), Holders(s, b));
  }

  lemma EarlyLetsGo(caps: Slot -> int, s: Sys, step: Step, b: Bucket)
    requires Enabled(s, step) && (step.Start? || step.Configure? || step.Emit?)
    ensures Early(Next(caps, s, step), b) <= Early(s, b)
  {
    MoveEarly(s, Next(caps, s, step), step.id, b);
  }

  lemma MoveKeepsFull(caps: Slot -> int, s: Sys, step: Step, b: Bucket)
    requires Enabled(s, step) && (step.Start? || step.Configure? || step.Emit?)
    ensures FullPeak(caps, Next(caps, s, step), b) <= FullPeak(caps, s, b)
  {
    var t := Next(caps, s, step);
    MoveLetsGo(caps, s, step, b);
    EarlyLetsGo(caps, s, step, b);
    SubsetSize(Holders(t, b), Holders(s, b));
    SubsetSize(Actives(t, b), Actives(s, b));
    SubsetSize(Early(t, b), Early(s, b));
    FullFromPeak(caps, s, t, b);
  }

  /** An undo gives back a place of its own day, or a count of another, or neither. */
  lemma UndoMoves(caps: Slot -> int, s: Sys, id: nat, lost: bool, b: Bucket)
    requires Enabled(s, Undo(id, lost))
    ensures var t := Next(caps, s, Undo(id, lost));
            && Actives(t, b) == Actives(s, b)
            && Holders(t, b) == Holders(s, b) - {id} && Early(t, b) == Early(s, b) - {id}
            && Fired(s.table, b) - 1 <= Fired(t.table, b) <= Fired(s.table, b)
            && (Fired(t.table, b) < Fired(s.table, b) ==> s.calls[id].slot == b.slot && s.today == b.day)
  {
    var t := Next(caps, s, Undo(id, lost));
    MoveOne(s, t, id, b);
    MoveEarly(s, t, id, b);
    assert id !in Actives(s, b);
  }

  lemma UndoKeepsFull(caps: Slot -> int, s: Sys, id: nat, lost: bool, b: Bucket)
    requires Enabled(s, Undo(id, lost)) && s.calls[id].phase.day <= s.today
    ensures FullPeak(caps, Next(caps, s, Undo(id, lost)), b) <= FullPeak(caps, s, b)
  {
    var t := Next(caps, s, Undo(id, lost));
    UndoMoves(caps, s, id, lost, b);
    if Fired(t.table, b) < Fired(s.table, b) {
      assert id in Holders(s, b) || id in Early(s, b);
    }
  }

  /** No call was counted on a day still to come. */
  ghost predicate NoneAhead(s: Sys) {
    forall id :: id in s.calls && !s.calls[id].phase.Ready? && !s.calls[id].phase.Finished? ==>
        s.calls[id].phase.day <= s.today
  }

  lemma StepKeepsFull(caps: Slot -> int, s: Sys, step: Step, b: Bucket)
    requires Enabled(s, step) && s.today >= b.day && NoneAhead(s)
    ensures FullPeak(caps, Next(caps, s, step), b) <= FullPeak(caps, s, b)
    ensures Next(caps, s, step).today >= b.day && NoneAhead(Next(caps, s, step))
  {
    match step
    case Check(id) => CheckKeepsFull(caps, s, id, b);
    case Undo(id, lost) => UndoKeepsFull(caps, s, id, lost, b);
    case Midnight => SameCallsSameSets(s, Next(caps, s, step), b);
    case _ => MoveKeepsFull(caps, s, step, b);
  }

  lemma SameCallsSameSets(s: Sys, t: Sys, b: Bucket)
    requires t.calls == s.calls
    ensures Holders(t, b) == Holders(s, b) && Actives(t, b) == Actives(s, b) && Early(t, b) == Early(s, b)
  {
  }

  /** Whatever happens from here on, emissions of the bucket stay within the full peak. */
  lemma {:induction false} NeverAboveFullPeak(caps: Slot -> int, s: Sys, steps: seq<Step>, b: Bucket)
    requires Runnable(caps, s, steps) && s.today >= b.day && NoneAhead(s)
    ensures |Emissions(Run(caps, s, steps), b)| <= FullPeak(caps, s, b)
    decreases |steps|
  {
    if steps == [] {
      SubsetSize(Emissions(s, b), Actives(s, b));
    } else {
      StepKeepsFull(caps, s, steps[0], b);
      NeverAboveFullPeak(caps, Next(caps, s, steps[0]), steps[1..], b);
    }
  }

  // ---- And the full peak is reached ----

  /** How much there is to start, to fail and to take back, and room below the cap. */
  ghost predicate Nearer(caps: Slot -> int, s: Sys, t: Sys, b: Bucket) {
    && t.today == s.today && FullPeak(caps, t, b) == FullPeak(caps, s, b)
  }

  lemma ConfigureKeeps(caps: Slot -> int, s: Sys, b: Bucket, id: nat)
    requires b.day == s.today && id in Waiting(s, b)
    ensures Enabled(s, Configure(id, true))
    ensures var t := Next(caps, s, Configure(id, true));
            Nearer(caps, s, t, b) && Waiting(t, b) == Waiting(s, b) - {id}
  {
    var t := Next(caps, s, Configure(id, true));
    assert OnlyMoves(s, t, id);
    SetsStay(s, t, id, b);
    MoveWaiting(s, t, id, b);
  }

  /** A call that keeps its standing changes no set. */
  lemma SetsStay(s: Sys, t: Sys, id: nat, b: Bucket)
    requires OnlyMoves(s, t, id) && id in s.calls
    requires Holds(t.calls[id], b) == Holds(s.calls[id], b) && Active(t.calls[id], b) == Active(s.calls[id], b)
    requires IsEarly(t.calls[id], b) == IsEarly(s.calls[id], b)
    ensures Holders(t, b) == Holders(s, b) && Actives(t, b) == Actives(s, b) && Early(t, b) == Early(s, b)
  {
  }

  lemma MoveWaiting(s: Sys, t: Sys, id: nat, b: Bucket)
    requires OnlyMoves(s, t, id) && !t.calls[id].phase.Allowed?
    ensures Waiting(t, b) == Waiting(s, b) - {id}
  {
  }

  /** A move of an early call leaves the day's own calls alone. */
  lemma EarlyMove(s: Sys, t: Sys, b: Bucket, id: nat)
    requires OnlyMoves(s, t, id) && id in s.calls && IsEarly(s.calls[id], b)
    requires IsEarly(t.calls[id], b) || t.calls[id].phase.Finished?
    ensures Holders(t, b) == Holders(s, b) && Actives(t, b) == Actives(s, b) && Waiting(t, b) == Waiting(s, b)
    ensures Undoings(t, b) == Undoings(s, b)
  {
    MoveOne(s, t, id, b);
    assert id !in Holders(s, b) && id !in Actives(s, b);
  }

  lemma EarlyConfigureKeeps(caps: Slot -> int, s: Sys, b: Bucket, id: nat)
    requires id in EarlyAllowed(s, b)
    ensures Enabled(s, Configure(id, true))
    ensures var t := Next(caps, s, Configure(id, true));
            && Nearer(caps, s, t, b)
            && Waiting(t, b) == Waiting(s, b) && EarlyAllowed(t, b) == EarlyAllowed(s, b) - {id}
  {
    var t := Next(caps, s, Configure(id, true));
    EarlyMove(s, t, b, id);
    MoveEarly(s, t, id, b);
    MoveEarlyAllowed(s, t, id, b);
    assert Early(t, b) == Early(s, b);
  }

  lemma EarlyFailKeeps(caps: Slot -> int, s: Sys, b: Bucket, id: nat)
    requires id in EarlyEmitting(s, b)
    ensures Enabled(s, Emit(id, false))
    ensures var t := Next(caps, s, Emit(id, false));
            && Nearer(caps, s, t, b) && Waiting(t, b) == Waiting(s, b) && EarlyAllowed(t, b) == EarlyAllowed(s, b)
            && EarlyEmitting(t, b) == EarlyEmitting(s, b) - {id}
  {
    var t := Next(caps, s, Emit(id, false));
    EarlyMove(s, t, b, id);
    MoveEarly(s, t, id, b);
    MoveEarlyAllowed(s, t, id, b);
    MoveEarlyEmitting(s, t, id, b);
    assert Early(t, b) == Early(s, b);
  }

  /** What is left to take back: failures of today and of earlier days. */
  ghost function ToUndo(s: Sys, b: Bucket): nat {
    |Undoings(s, b)| + |Early(s, b)|
  }

  ghost predicate NoEarlySteps(s: Sys, b: Bucket) {
    Waiting(s, b) == {} && EarlyAllowed(s, b) == {} && EarlyEmitting(s, b) == {}
  }

  lemma FireKeeps(caps: Slot -> int, s: Sys, b: Bucket, id: nat)
    requires b.day == s.today && id !in s.calls && |Actives(s, b)| < FullPeak(caps, s, b)
    ensures FullPeak(caps, AfterFire(s, id, b.slot, true), b) == FullPeak(caps, s, b)
    ensures ToUndo(AfterFire(s, id, b.slot, true), b) == ToUndo(s, b)
    ensures Fired(AfterFire(s, id, b.slot, true).table, b) == Fired(s.table, b) + 1
  {
    var t := AfterFire(s, id, b.slot, true);
    FireMoves(s, b, id);
    NewIsNotEarly(s, t, b, id);
    GainKeepsFull(caps, s, t, b, id);
  }

  lemma FireAddsNoSteps(s: Sys, b: Bucket, id: nat)
    requires b.day == s.today && id !in s.calls && NoEarlySteps(s, b)
    ensures NoEarlySteps(AfterFire(s, id, b.slot, true), b)
  {
    var t := AfterFire(s, id, b.slot, true);
    StillWaiting(s, t, id, b);
    NewIsNotEarly(s, t, b, id);
  }

  lemma GainKeepsFull(caps: Slot -> int, s: Sys, t: Sys, b: Bucket, id: nat)
    requires id !in Holders(s, b) && id !in Actives(s, b) && Early(t, b) == Early(s, b)
    requires Holders(t, b) == Holders(s, b) + {id} && Actives(t, b) == Actives(s, b) + {id}
    requires Fired(t.table, b) == Fired(s.table, b) + 1 && |Actives(s, b)| < FullPeak(caps, s, b)
    ensures FullPeak(caps, t, b) == FullPeak(caps, s, b) && ToUndo(t, b) == ToUndo(s, b)
  {
    BothGain(Holders(s, b), Actives(s, b), id);
  }

  lemma NewIsNotEarly(s: Sys, t: Sys, b: Bucket, id: nat)
    requires OnlyMoves(s, t, id) && id !in s.calls && !IsEarly(t.calls[id], b)
    ensures Early(t, b) == Early(s, b)
    ensures EarlyAllowed(t, b) == EarlyAllowed(s, b) && EarlyEmitting(t, b) == EarlyEmitting(s, b)
  {
    MoveEarly(s, t, id, b);
    MoveEarlyAllowed(s, t, id, b);
    MoveEarlyEmitting(s, t, id, b);
  }

  lemma UndoKeeps(caps: Slot -> int, s: Sys, b: Bucket, id: nat)
    requires b.day == s.today && id in Undoings(s, b) + Early(s, b) && Enabled(s, Undo(id, false))
    requires Fired(s.table, b) > 0 && |Actives(s, b)| < FullPeak(caps, s, b) && s.calls[id].slot == b.slot
    ensures FullPeak(caps, Next(caps, s, Undo(id, false)), b) == FullPeak(caps, s, b)
    ensures ToUndo(Next(caps, s, Undo(id, false)), b) < ToUndo(s, b)
  {
    var t := Next(caps, s, Undo(id, false));
    UndoMoves(caps, s, id, false, b);
    UndoCounts(s, t, b, id);
    assert Fired(t.table, b) == Fired(s.table, b) - 1;
  }

  lemma UndoAddsNoSteps(caps: Slot -> int, s: Sys, b: Bucket, id: nat)
    requires Enabled(s, Undo(id, false)) && NoEarlySteps(s, b)
    ensures NoEarlySteps(Next(caps, s, Undo(id, false)), b)
  {
    var t := Next(caps, s, Undo(id, false));
    assert OnlyMoves(s, t, id);
    MoveWaiting(s, t, id, b);
    MoveEarlyAllowed(s, t, id, b);
    MoveEarlyEmitting(s, t, id, b);
  }

  lemma EarlyIsUndoing(s: Sys, b: Bucket, id: nat)
    requires id in Undoings(s, b) + Early(s, b) && NoEarlySteps(s, b)
    ensures id in s.calls && s.calls[id].phase.Undoing? && s.calls[id].slot == b.slot
  {
    if id in Early(s, b) {
      assert id !in EarlyAllowed(s, b) && id !in EarlyEmitting(s, b);
    }
  }

  lemma UndoCounts(s: Sys, t: Sys, b: Bucket, id: nat)
    requires id in Undoings(s, b) + Early(s, b) && id in s.calls
    requires Actives(t, b) == Actives(s, b)
    requires Holders(t, b) == Holders(s, b) - {id} && Early(t, b) == Early(s, b) - {id}
    ensures |Holders(t, b)| + |Early(t, b)| == |Holders(s, b)| + |Early(s, b)| - 1 && ToUndo(t, b) == ToUndo(s, b) - 1
  {
    assert Holders(s, b) * Early(s, b) == {};
    TakeOut(Holders(s, b), Actives(s, b), Early(s, b), id);
  }

  lemma TakeOut(h: set<nat>, a: set<nat>, e: set<nat>, id: nat)
    requires h * e == {} && id in (h - a) + e
    ensures |h - {id}| + |e - {id}| == |h| + |e| - 1
    ensures |(h - {id}) - a| + |e - {id}| == |h - a| + |e| - 1
  {
    if id in e {
      assert id !in h && h - {id} == h;
    } else {
      assert e - {id} == e && (h - {id}) - a == (h - a) - {id};
    }
  }

  lemma SomethingToUndo(caps: Slot -> int, s: Sys, b: Bucket) returns (id: nat)
    requires |Actives(s, b)| < FullPeak(caps, s, b) && Fired(s.table, b) >= Cap(caps(b.slot))
    ensures id in Undoings(s, b) + Early(s, b)
  {
    var h, a, u, e := Holders(s, b), Actives(s, b), Undoings(s, b), Early(s, b);
    assert h <= a + u;
    SubsetSize(h, a + u);
    assert u == {} ==> a + u == a;
    assert u + e == {} ==> u == {} && e == {};
    id :| id in u + e;
  }

  lemma OneMore(caps: Slot -> int, s: Sys, step: Step, rest: seq<Step>)
    requires Enabled(s, step) && Runnable(caps, Next(caps, s, step), rest)
    ensures Runnable(caps, s, [step] + rest) && Run(caps, s, [step] + rest) == Run(caps, Next(caps, s, step), rest)
  {
    assert ([step] + rest)[1..] == rest;
  }

  /** Start what waits, let the early calls fail, fire while the counter allows it, and undo when it does not. */
  lemma {:induction false} FullPeakIsReached(caps: Slot -> int, s: Sys, b: Bucket) returns (steps: seq<Step>)
    requires b.day == s.today && Cap(caps(b.slot)) <= INT_MAX
    ensures Runnable(caps, s, steps) && |Emissions(Run(caps, s, steps), b)| == FullPeak(caps, s, b)
    decreases |Waiting(s, b)|, |EarlyAllowed(s, b)|, |EarlyEmitting(s, b)|, 1, 0
  {
    if Waiting(s, b) != {} {
      var id :| id in Waiting(s, b);
      ConfigureKeeps(caps, s, b, id);
      var rest := FullPeakIsReached(caps, Next(caps, s, Configure(id, true)), b);
      OneMore(caps, s, Configure(id, true), rest);
      steps := [Configure(id, true)] + rest;
    } else if EarlyAllowed(s, b) != {} {
      var id :| id in EarlyAllowed(s, b);
      EarlyConfigureKeeps(caps, s, b, id);
      var rest := FullPeakIsReached(caps, Next(caps, s, Configure(id, true)), b);
      OneMore(caps, s, Configure(id, true), rest);
      steps := [Configure(id, true)] + rest;
    } else if EarlyEmitting(s, b) != {} {
      var id :| id in EarlyEmitting(s, b);
      EarlyFailKeeps(caps, s, b, id);
      var rest := FullPeakIsReached(caps, Next(caps, s, Emit(id, false)), b);
      OneMore(caps, s, Emit(id, false), rest);
      steps := [Emit(id, false)] + rest;
    } else {
      steps := ReachedByFiring(caps, s, b);
    }
  }

  ghost predicate Reaches(caps: Slot -> int, s: Sys, b: Bucket, steps: seq<Step>, n: int) {
    Runnable(caps, s, steps) && |Emissions(Run(caps, s, steps), b)| == n
  }

  lemma FireFirst(caps: Slot -> int, s: Sys, b: Bucket, id: nat, rest: seq<Step>, n: int)
    requires b.day == s.today && id !in s.calls && Fired(s.table, b) < Cap(caps(b.slot)) <= INT_MAX
    requires Reaches(caps, AfterFire(s, id, b.slot, true), b, rest, n)
    ensures Reaches(caps, s, b, FireSteps(id, b.slot, true) + rest, n)
  {
    FireRuns(caps, s, id, b.slot, true, rest);
  }

  lemma UndoFirst(caps: Slot -> int, s: Sys, b: Bucket, id: nat, rest: seq<Step>, n: int)
    requires Enabled(s, Undo(id, false)) && Reaches(caps, Next(caps, s, Undo(id, false)), b, rest, n)
    ensures Reaches(caps, s, b, [Undo(id, false)] + rest, n)
  {
    OneMore(caps, s, Undo(id, false), rest);
  }

  /** Below the peak with the counter at the cap, some undo brings it nearer. */
  lemma UndoProgress(caps: Slot -> int, s: Sys, b: Bucket) returns (id: nat)
    requires b.day == s.today && NoEarlySteps(s, b)
    requires |Actives(s, b)| < FullPeak(caps, s, b) && Fired(s.table, b) >= Cap(caps(b.slot))
    ensures Enabled(s, Undo(id, false))
    ensures var t := Next(caps, s, Undo(id, false));
            t.today == s.today && FullPeak(caps, t, b) == FullPeak(caps, s, b) && ToUndo(t, b) < ToUndo(s, b)
            && NoEarlySteps(t, b)
  {
    id := SomethingToUndo(caps, s, b);
    EarlyIsUndoing(s, b, id);
    UndoKeeps(caps, s, b, id);
    UndoAddsNoSteps(caps, s, b, id);
  }

  lemma {:induction false} ReachedByFiring(caps: Slot -> int, s: Sys, b: Bucket) returns (steps: seq<Step>)
    requires b.day == s.today && Cap(caps(b.slot)) <= INT_MAX && NoEarlySteps(s, b)
    ensures Reaches(caps, s, b, steps, FullPeak(caps, s, b))
    decreases ToUndo(s, b), Max(0, Cap(caps(b.slot)) - Fired(s.table, b))
  {
    if |Actives(s, b)| == FullPeak(caps, s, b) {
      AllEmit(s, b);
      steps := [];
    } else if Fired(s.table, b) < Cap(caps(b.slot)) {
      var id := UpperBound(s.calls.Keys);
      FireKeeps(caps, s, b, id);
      FireAddsNoSteps(s, b, id);
      var rest := ReachedByFiring(caps, AfterFire(s, id, b.slot, true), b);
      FireFirst(caps, s, b, id, rest, FullPeak(caps, s, b));
      steps := FireSteps(id, b.slot, true) + rest;
    } else {
      var id := UndoProgress(caps, s, b);
      var rest := ReachedByFiring(caps, Next(caps, s, Undo(id, false)), b);
      UndoFirst(caps, s, b, id, rest, FullPeak(caps, s, b));
      steps := [Undo(id, false)] + rest;
    }
  }

  /**
   * From any state: whatever happens from here on, today's bucket respects the cap if and
   * only if today's active calls are within it and the counter covers all places held today
   * together with all calls of earlier days that may still be undone.
   */
  lemma CapHoldsWhateverHappens(caps: Slot -> int, s: Sys, b: Bucket)
    requires b.day == s.today && Cap(caps(b.slot)) <= INT_MAX && NoneAhead(s)
    ensures (forall steps | Runnable(caps, s, steps) :: |Emissions(Run(caps, s, steps), b)| <= Cap(caps(b.slot))) <==>
            |Actives(s, b)| <= Cap(caps(b.slot)) && |Holders(s, b)| + |Early(s, b)| <= Fired(s.table, b)
  {
    var steps := FullPeakIsReached(caps, s, b);
    forall more | Runnable(caps, s, more)
      ensures |Emissions(Run(caps, s, more), b)| <= FullPeak(caps, s, b)
    {
      NeverAboveFullPeak(caps, s, more, b);
    }
  }

  /** No run from the start ever counts a call ahead of time. */
  lemma {:induction false} RunsStayBehind(caps: Slot -> int, s: Sys, steps: seq<Step>)
    requires Runnable(caps, s, steps) && NoneAhead(s)
    ensures NoneAhead(Run(caps, s, steps))
    decreases |steps|
  {
    if steps != [] {
      RunsStayBehind(caps, Next(caps, s, steps[0]), steps[1..]);
    }
  }
}
