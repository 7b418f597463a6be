/** The rollout ladder: promotion on evidence, revocation and rollback, with compare-and-set saves. */
module Rollout {
  import opened Options

  datatype Stage = Fixture | Replay | Shadow | OwnerCanary | Household | StandingAutonomy

  function Rank(s: Stage): nat {
    match s
    case Fixture => 0
    case Replay => 1
    case Shadow => 2
    case OwnerCanary => 3
    case Household => 4
    case StandingAutonomy => 5
  }

  function StageAt(rank: nat): Stage
    requires rank < 6
    ensures Rank(StageAt(rank)) == rank
  {
    [Fixture, Replay, Shadow, OwnerCanary, Household, StandingAutonomy][rank]
  }

  datatype Action = Created | Promoted | Revoked | RolledBack

  datatype Event = Event(action: Action, from: Option<Stage>, to: Stage, evidence: Option<nat>)

  type Actor = nat

  datatype Record = Record(
    owner: Actor, pins: nat, stage: Stage, revoked: bool, scope: seq<string>, history: seq<Event>)

  datatype Evidence = Evidence(
    stage: Stage, artifact: nat, pins: nat, eligible: bool, reasons: seq<string>, scenarioRuns: nat)

  // ----- transitions; None where the source raises -----

  function NewRecord(owner: Actor, pins: nat): Record {
    Record(owner, pins, Fixture, false, [], [Event(Created, None, Fixture, None)])
  }

  predicate Passing(r: Record, evidence: Evidence) {
    && evidence.stage == r.stage && evidence.pins == r.pins
    && evidence.eligible && evidence.reasons == [] && evidence.scenarioRuns > 0
  }

  function Promote(r: Record, actor: Actor, evidence: Evidence, scope: seq<string>): Option<Record> {
    if r.revoked || actor != r.owner || r.stage == StandingAutonomy || !Passing(r, evidence) then None
    else
      var target := StageAt(Rank(r.stage) + 1);
      var selected := if scope != [] then scope else r.scope;
      if target == StandingAutonomy && selected == [] then None
      else Some(r.(stage := target, scope := selected,
                   history := r.history + [Event(Promoted, Some(r.stage), target, Some(evidence.artifact))]))
  }

  /** Revoking what is already revoked returns it unchanged. */
  function Revoke(r: Record, actor: Actor): Option<Record> {
    if actor != r.owner then None
    else if r.revoked then Some(r)
    else Some(r.(revoked := true, history := r.history + [Event(Revoked, Some(r.stage), r.stage, None)]))
  }

  function Rollback(r: Record, actor: Actor, target: Stage): Option<Record> {
    if actor != r.owner || Rank(target) >= Rank(r.stage) then None
    else Some(r.(stage := target, revoked := false, scope := [],
                 history := r.history + [Event(RolledBack, Some(r.stage), target, None)]))
  }

  datatype Decision = Decision(allowed: bool, reason: string, stage: Stage)

  function Allows(r: Record, required: Stage): Decision {
    if r.revoked then Decision(false, "rollout_revoked", r.stage)
    else if Rank(r.stage) < Rank(required) then Decision(false, "stage_not_reached", r.stage)
    else Decision(true, "stage_reached", r.stage)
  }

  datatype Request =
    | Promoting(evidence: Evidence, scope: seq<string>)
    | Revoking
    | RollingBack(target: Stage)

  function Transition(r: Record, actor: Actor, request: Request): Option<Record> {
    match request
    case Promoting(evidence, scope) => Promote(r, actor, evidence, scope)
    case Revoking => Revoke(r, actor)
    case RollingBack(target) => Rollback(r, actor, target)
  }

  // ----- what every record keeps -----

  /** Event e starts where the event before it ended, and moves as its action says. */
  predicate Follows(before: Event, e: Event) {
    && e.from == Some(before.to)
    && match e.action
       case Created => false
       case Promoted => Rank(e.to) == Rank(before.to) + 1 && e.evidence.Some?
       case Revoked => e.to == before.to
       case RolledBack => Rank(e.to) < Rank(before.to)
  }

  predicate Chained(history: seq<Event>) {
    && history != [] && history[0] == Event(Created, None, Fixture, None)
    && forall i | 1 <= i < |history| :: Follows(history[i - 1], history[i])
  }

  /** Event k promotes out of stage s, and nothing from k on leaves the rollout at or below s. */
  predicate ClimbsAt(history: seq<Event>, s: Stage, k: nat) {
    && k < |history| && history[k].action == Promoted && history[k].from == Some(s)
    && forall j | k <= j < |history| :: Rank(history[j].to) > Rank(s)
  }

  /** A promotion out of s follows the last event that left the rollout at s or below. */
  ghost predicate Climbed(history: seq<Event>, s: Stage) {
    exists k :: ClimbsAt(history, s, k)
  }

  ghost predicate Sound(r: Record) {
    && Chained(r.history) && r.history != [] && r.history[|r.history| - 1].to == r.stage
    && (forall s :: Rank(s) < Rank(r.stage) ==> Climbed(r.history, s))
    && (r.stage == StandingAutonomy ==> r.scope != [])
    && (r.revoked <==> r.history[|r.history| - 1].action == Revoked)
  }

  lemma NewRecordIsSound(owner: Actor, pins: nat)
    ensures Sound(NewRecord(owner, pins))
  {
  }

  lemma ClimbsFurther(history: seq<Event>, e: Event, s: Stage)
    requires Climbed(history, s) && Rank(s) < Rank(e.to)
    ensures Climbed(history + [e], s)
  {
    var k :| ClimbsAt(history, s, k);
    assert ClimbsAt(history + [e], s, k);
  }

  lemma NewClimb(history: seq<Event>, e: Event, s: Stage)
    requires e.action == Promoted && e.from == Some(s) && Rank(e.to) > Rank(s)
    ensures Climbed(history + [e], s)
  {
    assert ClimbsAt(history + [e], s, |history|);
  }

  lemma ChainGrows(history: seq<Event>, e: Event)
    requires Chained(history) && Follows(history[|history| - 1], e)
    ensures Chained(history + [e])
  {
  }

  lemma StageByRank(s: Stage, t: Stage)
    ensures Rank(s) == Rank(t) ==> s == t
  {
  }

  /** Promotion, revocation and rollback keep a sound record sound. */
  lemma TransitionKeepsSound(r: Record, actor: Actor, request: Request)
    requires Sound(r) && Transition(r, actor, request).Some?
    ensures Sound(Transition(r, actor, request).value)
  {
    hide Climbed, Chained;
    var t := Transition(r, actor, request).value;
    if t != r {
      var e := t.history[|t.history| - 1];
      assert t.history == r.history + [e];
      ChainGrows(r.history, e);
      forall s | Rank(s) < Rank(t.stage) ensures Climbed(t.history, s) {
        if Rank(s) < Rank(r.stage) {
          ClimbsFurther(r.history, e, s);
        } else {
          StageByRank(s, r.stage);
          NewClimb(r.history, e, s);
        }
      }
    }
  }

  /** A rollout revoked at the fixture stage can no longer change. */
  lemma RevokedFixtureIsAbsorbing(r: Record, actor: Actor, request: Request)
    requires r.revoked && r.stage == Fixture
    ensures var t := Transition(r, actor, request); t == None || t == Some(r)
  {
  }

  /** A rollout allows a stage exactly when the last word was not a revocation and it has climbed there. */
  lemma AllowedMeansClimbed(r: Record, required: Stage)
    requires Sound(r)
    ensures Allows(r, required).allowed <==>
              r.history[|r.history| - 1].action != Revoked && Rank(required) <= Rank(r.stage)
    ensures Allows(r, required).allowed ==> forall s :: Rank(s) < Rank(required) ==> Climbed(r.history, s)
  {
  }

  // ----- concurrent managers on one store -----

  datatype Stored = Stored(record: Record, revision: nat)

  /** A manager method suspended between its read and its save. */
  datatype Pending = Pending(id: nat, base: Record, updated: Record, revision: nat)

  datatype System = System(rows: map<nat, Stored>, calls: map<nat, Pending>)

  datatype Input =
    | Create(id: nat, owner: Actor, pins: nat)
    | Begin(call: nat, id: nat, actor: Actor, request: Request)
    | Save(call: nat)
    | Drop(call: nat)

  function Step(s: System, input: Input): System {
    match input
    case Create(id, owner, pins) =>
      if id in s.rows then s else s.(rows := s.rows[id := Stored(NewRecord(owner, pins), 1)])
    case Begin(call, id, actor, request) =>
      if call in s.calls || id !in s.rows then s
      else
        var stored := s.rows[id];
        var updated := Transition(stored.record, actor, request);
        if updated.None? || updated.value == stored.record then s
        else s.(calls := s.calls[call := Pending(id, stored.record, updated.value, stored.revision)])
    case Save(call) =>
      if call !in s.calls then s
      else
        var c := s.calls[call];
        var t := s.(calls := s.calls - {call});
        if c.id in s.rows && s.rows[c.id].revision == c.revision
        then t.(rows := s.rows[c.id := Stored(c.updated, c.revision + 1)]) else t
    case Drop(call) => s.(calls := s.calls - {call})
  }

  type Run = seq<Input>

  function After(run: Run): System {
    if run == [] then System(map[], map[]) else Step(After(run[..|run| - 1]), run[|run| - 1])
  }

  /** A suspended change was computed from the record of its revision, by an allowed transition. */
  ghost predicate Grounded(s: System, c: Pending) {
    && c.id in s.rows && c.revision <= s.rows[c.id].revision
    && (s.rows[c.id].revision == c.revision ==> s.rows[c.id].record == c.base)
    && exists actor, request :: Transition(c.base, actor, request) == Some(c.updated)
  }

  ghost predicate AllSound(s: System) {
    && (forall id :: id in s.rows ==> Sound(s.rows[id].record))
    && (forall call :: call in s.calls ==> Grounded(s, s.calls[call]))
  }

  lemma StepKeepsSound(s: System, input: Input)
    requires AllSound(s)
    ensures AllSound(Step(s, input))
  {
    hide Sound, Transition, NewRecord;
    var t := Step(s, input);
    match input {
      case Create(id, owner, pins) => NewRecordIsSound(owner, pins);
      case Begin(call, id, actor, request) =>
      case Save(call) =>
        if call in s.calls {
          var c := s.calls[call];
          assert Grounded(s, c);
          if t.rows != s.rows {
            var actor, request :| Transition(c.base, actor, request) == Some(c.updated);
            TransitionKeepsSound(c.base, actor, request);
          }
        }
      case Drop(call) =>
    }
    forall call | call in t.calls ensures Grounded(t, t.calls[call]) {
      if call in s.calls { assert Grounded(s, s.calls[call]); }
    }
  }

  /** What a suspended method finds when it saves. */
  lemma SaveFacts(s: System, call: nat)
    requires AllSound(s) && call in s.calls
    ensures var c := s.calls[call];
            && c.id in s.rows && AllSound(Step(s, Save(call)))
            && (s.rows[c.id].revision == c.revision ==> s.rows[c.id].record == c.base)
            && Step(s, Save(call)) ==
               System(if s.rows[c.id].revision == c.revision
                      then s.rows[c.id := Stored(c.updated, c.revision + 1)] else s.rows,
                      s.calls - {call})
  {
    hide Sound, Transition, NewRecord;
    StepKeepsSound(s, Save(call));
    assert Grounded(s, s.calls[call]);
  }

  /** Every record reachable by any interleaving of promote, revoke and rollback is sound. */
  lemma {:induction false} EveryReachableRecordIsSound(run: Run, id: nat)
    ensures AllSound(After(run))
    ensures id in After(run).rows ==> Sound(After(run).rows[id].record)
  {
    if run != [] {
      EveryReachableRecordIsSound(run[..|run| - 1], id);
      StepKeepsSound(After(run[..|run| - 1]), run[|run| - 1]);
    }
  }

  /**
   * The manager over its store. A method reads in `Begin` and saves in `Save`, and anything may
   * happen in between; `Apply` is a method that nothing interrupts.
   */
  class RolloutManager {
    var rows: map<nat, Stored>
    var calls: map<nat, Pending>

    ghost function Value(): System reads this {
      System(rows, calls)
    }

    ghost predicate Valid() reads this {
      AllSound(Value())
    }

    constructor ()
      ensures Valid() && Value() == System(map[], map[])
    {
      rows, calls := map[], map[];
    }

    method Create(id: nat, owner: Actor, pins: nat) returns (ok: bool)
      requires Valid()
      modifies this
      ensures Valid() && Value() == Step(old(Value()), Input.Create(id, owner, pins))
      ensures ok == (id !in old(rows))
      ensures ok ==> id in rows && rows[id].record == NewRecord(owner, pins)
    {
      StepKeepsSound(Value(), Input.Create(id, owner, pins));
      ok := id !in rows;
      if ok {
        rows := rows[id := Stored(NewRecord(owner, pins), 1)];
      }
    }

    /** The first half of `promote`, `revoke` or `rollback`: None where the source raises. */
    method Begin(call: nat, id: nat, actor: Actor, request: Request) returns (r: Option<Record>)
      requires Valid() && call !in calls
      modifies this
      ensures Valid() && Value() == Step(old(Value()), Input.Begin(call, id, actor, request))
      ensures r == if id in old(rows) then Transition(old(rows)[id].record, actor, request) else None
      ensures rows == old(rows)
      ensures if r.Some? && r.value != rows[id].record
              then calls == old(calls)[call := Pending(id, rows[id].record, r.value, rows[id].revision)]
              else calls == old(calls)
    {
      StepKeepsSound(Value(), Input.Begin(call, id, actor, request));
      hide AllSound, Transition;
      if id !in rows {
        return None;
      }
      var stored := rows[id];
      r := Transition(stored.record, actor, request);
      if r.Some? && r.value != stored.record {
        calls := calls[call := Pending(id, stored.record, r.value, stored.revision)];
      }
    }

    /** The second half: the change is stored unless the row's revision moved on since it was read. */
    method Save(call: nat) returns (ok: bool)
      requires Valid() && call in calls
      modifies this
      ensures old(calls)[call].id in old(rows)
      ensures Valid() && Value() == Step(old(Value()), Input.Save(call))
      ensures ok <==> old(rows)[old(calls)[call].id].revision == old(calls)[call].revision
      ensures ok ==> old(rows)[old(calls)[call].id].record == old(calls)[call].base
      ensures calls == old(calls) - {call}
      ensures var c := old(calls)[call];
              rows == if ok then old(rows)[c.id := Stored(c.updated, c.revision + 1)] else old(rows)
    {
      hide AllSound, Step;
      SaveFacts(Value(), call);
      var c := calls[call];
      ok := rows[c.id].revision == c.revision;
      calls := calls - {call};
      if ok {
        rows := rows[c.id := Stored(c.updated, c.revision + 1)];
      }
    }

    /** A whole method, with the identity of its call: nothing else touches the store in between. */
    method Apply(call: nat, id: nat, actor: Actor, request: Request) returns (r: Option<Record>)
      requires Valid() && call !in calls
      modifies this
      ensures Valid() && calls == old(calls)
      ensures r == if id in old(rows) then Transition(old(rows)[id].record, actor, request) else None
      ensures rows == if r.None? || r.value == old(rows)[id].record then old(rows)
                      else old(rows)[id := Stored(r.value, old(rows)[id].revision + 1)]
    {
      hide Step, AllSound, Transition;
      r := Begin(call, id, actor, request);
      if r.Some? && r.value != rows[id].record {
        var ok := Save(call);
      }
    }
  }
}
