/** The plan a turn executes: actions, the provider registry, results. */
module PlanDomain {
  import opened Options
  import opened StableSort

  /** Call arguments: their canonical text, and whether they set `nonIdempotent`. */
  datatype Arguments = Arguments(text: string, nonIdempotent: bool)

  datatype Call = Call(provider: string, tool: string, arguments: Arguments)

  /** Action ids are opaque; only their equality matters. */
  type Id = nat

  datatype Action = Action(id: Id, order: nat, dependsOn: seq<Id>, call: Call)

  datatype Code =
    | Done | Ambiguous | NotFound | Blocked | Invalid | Timeout | Unverified
    | BackendError | Shadowed | DryRun | Cancelled

  /** A tool result without the id of the action it answers. */
  datatype Answer = Answer(ok: bool, code: Code, target: Option<string>, requested: Option<Arguments>,
                           observed: Option<string>, message: string)

  datatype ToolResult = ToolResult(actionId: Id, answer: Answer)

  function ByOrder(action: Action): Key {
    Key(action.order, 0)
  }

  function Ids(plan: seq<Action>): set<Id> {
    set a | a in plan :: a.id
  }

  ghost predicate UniqueIds(plan: seq<Action>) {
    forall i, j :: 0 <= i < j < |plan| ==> plan[i].id != plan[j].id
  }

  ghost predicate NamedBefore(plan: seq<Action>, i: nat, id: Id)
    requires i <= |plan|
  {
    exists j :: 0 <= j < i && plan[j].id == id
  }

  /** Ids are unique and every dependency names a strictly earlier action. */
  ghost predicate WellFormed(plan: seq<Action>) {
    && UniqueIds(plan)
    && forall i, d :: 0 <= i < |plan| && d in plan[i].dependsOn ==> NamedBefore(plan, i, d)
  }

  /** The order in which a plan is considered: by `order`, ties as given. */
  function Declared(actions: seq<Action>): seq<Action> {
    Sort(actions, ByOrder)
  }

  lemma IdsOfNothing()
    ensures Ids([]) == {}
  {
  }

  lemma IdsOfPrefix(plan: seq<Action>, i: nat)
    requires i < |plan|
    ensures Ids(plan[..i + 1]) == Ids(plan[..i]) + {plan[i].id}
  {
    assert plan[..i + 1] == plan[..i] + [plan[i]];
  }

  lemma WellFormedStep(plan: seq<Action>, i: nat)
    requires i < |plan| && WellFormed(plan[..i])
    ensures WellFormed(plan[..i + 1]) <==>
            plan[i].id !in Ids(plan[..i]) && forall d :: d in plan[i].dependsOn ==> d in Ids(plan[..i])
  {
    var short, long := plan[..i], plan[..i + 1];
    assert forall j :: 0 <= j < i ==> short[j] == long[j] == plan[j] && plan[j] in short;
    forall d ensures NamedBefore(long, i, d) <==> d in Ids(short) {
      if NamedBefore(long, i, d) {
        var j :| 0 <= j < i && long[j].id == d;
        assert short[j] in short;
      }
    }
    forall j, d | 0 <= j < i && d in long[j].dependsOn ensures NamedBefore(long, j, d) {
      assert NamedBefore(short, j, d);
      var k :| 0 <= k < j && short[k].id == d;
      assert long[k].id == d;
    }
    if plan[i].id in Ids(short) {
      assert NamedBefore(long, i, plan[i].id);
    }
  }

  lemma WellFormedPrefix(plan: seq<Action>, i: nat)
    requires i <= |plan| && WellFormed(plan)
    ensures WellFormed(plan[..i])
  {
    forall j, d | 0 <= j < i && d in plan[..i][j].dependsOn ensures NamedBefore(plan[..i], j, d) {
      assert NamedBefore(plan, j, d);
      var k :| 0 <= k < j && plan[k].id == d;
      assert plan[..i][k].id == d;
    }
  }

  /** What one round of the plan check decides about the whole plan and about the part checked so far. */
  lemma WellFormedRound(plan: seq<Action>, i: nat)
    requires i < |plan| && WellFormed(plan[..i])
    ensures WellFormed(plan) ==>
              plan[i].id !in Ids(plan[..i]) && forall d :: d in plan[i].dependsOn ==> d in Ids(plan[..i])
    ensures plan[i].id !in Ids(plan[..i]) && (forall d :: d in plan[i].dependsOn ==> d in Ids(plan[..i])) ==>
              WellFormed(plan[..i + 1])
    ensures Ids(plan[..i + 1]) == Ids(plan[..i]) + {plan[i].id}
  {
    hide WellFormed, Ids;
    WellFormedStep(plan, i);
    IdsOfPrefix(plan, i);
    if WellFormed(plan) { WellFormedPrefix(plan, i + 1); }
  }

  /** Sorting by order leaves the order check nothing to object to. */
  lemma DeclaredAscends(actions: seq<Action>)
    ensures |Declared(actions)| == |actions|
    ensures forall i :: 0 < i < |actions| ==> Declared(actions)[i - 1].order <= Declared(actions)[i].order
  {
    SortIsOrderedPermutation(actions, ByOrder);
    SortMembers(actions, ByOrder);
    forall i | 0 < i < |actions| ensures Declared(actions)[i - 1].order <= Declared(actions)[i].order {
      assert ByOrder(Declared(actions)[i - 1]).AtMost(ByOrder(Declared(actions)[i]));
    }
  }

  /** The plan check of an interpretation: refuses exactly the plans that are not well formed. */
  method ValidatePlan(actions: seq<Action>, execute: bool) returns (ok: bool)
    ensures ok <==> WellFormed(Declared(actions)) && (execute || actions == [])
  {
    var ordered := Declared(actions);
    assert WellFormed(ordered[..0]);
    DeclaredAscends(actions);
    IdsOfNothing();
    hide WellFormed, Ids, Declared;
    var ids: set<Id> := {};
    var previousOrder: int := -1;
    for i := 0 to |ordered|
      invariant ids == Ids(ordered[..i])
      invariant WellFormed(ordered[..i])
      invariant previousOrder == if i == 0 then -1 else ordered[i - 1].order
    {
      var action := ordered[i];
      WellFormedRound(ordered, i);
      if action.id in ids || action.order < previousOrder || exists d :: d in action.dependsOn && d !in ids {
        return false;
      }
      ids := ids + {action.id};
      previousOrder := action.order;
    }
    assert ordered[..|ordered|] == ordered;
    ok := execute || actions == [];
  }
}
