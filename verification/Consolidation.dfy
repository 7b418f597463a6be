/** Merging exact duplicate memories: one active record is left for each owner, type and text. */
module Consolidation {
  import opened Options
  import opened StableSort

  type Mid = nat

  datatype Status = Active | Superseded | Deleted

  /** `words` are the casefolded, whitespace-separated words of the text. */
  datatype Memory = Memory(
    id: Mid, owner: Option<nat>, kind: nat, words: seq<nat>, status: Status,
    pinned: bool, updatedAt: int, supersedes: Option<Mid>)

  /** What makes two active memories duplicates. */
  datatype Claim = Claim(owner: Option<nat>, kind: nat, words: seq<nat>)

  function ClaimOf(m: Memory): Claim {
    Claim(m.owner, m.kind, m.words)
  }

  /** Newest first. */
  function ByRecency(m: Memory): Key {
    Key(-m.updatedAt, 0)
  }

  /** Pinned before unpinned, then newest first. */
  function ByRank(m: Memory): Key {
    Key(if m.pinned then 0 else 1, -m.updatedAt)
  }

  function MidOf(m: Memory): Mid {
    m.id
  }

  /** The active records of one claim, in listing order. */
  function Group(list: seq<Memory>, n: nat, claim: Claim): seq<Memory>
    requires n <= |list|
  {
    if n == 0 then []
    else Group(list, n - 1, claim)
         + if list[n - 1].status == Active && ClaimOf(list[n - 1]) == claim then [list[n - 1]] else []
  }

  lemma {:induction false} GroupMembers(list: seq<Memory>, n: nat, claim: Claim)
    requires n <= |list|
    ensures forall m :: m in Group(list, n, claim) <==> m in list[..n] && m.status == Active && ClaimOf(m) == claim
  {
    if n > 0 {
      GroupMembers(list, n - 1, claim);
      assert list[..n] == list[..n - 1] + [list[n - 1]];
    }
  }

  lemma {:induction false} GroupIsDistinct(list: seq<Memory>, n: nat, claim: Claim)
    requires n <= |list| && Distinct(list, MidOf)
    ensures Distinct(Group(list, n, claim), MidOf)
  {
    if n > 0 {
      GroupIsDistinct(list, n - 1, claim);
      GroupMembers(list, n - 1, claim);
      var part, last := Group(list, n - 1, claim), list[n - 1];
      assert Group(list, n, claim) == part || Group(list, n, claim) == part + [last];
      LastIsNew(list, n);
      DistinctSnoc(part, last, MidOf);
    }
  }

  lemma LastIsNew(list: seq<Memory>, n: nat)
    requires 0 < n <= |list| && Distinct(list, MidOf)
    ensures forall m :: m in list[..n - 1] ==> MidOf(m) != MidOf(list[n - 1])
  {
  }

  lemma GroupFacts(list: seq<Memory>, n: nat, claim: Claim)
    requires n <= |list|
    ensures forall m :: m in Group(list, n, claim) <==> m in list[..n] && m.status == Active && ClaimOf(m) == claim
    ensures Distinct(list, MidOf) ==> Distinct(Group(list, n, claim), MidOf)
  {
    GroupMembers(list, n, claim);
    if Distinct(list, MidOf) { GroupIsDistinct(list, n, claim); }
  }

  function Ranked(list: seq<Memory>, claim: Claim): seq<Memory> {
    Sort(Group(list, |list|, claim), ByRank)
  }

  lemma RankedFacts(list: seq<Memory>, claim: Claim)
    ensures Ordered(Ranked(list, claim), ByRank)
    ensures forall m :: m in Ranked(list, claim) <==> m in list && m.status == Active && ClaimOf(m) == claim
    ensures |Ranked(list, claim)| == |Group(list, |list|, claim)|
  {
    GroupFacts(list, |list|, claim);
    SortIsOrderedPermutation(Group(list, |list|, claim), ByRank);
    SortMembers(Group(list, |list|, claim), ByRank);
    assert list[..|list|] == list;
  }

  /** The record of an active memory's claim that stays active. */
  function Winner(list: seq<Memory>, m: Memory): Memory
    requires m in list && m.status == Active
  {
    RankedFacts(list, ClaimOf(m));
    Ranked(list, ClaimOf(m))[0]
  }

  /** What consolidation makes of one listed record. */
  function Consolidated(list: seq<Memory>, m: Memory, now: int): Memory
    requires m in list
  {
    if m.status == Active && Winner(list, m).id != m.id
    then m.(status := Superseded, supersedes := Some(Winner(list, m).id), updatedAt := now)
    else m
  }

  // ----- what consolidation achieves -----

  ghost predicate IsListing(list: seq<Memory>, records: map<Mid, Memory>) {
    && Distinct(list, MidOf)
    && (forall m :: m in list ==> m.id in records && records[m.id] == m)
    && (forall id :: id in records ==> records[id] in list && records[id].id == id)
  }

  ghost predicate IsConsolidated(list: seq<Memory>, before: map<Mid, Memory>, after: map<Mid, Memory>, now: int)
    requires IsListing(list, before)
  {
    after.Keys == before.Keys && forall id :: id in before ==> after[id] == Consolidated(list, before[id], now)
  }

  function ActiveIds(records: map<Mid, Memory>): set<Mid> {
    set id | id in records && records[id].status == Active
  }

  lemma WinnerFacts(list: seq<Memory>, records: map<Mid, Memory>, m: Memory)
    requires IsListing(list, records) && m in list && m.status == Active
    ensures var w := Winner(list, m);
            && w in list && w.status == Active && ClaimOf(w) == ClaimOf(m)
            && Winner(list, w) == w
            && (w.id == m.id <==> w == m)
            && (forall x :: x in list && x.status == Active && ClaimOf(x) == ClaimOf(m) ==>
                  (w.pinned || !x.pinned) && (w.pinned == x.pinned ==> w.updatedAt >= x.updatedAt))
  {
    RankedFacts(list, ClaimOf(m));
    var ranked := Ranked(list, ClaimOf(m));
    assert ranked[0] in ranked;
    forall x | x in list && x.status == Active && ClaimOf(x) == ClaimOf(m) ensures ByRank(ranked[0]).AtMost(ByRank(x)) {
      var i :| 0 <= i < |ranked| && ranked[i] == x;
    }
  }

  /** Afterwards no two active records share a claim, and every claim that had one still has one. */
  lemma OneActivePerClaim(list: seq<Memory>, before: map<Mid, Memory>, after: map<Mid, Memory>, now: int)
    requires IsListing(list, before) && IsConsolidated(list, before, after, now)
    ensures forall a, b :: a in ActiveIds(after) && b in ActiveIds(after) && a != b ==>
              after[a].owner != after[b].owner || after[a].kind != after[b].kind || after[a].words != after[b].words
    ensures (set id | id in ActiveIds(after) :: Claim(after[id].owner, after[id].kind, after[id].words)) ==
            (set id | id in ActiveIds(before) :: Claim(before[id].owner, before[id].kind, before[id].words))
  {
    forall id | id in before
      ensures id in ActiveIds(after) <==> id in ActiveIds(before) && Winner(list, before[id]) == before[id] {
      if before[id].status == Active { WinnerFacts(list, before, before[id]); }
    }
    forall id | id in ActiveIds(before)
      ensures Winner(list, before[id]).id in ActiveIds(after)
      ensures ClaimOf(after[Winner(list, before[id]).id]) == ClaimOf(before[id])
    {
      WinnerFacts(list, before, before[id]);
    }
  }

  predicate SameClaim(a: Memory, b: Memory) {
    a.owner == b.owner && a.kind == b.kind && a.words == b.words
  }

  /** A newly superseded record points at an active record of its claim, maximal by pinning and recency. */
  lemma SupersededPointsAtWinner(list: seq<Memory>, before: map<Mid, Memory>, after: map<Mid, Memory>,
                                 now: int, id: Mid)
    requires IsListing(list, before) && IsConsolidated(list, before, after, now)
    requires id in before && after[id] != before[id]
    ensures before[id].status == Active && after[id].supersedes.Some?
    ensures var w := after[id].supersedes.value;
            && after[id] == before[id].(status := Superseded, supersedes := Some(w), updatedAt := now)
            && w in after && w != id && after[w] == before[w] && after[w].status == Active
            && SameClaim(after[w], before[id])
            && (forall x :: x in ActiveIds(before) && SameClaim(before[x], before[id]) ==>
                  (after[w].pinned || !before[x].pinned)
                  && (after[w].pinned == before[x].pinned ==> after[w].updatedAt >= before[x].updatedAt))
  {
    WinnerFacts(list, before, before[id]);
  }

  /** Consolidating again changes nothing. */
  lemma SecondRunMergesNothing(list: seq<Memory>, before: map<Mid, Memory>, after: map<Mid, Memory>, now: int,
                               list2: seq<Memory>, last: map<Mid, Memory>, later: int)
    requires IsListing(list, before) && IsConsolidated(list, before, after, now)
    requires IsListing(list2, after) && IsConsolidated(list2, after, last, later)
    ensures last == after
  {
    OneActivePerClaim(list, before, after, now);
    forall id | id in after ensures last[id] == after[id] {
      if after[id].status == Active {
        WinnerFacts(list2, after, after[id]);
        assert Winner(list2, after[id]).id in ActiveIds(after);
      }
    }
  }

  // ----- half way through -----

  /** The records when the claims in `done`, and those records of one more group in `ranked`, are merged. */
  ghost predicate Halfway(list: seq<Memory>, before: map<Mid, Memory>, records: map<Mid, Memory>,
                          done: seq<Claim>, ranked: seq<Memory>, now: int)
    requires IsListing(list, before)
  {
    && records.Keys == before.Keys
    && forall id :: id in before ==>
         records[id] == if ClaimOf(before[id]) in done || before[id] in ranked then Consolidated(list, before[id], now)
                        else before[id]
  }

  ghost function Merged(before: map<Mid, Memory>, records: map<Mid, Memory>): set<Mid>
    requires records.Keys == before.Keys
  {
    set id | id in before && records[id] != before[id]
  }

  function Superseding(duplicate: Memory, winner: Memory, now: int): Memory {
    duplicate.(status := Superseded, supersedes := Some(winner.id), updatedAt := now)
  }

  lemma RankedInGroup(list: seq<Memory>, before: map<Mid, Memory>, claim: Claim, j: nat, now: int)
    requires IsListing(list, before) && j < |Ranked(list, claim)|
    ensures var d := Ranked(list, claim)[j];
            var winner := Ranked(list, claim)[0];
            && d.id in before && before[d.id] == d && ClaimOf(d) == claim && d !in Ranked(list, claim)[..j]
            && Consolidated(list, d, now) == (if j == 0 then d else Superseding(d, winner, now))
            && (j > 0 ==> Consolidated(list, d, now) != d)
  {
    RankedFacts(list, claim);
    GroupFacts(list, |list|, claim);
    SortKeepsDistinct(Group(list, |list|, claim), ByRank, MidOf);
    assert Ranked(list, claim)[j] in Ranked(list, claim);
  }

  lemma MergeFirst(list: seq<Memory>, before: map<Mid, Memory>, records: map<Mid, Memory>, done: seq<Claim>,
                   claim: Claim, now: int)
    requires IsListing(list, before) && Ranked(list, claim) != []
    requires Halfway(list, before, records, done, [], now)
    ensures Halfway(list, before, records, done, Ranked(list, claim)[..1], now)
  {
    hide Ranked, Consolidated;
    RankedInGroup(list, before, claim, 0, now);
    assert Ranked(list, claim)[..1] == [Ranked(list, claim)[0]];
  }

  lemma MergeOne(list: seq<Memory>, before: map<Mid, Memory>, records: map<Mid, Memory>, done: seq<Claim>,
                 claim: Claim, j: nat, now: int)
    requires IsListing(list, before) && 1 <= j < |Ranked(list, claim)| && claim !in done
    requires Halfway(list, before, records, done, Ranked(list, claim)[..j], now)
    ensures var d := Ranked(list, claim)[j];
            var merged := records[d.id := Superseding(d, Ranked(list, claim)[0], now)];
            && Halfway(list, before, merged, done, Ranked(list, claim)[..j + 1], now)
            && |Merged(before, merged)| == |Merged(before, records)| + 1
  {
    hide Ranked, Consolidated;
    RankedInGroup(list, before, claim, j, now);
    var ranked := Ranked(list, claim);
    var merged := records[ranked[j].id := Superseding(ranked[j], ranked[0], now)];
    assert ranked[..j + 1] == ranked[..j] + [ranked[j]];
    assert Merged(before, merged) == Merged(before, records) + {ranked[j].id};
    assert ranked[j].id !in Merged(before, records);
  }

  lemma MergeClosed(list: seq<Memory>, before: map<Mid, Memory>, records: map<Mid, Memory>, done: seq<Claim>,
                    claim: Claim, now: int)
    requires IsListing(list, before) && Halfway(list, before, records, done, Ranked(list, claim), now)
    ensures Halfway(list, before, records, done + [claim], [], now)
  {
    RankedFacts(list, claim);
    forall id | id in before && ClaimOf(before[id]) == claim && before[id] !in Ranked(list, claim)
      ensures Consolidated(list, before[id], now) == before[id]
    {
      assert before[id].status != Active;
    }
    hide Ranked, Consolidated, IsListing;
  }

  lemma DoneIsConsolidated(list: seq<Memory>, before: map<Mid, Memory>, done: seq<Claim>, m: Memory, now: int)
    requires IsListing(list, before) && m in list && ClaimOf(m) !in done
    requires forall c :: Group(list, |list|, c) != [] ==> c in done
    ensures Consolidated(list, m, now) == m
  {
    assert list[..|list|] == list;
    GroupMembers(list, |list|, ClaimOf(m));
    assert m !in Group(list, |list|, ClaimOf(m));
  }

  /** What consolidation changes are exactly the records that are no longer active. */
  lemma MergedAreSuperseded(list: seq<Memory>, before: map<Mid, Memory>, records: map<Mid, Memory>, now: int)
    requires IsListing(list, before) && IsConsolidated(list, before, records, now)
    ensures |Merged(before, records)| == |ActiveIds(before)| - |ActiveIds(records)|
  {
    hide Winner;
    assert Merged(before, records) == ActiveIds(before) - ActiveIds(records);
    assert ActiveIds(records) <= ActiveIds(before);
  }

  /** Once every claim with an active record is done, all records are as consolidation leaves them. */
  lemma MergeDone(list: seq<Memory>, before: map<Mid, Memory>, records: map<Mid, Memory>, done: seq<Claim>, now: int)
    requires IsListing(list, before) && Halfway(list, before, records, done, [], now)
    requires forall c :: Group(list, |list|, c) != [] ==> c in done
    ensures IsConsolidated(list, before, records, now)
    ensures |Merged(before, records)| == |ActiveIds(before)| - |ActiveIds(records)|
  {
    hide Group, Consolidated;
    forall id | id in before ensures records[id] == Consolidated(list, before[id], now) {
      if ClaimOf(before[id]) !in done { DoneIsConsolidated(list, before, done, before[id], now); }
    }
    MergedAreSuperseded(list, before, records, now);
  }

  // ----- the merge itself -----

  class MemoryPalace {
    var records: map<Mid, Memory>

    constructor (initial: map<Mid, Memory>)
      ensures records == initial
    {
      records := initial;
    }

    static ghost predicate GroupedAs(list: seq<Memory>, n: nat, groups: map<Claim, seq<Memory>>)
      requires n <= |list|
    {
      forall c :: Group(list, n, c) == (if c in groups then groups[c] else []) && (c in groups ==> groups[c] != [])
    }

    static ghost predicate Lists(claims: seq<Claim>, groups: map<Claim, seq<Memory>>) {
      && (forall c :: c in claims <==> c in groups)
      && (forall i, j :: 0 <= i < j < |claims| ==> claims[i] != claims[j])
    }

    static lemma GroupOneMore(list: seq<Memory>, n: nat, groups: map<Claim, seq<Memory>>)
      requires n < |list| && GroupedAs(list, n, groups)
      ensures var m := list[n];
              var c := ClaimOf(m);
              GroupedAs(list, n + 1,
                if m.status == Active then groups[c := (if c in groups then groups[c] else []) + [m]] else groups)
    {
    }

    /** Groups the active records by claim, in the order the claims are first met. */
    static method GroupByClaim(list: seq<Memory>) returns (claims: seq<Claim>, groups: map<Claim, seq<Memory>>)
      ensures Lists(claims, groups)
      ensures GroupedAs(list, |list|, groups)
    {
      hide Group;
      claims, groups := [], map[];
      EmptyGroups(list);
      for i := 0 to |list|
        invariant Lists(claims, groups)
        invariant GroupedAs(list, i, groups)
      {
        hide Lists, GroupedAs;
        GroupOneMore(list, i, groups);
        var m := list[i];
        if m.status == Active {
          var claim := ClaimOf(m);
          ListOneMore(claims, groups, claim, (if claim in groups then groups[claim] else []) + [m]);
          if claim !in groups {
            claims, groups := claims + [claim], groups[claim := []];
          }
          groups := groups[claim := groups[claim] + [m]];
        }
      }
    }

    static lemma EmptyGroups(list: seq<Memory>)
      ensures GroupedAs(list, 0, map[])
    {
    }

    static lemma ListOneMore(claims: seq<Claim>, groups: map<Claim, seq<Memory>>, claim: Claim, group: seq<Memory>)
      requires Lists(claims, groups)
      ensures Lists(if claim in groups then claims else claims + [claim], groups[claim := group])
      ensures claim !in groups ==> groups[claim := []][claim := group] == groups[claim := group]
    {
      if claim !in groups { assert claim !in claims; }
    }

    /** Supersedes every record of one group but the first of its ranking. */
    method MergeGroup(ghost list: seq<Memory>, ghost before: map<Mid, Memory>, ghost done: seq<Claim>,
                      ghost claim: Claim, group: seq<Memory>, now: int) returns (merged: nat)
      requires IsListing(list, before) && Halfway(list, before, records, done, [], now)
      requires claim !in done && group == Group(list, |list|, claim) && group != []
      modifies this
      ensures Halfway(list, before, records, done + [claim], [], now)
      ensures merged == |Merged(before, records)| - |Merged(before, old(records))|
    {
      merged := 0;
      var duplicates := Sort(group, ByRank);
      assert duplicates == Ranked(list, claim) != [] by { RankedFacts(list, claim); }
      hide Group, Ranked, Halfway, Merged, IsListing, Consolidated;
      MergeFirst(list, before, records, done, claim, now);
      var winner := duplicates[0];
      for j := 1 to |duplicates|
        invariant records.Keys == before.Keys
        invariant Halfway(list, before, records, done, duplicates[..j], now)
        invariant merged == |Merged(before, records)| - |Merged(before, old(records))|
      {
        MergeOne(list, before, records, done, claim, j, now);
        records := records[duplicates[j].id := Superseding(duplicates[j], winner, now)];
        merged := merged + 1;
      }
      assert duplicates[..|duplicates|] == duplicates;
      MergeClosed(list, before, records, done, claim, now);
    }

    /** Merges exact duplicates; `stored` is the order in which the collection returns its records. */
    method Consolidate(stored: seq<Memory>, now: int) returns (merged: nat)
      requires IsListing(stored, records)
      modifies this
      ensures IsListing(Sort(stored, ByRecency), old(records))
      ensures IsConsolidated(Sort(stored, ByRecency), old(records), records, now)
      ensures merged == |ActiveIds(old(records))| - |ActiveIds(records)|
    {
      ghost var before := records;
      var list := Sort(stored, ByRecency);
      SortKeepsDistinct(stored, ByRecency, MidOf);
      var claims, groups := GroupByClaim(list);
      merged := 0;
      assert Merged(before, records) == {};
      for i := 0 to |claims|
        invariant records.Keys == before.Keys
        invariant Halfway(list, before, records, claims[..i], [], now)
        invariant merged == |Merged(before, records)|
      {
        hide Group, Ranked, Merged, IsListing, Consolidated;
        assert claims[..i + 1] == claims[..i] + [claims[i]];
        assert claims[i] in claims && claims[i] !in claims[..i];
        var more := MergeGroup(list, before, claims[..i], claims[i], groups[claims[i]], now);
        merged := merged + more;
      }
      assert claims[..|claims|] == claims;
      MergeDone(list, before, records, claims, now);
    }
  }
}
