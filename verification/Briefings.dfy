/** Calendar conflicts in a briefing: the sorted sweep against the all-pairs specification. */
module Briefings {
  import opened Options
  import opened StableSort

  /** An agenda item; times are microseconds on a common clock. */
  datatype Item = Item(start: Option<int>, end: Option<int>)

  const HALF_HOUR := 1_800_000_000

  /** A timed item: its interval after repair, and its position in the agenda. */
  datatype Slot = Slot(start: int, end: int, item: nat)

  datatype Conflict = Conflict(first: nat, second: nat, overlapStart: int)

  /** An item without an end, or that ends no later than it starts, lasts half an hour. */
  function SlotOf(item: Item, i: nat): Slot
    requires item.start.Some?
  {
    var start := item.start.value;
    var end := if item.end.Some? then item.end.value else start;
    Slot(start, if end <= start then start + HALF_HOUR else end, i)
  }

  function Timed(agenda: seq<Item>, n: nat): seq<Slot>
    requires n <= |agenda|
  {
    if n == 0 then []
    else Timed(agenda, n - 1) + if agenda[n - 1].start.Some? then [SlotOf(agenda[n - 1], n - 1)] else []
  }

  function ByStart(s: Slot): Key {
    Key(s.start, 0)
  }

  predicate Overlap(a: Slot, b: Slot) {
    a.start < b.end && b.start < a.end
  }

  function Max(x: int, y: int): int {
    if x >= y then x else y
  }

  function ConflictOf(a: Slot, b: Slot): Conflict {
    Conflict(a.item, b.item, Max(a.start, b.start))
  }

  /** The conflicts of one slot with each of the others, without any early exit. */
  function Against(a: Slot, others: seq<Slot>): seq<Conflict> {
    if others == [] then []
    else (if Overlap(a, others[0]) then [ConflictOf(a, others[0])] else []) + Against(a, others[1..])
  }

  function AllPairs(slots: seq<Slot>): seq<Conflict> {
    if slots == [] then [] else Against(slots[0], slots[1..]) + AllPairs(slots[1..])
  }

  lemma {:induction false} AgainstSnoc(a: Slot, others: seq<Slot>, b: Slot)
    ensures Against(a, others + [b]) == Against(a, others) + if Overlap(a, b) then [ConflictOf(a, b)] else []
  {
    if others != [] {
      AgainstSnoc(a, others[1..], b);
      assert (others + [b])[1..] == others[1..] + [b];
    }
  }

  lemma {:induction false} NoneBeyond(a: Slot, others: seq<Slot>)
    requires forall i :: 0 <= i < |others| ==> others[i].start >= a.end
    ensures Against(a, others) == []
  {
    if others != [] { NoneBeyond(a, others[1..]); }
  }

  lemma {:induction false} AgainstConcat(a: Slot, xs: seq<Slot>, ys: seq<Slot>)
    ensures Against(a, xs + ys) == Against(a, xs) + Against(a, ys)
  {
    if xs == [] {
      assert xs + ys == ys;
    } else {
      AgainstConcat(a, xs[1..], ys);
      assert (xs + ys)[1..] == xs[1..] + ys;
    }
  }

  lemma AgainstNothing(a: Slot)
    ensures Against(a, []) == []
  {
  }

  /** Compares one slot with its successors, up to the first that starts too late. */
  method SweepOne(timed: seq<Slot>, index: nat) returns (part: seq<Conflict>)
    requires index < |timed| && Ordered(timed, ByStart)
    ensures part == Against(timed[index], timed[index + 1..])
  {
    hide Against, Ordered;
    var slot := timed[index];
    part := [];
    var j := index + 1;
    assert timed[index + 1..j] == [];
    AgainstNothing(slot);
    while j < |timed| && timed[j].start < slot.end
      invariant index < j <= |timed|
      invariant part == Against(slot, timed[index + 1..j])
    {
      var other := timed[j];
      AgainstSnoc(slot, timed[index + 1..j], other);
      assert timed[index + 1..j + 1] == timed[index + 1..j] + [other];
      if slot.start < other.end && other.start < slot.end {
        part := part + [ConflictOf(slot, other)];
      }
      j := j + 1;
    }
    StopsInTime(timed, index, j);
  }

  /** Once one slot starts too late, so do all later ones. */
  lemma StopsInTime(timed: seq<Slot>, index: nat, j: nat)
    requires index < j <= |timed| && Ordered(timed, ByStart)
    requires j < |timed| ==> timed[j].start >= timed[index].end
    ensures Against(timed[index], timed[index + 1..]) == Against(timed[index], timed[index + 1..j])
  {
    var slot := timed[index];
    forall k | j <= k < |timed| ensures timed[k].start >= slot.end {
      assert j < k ==> ByStart(timed[j]).AtMost(ByStart(timed[k]));
    }
    NoneBeyond(slot, timed[j..]);
    assert timed[index + 1..] == timed[index + 1..j] + timed[j..];
    AgainstConcat(slot, timed[index + 1..j], timed[j..]);
  }

  /** The sweep over the timed items, sorted by start. */
  method Conflicts(agenda: seq<Item>) returns (found: seq<Conflict>)
    ensures found == AllPairs(Sort(Timed(agenda, |agenda|), ByStart))
  {
    var timed := [];
    for i := 0 to |agenda|
      invariant timed == Timed(agenda, i)
    {
      if agenda[i].start.Some? {
        timed := timed + [SlotOf(agenda[i], i)];
      }
    }
    SortIsOrderedPermutation(timed, ByStart);
    timed := Sort(timed, ByStart);
    found := [];
    for index := 0 to |timed|
      invariant found + AllPairs(timed[index..]) == AllPairs(timed)
    {
      var part := SweepOne(timed, index);
      assert timed[index..][0] == timed[index] && timed[index..][1..] == timed[index + 1..];
      assert found + (part + AllPairs(timed[index + 1..])) == found + part + AllPairs(timed[index + 1..]);
      found := found + part;
    }
    assert timed[|timed|..] == [];
  }

  // ----- what the report says about the agenda -----

  predicate About(c: Conflict, p: nat, q: nat) {
    (c.first == p && c.second == q) || (c.first == q && c.second == p)
  }

  /** How often the report mentions the pair of items p and q, in either order. */
  function Mentions(found: seq<Conflict>, p: nat, q: nat): nat {
    if found == [] then 0 else (if About(found[0], p, q) then 1 else 0) + Mentions(found[1..], p, q)
  }

  function ItemOf(s: Slot): nat {
    s.item
  }

  lemma {:induction false} MentionsConcat(xs: seq<Conflict>, ys: seq<Conflict>, p: nat, q: nat)
    ensures Mentions(xs + ys, p, q) == Mentions(xs, p, q) + Mentions(ys, p, q)
  {
    if xs == [] {
      assert xs + ys == ys;
    } else {
      MentionsConcat(xs[1..], ys, p, q);
      assert (xs + ys)[1..] == xs[1..] + ys;
    }
  }

  lemma {:induction false} AgainstMentions(a: Slot, others: seq<Slot>, b: Slot)
    requires Distinct(others, ItemOf)
    ensures b in others ==> Mentions(Against(a, others), a.item, b.item) == if Overlap(a, b) then 1 else 0
    ensures (forall x :: x in others ==> x.item != b.item) ==> Mentions(Against(a, others), a.item, b.item) == 0
  {
    if others != [] {
      var head, tail := others[0], others[1..];
      AgainstMentions(a, tail, b);
      MentionsConcat(if Overlap(a, head) then [ConflictOf(a, head)] else [], Against(a, tail), a.item, b.item);
      assert others == [head] + tail;
      assert forall x :: x in tail ==> x.item != head.item;
    }
  }

  lemma {:induction false} AgainstOthers(a: Slot, others: seq<Slot>, p: nat, q: nat)
    requires a.item != p && a.item != q
    ensures Mentions(Against(a, others), p, q) == 0
  {
    if others != [] {
      AgainstOthers(a, others[1..], p, q);
      MentionsConcat(if Overlap(a, others[0]) then [ConflictOf(a, others[0])] else [], Against(a, others[1..]), p, q);
    }
  }

  lemma MentionsSymmetric(found: seq<Conflict>, p: nat, q: nat)
    ensures Mentions(found, p, q) == Mentions(found, q, p)
  {
  }

  lemma {:induction false} AllPairsMentions(slots: seq<Slot>, a: Slot, b: Slot)
    requires Distinct(slots, ItemOf) && a in slots && b in slots && a != b
    ensures Mentions(AllPairs(slots), a.item, b.item) == if Overlap(a, b) then 1 else 0
  {
    var head, tail := slots[0], slots[1..];
    assert slots == [head] + tail;
    MentionsConcat(Against(head, tail), AllPairs(tail), a.item, b.item);
    assert AllPairs(slots) == Against(head, tail) + AllPairs(tail);
    hide Mentions, Against, AllPairs;
    if head == a || head == b {
      var other := if head == a then b else a;
      AgainstMentions(head, tail, other);
      MentionsSymmetric(Against(head, tail), a.item, b.item);
      AbsentFromPairs(tail, head.item, other.item);
      MentionsSymmetric(AllPairs(tail), a.item, b.item);
    } else {
      var i, j :| 0 <= i < |slots| && 0 <= j < |slots| && slots[i] == a && slots[j] == b;
      AgainstOthers(head, tail, a.item, b.item);
      AllPairsMentions(tail, a, b);
    }
  }

  lemma {:induction false} AgainstAbsent(a: Slot, others: seq<Slot>, p: nat, q: nat)
    requires a.item != p && forall x :: x in others ==> x.item != p
    ensures Mentions(Against(a, others), p, q) == 0
  {
    if others != [] {
      AgainstAbsent(a, others[1..], p, q);
      MentionsConcat(if Overlap(a, others[0]) then [ConflictOf(a, others[0])] else [], Against(a, others[1..]), p, q);
    }
  }

  lemma {:induction false} AbsentFromPairs(slots: seq<Slot>, p: nat, q: nat)
    requires forall x :: x in slots ==> x.item != p
    ensures Mentions(AllPairs(slots), p, q) == 0
  {
    if slots != [] {
      AgainstAbsent(slots[0], slots[1..], p, q);
      AbsentFromPairs(slots[1..], p, q);
      MentionsConcat(Against(slots[0], slots[1..]), AllPairs(slots[1..]), p, q);
    }
  }

  lemma {:induction false} TimedFacts(agenda: seq<Item>, n: nat)
    requires n <= |agenda|
    ensures Distinct(Timed(agenda, n), ItemOf)
    ensures forall s :: s in Timed(agenda, n) <==>
              s.item < n && agenda[s.item].start.Some? && s == SlotOf(agenda[s.item], s.item)
  {
    if n > 0 { TimedFacts(agenda, n - 1); }
  }

  /** When an item is over: at its end, or half an hour after its start if that is no later than the start. */
  function Finish(item: Item): int
    requires item.start.Some?
  {
    if item.end.Some? && item.end.value > item.start.value then item.end.value
    else item.start.value + 30 * 60 * 1_000_000
  }

  /** Both items are timed, and each starts before the other is over. */
  predicate Clash(a: Item, b: Item) {
    a.start.Some? && b.start.Some? && a.start.value < Finish(b) && b.start.value < Finish(a)
  }

  /** The report mentions a pair of agenda items exactly once if they clash, and never otherwise. */
  lemma ConflictsAreTheOverlaps(agenda: seq<Item>, p: nat, q: nat)
    requires p != q
    ensures Mentions(AllPairs(Sort(Timed(agenda, |agenda|), ByStart)), p, q) ==
            if p < |agenda| && q < |agenda| && Clash(agenda[p], agenda[q]) then 1 else 0
  {
    var timed := Timed(agenda, |agenda|);
    var slots := Sort(timed, ByStart);
    TimedFacts(agenda, |agenda|);
    SortKeepsDistinct(timed, ByStart, ItemOf);
    MentionsSymmetric(AllPairs(slots), p, q);
    if p >= |agenda| || agenda[p].start.None? {
      AbsentFromPairs(slots, p, q);
    } else if q >= |agenda| || agenda[q].start.None? {
      AbsentFromPairs(slots, q, p);
    } else {
      AllPairsMentions(slots, SlotOf(agenda[p], p), SlotOf(agenda[q], q));
    }
  }

  lemma {:induction false} AgainstMembers(a: Slot, others: seq<Slot>, c: Conflict)
    requires c in Against(a, others)
    ensures exists b :: b in others && Overlap(a, b) && c == ConflictOf(a, b)
  {
    var part := if Overlap(a, others[0]) then [ConflictOf(a, others[0])] else [];
    assert others[0] in others;
    if c !in part { AgainstMembers(a, others[1..], c); }
  }

  lemma {:induction false} AllPairsMembers(slots: seq<Slot>, c: Conflict)
    requires c in AllPairs(slots) && Ordered(slots, ByStart)
    ensures exists a, b :: a in slots && b in slots && a.start <= b.start && Overlap(a, b) && c == ConflictOf(a, b)
  {
    var head, tail := slots[0], slots[1..];
    assert slots == [head] + tail;
    if c in Against(head, tail) {
      AgainstMembers(head, tail, c);
      var b :| b in tail && Overlap(head, b) && c == ConflictOf(head, b);
      var j :| 0 <= j < |tail| && tail[j] == b;
      assert ByStart(slots[0]).AtMost(ByStart(slots[j + 1]));
    } else {
      assert c in AllPairs(tail);
      AllPairsMembers(tail, c);
    }
  }

  /** A reported conflict names the earlier item first, and starts when the later one does. */
  lemma ConflictsAreExact(agenda: seq<Item>, c: Conflict)
    requires c in AllPairs(Sort(Timed(agenda, |agenda|), ByStart))
    ensures c.first < |agenda| && c.second < |agenda| && Clash(agenda[c.first], agenda[c.second])
    ensures agenda[c.first].start.value <= agenda[c.second].start.value == c.overlapStart
  {
    hide Timed, AllPairs, Against, Sort, Ordered, Clash, Overlap;
    SortedTimed(agenda);
    var slots := Sort(Timed(agenda, |agenda|), ByStart);
    AllPairsMembers(slots, c);
    var a, b :| a in slots && b in slots && a.start <= b.start && Overlap(a, b) && c == ConflictOf(a, b);
    SlotMeans(agenda, a);
    SlotMeans(agenda, b);
    OverlapMeans(agenda[a.item], agenda[b.item], a, b);
  }

  lemma SortedTimed(agenda: seq<Item>)
    ensures var timed := Timed(agenda, |agenda|);
            Ordered(Sort(timed, ByStart), ByStart) && forall s :: s in Sort(timed, ByStart) <==> s in timed
  {
    hide Timed;
    SortIsOrderedPermutation(Timed(agenda, |agenda|), ByStart);
    SortMembers(Timed(agenda, |agenda|), ByStart);
  }

  lemma OverlapMeans(x: Item, y: Item, a: Slot, b: Slot)
    requires x.start == Some(a.start) && y.start == Some(b.start) && a.end == Finish(x) && b.end == Finish(y)
    ensures Overlap(a, b) <==> Clash(x, y)
  {
  }

  lemma SlotMeans(agenda: seq<Item>, s: Slot)
    requires s in Timed(agenda, |agenda|)
    ensures s.item < |agenda| && agenda[s.item].start == Some(s.start) && s.end == Finish(agenda[s.item])
  {
    TimedFacts(agenda, |agenda|);
  }
}
