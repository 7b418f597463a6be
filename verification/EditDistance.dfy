/** Word-level edit distance and the error rate built on it. */
module EditDistance {

  /** An edit script, read from the ends of the two word lists towards their beginnings. */
  datatype Script = Done | Keep(rest: Script) | Substitute(rest: Script) | Delete(rest: Script) | Insert(rest: Script)

  function Init<W>(xs: seq<W>): seq<W>
    requires xs != []
  {
    xs[..|xs| - 1]
  }

  function Last<W>(xs: seq<W>): W
    requires xs != []
  {
    xs[|xs| - 1]
  }

  /** Whether the script turns a into b. */
  ghost predicate Turns<W>(s: Script, a: seq<W>, b: seq<W>) {
    match s
    case Done => a == [] && b == []
    case Keep(rest) => a != [] && b != [] && Last(a) == Last(b) && Turns(rest, Init(a), Init(b))
    case Substitute(rest) => a != [] && b != [] && Turns(rest, Init(a), Init(b))
    case Delete(rest) => a != [] && Turns(rest, Init(a), b)
    case Insert(rest) => b != [] && Turns(rest, a, Init(b))
  }

  function Cost(s: Script): nat {
    match s
    case Done => 0
    case Keep(rest) => Cost(rest)
    case Substitute(rest) => 1 + Cost(rest)
    case Delete(rest) => 1 + Cost(rest)
    case Insert(rest) => 1 + Cost(rest)
  }

  function Min(x: nat, y: nat): nat {
    if x <= y then x else y
  }

  /** The recurrence the rows follow: a match takes the diagonal without a minimum. */
  function Distance<W(==)>(a: seq<W>, b: seq<W>): nat
    decreases |a| + |b|
  {
    if a == [] then |b|
    else if b == [] then |a|
    else if Last(a) == Last(b) then Distance(Init(a), Init(b))
    else 1 + Min(Distance(Init(a), Init(b)), Min(Distance(Init(a), b), Distance(a, Init(b))))
  }

  lemma SnocInit<W>(xs: seq<W>, x: W)
    ensures Init(xs + [x]) == xs && Last(xs + [x]) == x
  {
  }

  lemma DistanceStep<W>(a: seq<W>, x: W, b: seq<W>, y: W)
    ensures Distance(a + [x], b + [y]) ==
            if x == y then Distance(a, b) else 1 + Min(Distance(a, b), Min(Distance(a, b + [y]), Distance(a + [x], b)))
  {
    SnocInit(a, x);
    SnocInit(b, y);
  }

  lemma DistanceEdge<W>(a: seq<W>)
    ensures Distance(a, []) == |a| && Distance([], a) == |a|
  {
  }

  /** The two-row table computes the recurrence. */
  method TwoRowDistance<W(==)>(reference: seq<W>, hypothesis: seq<W>) returns (d: nat)
    ensures d == Distance(reference, hypothesis)
  {
    hide Distance;
    var previous: seq<nat> := seq(|hypothesis| + 1, i => i);
    forall j | 0 <= j <= |hypothesis| ensures Distance(reference[..0], hypothesis[..j]) == j {
      assert reference[..0] == [];
      DistanceEdge(hypothesis[..j]);
    }
    for row := 0 to |reference|
      invariant |previous| == |hypothesis| + 1
      invariant forall j :: 0 <= j <= |hypothesis| ==> previous[j] == Distance(reference[..row], hypothesis[..j])
    {
      var expected := reference[row];
      var current: seq<nat> := [row + 1];
      assert reference[..row + 1] == reference[..row] + [expected];
      assert hypothesis[..0] == [];
      DistanceEdge(reference[..row + 1]);
      for column := 0 to |hypothesis|
        invariant |current| == column + 1
        invariant forall j :: 0 <= j <= column ==> current[j] == Distance(reference[..row + 1], hypothesis[..j])
      {
        var actual := hypothesis[column];
        assert hypothesis[..column + 1] == hypothesis[..column] + [actual];
        DistanceStep(reference[..row], expected, hypothesis[..column], actual);
        current := current + [
          if expected == actual then previous[column]
          else 1 + Min(previous[column], Min(previous[column + 1], current[column]))];
      }
      previous := current;
    }
    assert reference[..|reference|] == reference && hypothesis[..|hypothesis|] == hypothesis;
    d := previous[|previous| - 1];
  }

  // ----- the recurrence is the cheapest script -----

  /** Some script achieves the distance. */
  lemma {:induction false} DistanceIsAchieved<W>(a: seq<W>, b: seq<W>) returns (s: Script)
    ensures Turns(s, a, b) && Cost(s) == Distance(a, b)
    decreases |a| + |b|
  {
    if a == [] && b == [] {
      s := Done;
    } else if a == [] {
      s := DistanceIsAchieved(a, Init(b));
      s := Insert(s);
    } else if b == [] {
      s := DistanceIsAchieved(Init(a), b);
      s := Delete(s);
    } else if Last(a) == Last(b) {
      s := DistanceIsAchieved(Init(a), Init(b));
      s := Keep(s);
    } else if Distance(a, b) == 1 + Distance(Init(a), Init(b)) {
      s := DistanceIsAchieved(Init(a), Init(b));
      s := Substitute(s);
    } else if Distance(a, b) == 1 + Distance(Init(a), b) {
      s := DistanceIsAchieved(Init(a), b);
      s := Delete(s);
    } else {
      s := DistanceIsAchieved(a, Init(b));
      s := Insert(s);
    }
  }

  /** One word more on either side changes the distance by at most one. */
  lemma {:induction false} OneWordMore<W>(a: seq<W>, b: seq<W>)
    ensures a != [] ==> Distance(Init(a), b) <= Distance(a, b) + 1 && Distance(a, b) <= Distance(Init(a), b) + 1
    ensures b != [] ==> Distance(a, Init(b)) <= Distance(a, b) + 1 && Distance(a, b) <= Distance(a, Init(b)) + 1
    decreases |a| + |b|
  {
    if a != [] && b != [] {
      OneWordMore(Init(a), b);
      OneWordMore(a, Init(b));
      OneWordMore(Init(a), Init(b));
    }
  }

  /** Taking the diagonal on a match is never beaten, so no script is cheaper than the distance. */
  lemma {:induction false} NoScriptIsCheaper<W>(s: Script, a: seq<W>, b: seq<W>)
    requires Turns(s, a, b)
    ensures Distance(a, b) <= Cost(s)
  {
    match s
    case Done =>
    case Keep(rest) => NoScriptIsCheaper(rest, Init(a), Init(b));
    case Substitute(rest) =>
      NoScriptIsCheaper(rest, Init(a), Init(b));
    case Delete(rest) =>
      NoScriptIsCheaper(rest, Init(a), b);
      OneWordMore(a, b);
    case Insert(rest) =>
      NoScriptIsCheaper(rest, a, Init(b));
      OneWordMore(a, b);
  }

  // ----- a metric -----

  lemma {:induction false} ZeroMeansEqual<W>(a: seq<W>, b: seq<W>)
    ensures Distance(a, b) == 0 <==> a == b
    decreases |a| + |b|
  {
    if a != [] && b != [] {
      assert a == Init(a) + [Last(a)] && b == Init(b) + [Last(b)];
      ZeroMeansEqual(Init(a), Init(b));
    }
  }

  lemma {:induction false} DistanceIsSymmetric<W>(a: seq<W>, b: seq<W>)
    ensures Distance(a, b) == Distance(b, a)
    decreases |a| + |b|
  {
    if a != [] && b != [] {
      DistanceIsSymmetric(Init(a), Init(b));
      DistanceIsSymmetric(Init(a), b);
      DistanceIsSymmetric(a, Init(b));
    }
  }

  /** Scripts compose: doing one and then the other costs no more than both. */
  lemma {:induction false} Compose<W>(s: Script, t: Script, a: seq<W>, b: seq<W>, c: seq<W>) returns (u: Script)
    requires Turns(s, a, b) && Turns(t, b, c)
    ensures Turns(u, a, c) && Cost(u) <= Cost(s) + Cost(t)
    decreases s, t
  {
    if t.Insert? {
      u := Compose(s, t.rest, a, b, Init(c));
      u := Insert(u);
    } else if s.Delete? {
      u := Compose(s.rest, t, Init(a), b, c);
      u := Delete(u);
    } else if s.Done? {
      u := Done;
    } else if s.Insert? {
      if t.Delete? {
        u := Compose(s.rest, t.rest, a, Init(b), c);
      } else {
        u := Compose(s.rest, t.rest, a, Init(b), Init(c));
        u := Insert(u);
      }
    } else if t.Delete? {
      u := Compose(s.rest, t.rest, Init(a), Init(b), c);
      u := Delete(u);
    } else {
      u := Compose(s.rest, t.rest, Init(a), Init(b), Init(c));
      u := if s.Keep? && t.Keep? then Keep(u) else Substitute(u);
    }
  }

  lemma TriangleInequality<W>(a: seq<W>, b: seq<W>, c: seq<W>)
    ensures Distance(a, c) <= Distance(a, b) + Distance(b, c)
  {
    var s := DistanceIsAchieved(a, b);
    var t := DistanceIsAchieved(b, c);
    var u := Compose(s, t, a, b, c);
    NoScriptIsCheaper(u, a, c);
  }

  lemma {:induction false} DistanceBounds<W>(a: seq<W>, b: seq<W>)
    ensures |a| - |b| <= Distance(a, b) && |b| - |a| <= Distance(a, b)
    ensures Distance(a, b) <= |a| || Distance(a, b) <= |b|
    decreases |a| + |b|
  {
    if a != [] && b != [] {
      DistanceBounds(Init(a), Init(b));
      DistanceBounds(Init(a), b);
      DistanceBounds(a, Init(b));
    }
  }

  ghost predicate Cheapest<W(!new)>(s: Script, a: seq<W>, b: seq<W>) {
    Turns(s, a, b) && forall t :: Turns(t, a, b) ==> Cost(s) <= Cost(t)
  }

  /** The distance is the least cost over all insert, delete and substitute scripts. */
  lemma DistanceIsLeastCost<W(!new)>(a: seq<W>, b: seq<W>) returns (s: Script)
    ensures Cheapest(s, a, b) && Cost(s) == Distance(a, b)
  {
    s := DistanceIsAchieved(a, b);
    forall t | Turns(t, a, b) ensures Cost(s) <= Cost(t) { NoScriptIsCheaper(t, a, b); }
  }

  function Ratio(d: nat, n: nat): (r: real)
    requires n > 0
    ensures r * n as real == d as real && r >= 0.0
    ensures r == 0.0 <==> d == 0
    ensures d <= n ==> r <= 1.0
  {
    d as real / n as real
  }

  /** Errors per reference word; an empty reference counts as no error. */
  method WordErrorRate<W(==, !new)>(expected: seq<W>, heard: seq<W>) returns (rate: real)
    ensures rate == 0.0 <==> expected == [] || heard == expected
    ensures |heard| <= |expected| ==> rate <= 1.0
    ensures expected != [] ==>
              exists s :: Cheapest(s, expected, heard) && rate * |expected| as real == Cost(s) as real
  {
    hide Distance, Cheapest;
    if expected == [] {
      return 0.0;
    }
    var d := TwoRowDistance(expected, heard);
    rate := Ratio(d, |expected|);
    ZeroMeansEqual(expected, heard);
    DistanceBounds(expected, heard);
    ghost var s := DistanceIsLeastCost(expected, heard);
  }
}
