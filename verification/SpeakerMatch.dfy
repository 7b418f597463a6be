/** Deciding who speaks: the best template of each person, and the margin over everyone else. */
module SpeakerMatch {
  import opened Options
  import opened StableSort

  type Person = nat

  /** Cosine scores in millionths, so that the score 1.0 is `ONE`. */
  const ONE: int := 1_000_000

  datatype Template = Template(id: nat, person: Option<Person>, active: bool)

  datatype Scored = Scored(template: Template, score: int)

  function ByScore(s: Scored): Key {
    Key(-s.score, 0)
  }

  /** Only active templates bound to a person take part in a global match. */
  predicate Eligible(t: Template) {
    t.person.Some? && t.active
  }

  /** No earlier template of the same person scores as high, and no later one higher. */
  ghost predicate Represents(templates: seq<Template>, n: nat, score: Template -> int, person: Person, best: Scored)
    requires n <= |templates|
  {
    exists k :: 0 <= k < n && templates[k] == best.template
                && Eligible(templates[k]) && templates[k].person == Some(person) && score(templates[k]) == best.score
                && forall i :: 0 <= i < n && Eligible(templates[i]) && templates[i].person == Some(person) ==>
                     if i < k then score(templates[i]) < best.score else score(templates[i]) <= best.score
  }

  ghost predicate Seen(templates: seq<Template>, n: nat, person: Person)
    requires n <= |templates|
  {
    exists k :: 0 <= k < n && Eligible(templates[k]) && templates[k].person == Some(person)
  }

  /** The dictionary after the first n templates: each person seen so far, with the best template. */
  ghost predicate Tabulated(templates: seq<Template>, n: nat, score: Template -> int,
                            persons: seq<Person>, best: map<Person, Scored>)
    requires n <= |templates|
  {
    && (forall p :: p in persons <==> p in best)
    && (forall i, j :: 0 <= i < j < |persons| ==> persons[i] != persons[j])
    && (forall p :: p in best <==> Seen(templates, n, p))
    && (forall p :: p in best ==> Represents(templates, n, score, p, best[p]))
  }

  lemma TabulateOneMore(templates: seq<Template>, n: nat, score: Template -> int,
                        persons: seq<Person>, best: map<Person, Scored>)
    requires n < |templates| && Tabulated(templates, n, score, persons, best)
    ensures !Eligible(templates[n]) ==> Tabulated(templates, n + 1, score, persons, best)
    ensures Eligible(templates[n]) ==>
              var p := templates[n].person.value;
              var s := score(templates[n]);
              var best' := if p in best && s <= best[p].score then best else best[p := Scored(templates[n], s)];
              Tabulated(templates, n + 1, score, if p in best then persons else persons + [p], best')
  {
    var t := templates[n];
    forall p | p in best && (!Eligible(t) || t.person != Some(p) || score(t) <= best[p].score)
      ensures Represents(templates, n + 1, score, p, best[p])
    {
    }
    forall p: Person
      ensures Seen(templates, n + 1, p) <==> Seen(templates, n, p) || (Eligible(t) && t.person == Some(p)) {
      if Eligible(t) && t.person == Some(p) { assert Seen(templates, n + 1, p); }
    }
    if Eligible(t) && (t.person.value !in best || score(t) > best[t.person.value].score) {
      NewBest(templates, n, score, best);
    }
  }

  lemma NewBest(templates: seq<Template>, n: nat, score: Template -> int, best: map<Person, Scored>)
    requires n < |templates| && Eligible(templates[n])
    requires forall p :: p in best <==> Seen(templates, n, p)
    requires forall p :: p in best ==> Represents(templates, n, score, p, best[p])
    requires templates[n].person.value in best ==> score(templates[n]) > best[templates[n].person.value].score
    ensures Represents(templates, n + 1, score, templates[n].person.value, Scored(templates[n], score(templates[n])))
  {
    var p := templates[n].person.value;
    forall i | 0 <= i < n && Eligible(templates[i]) && templates[i].person == Some(p)
      ensures score(templates[i]) < score(templates[n])
    {
      assert Seen(templates, n, p);
    }
  }

  /** The best score of all eligible templates, and the best among those of any other person. */
  ghost predicate IsRanking(templates: seq<Template>, score: Template -> int,
                            best: Option<Template>, top: int, runnerUp: int) {
    match best
    case None => top == -ONE && runnerUp == -ONE && forall t :: t in templates ==> !Eligible(t)
    case Some(b) =>
      && b in templates && Eligible(b) && top == score(b)
      && (forall t :: t in templates && Eligible(t) ==> score(t) <= top)
      && (forall t :: t in templates && Eligible(t) && t.person != b.person ==> score(t) <= runnerUp)
      && (if exists t :: t in templates && Eligible(t) && t.person != b.person
          then exists t :: t in templates && Eligible(t) && t.person != b.person && score(t) == runnerUp
          else runnerUp == -ONE)
  }

  /** Groups by person, ranks the persons, and reports the winner with the two best scores. */
  method BestActive(templates: seq<Template>, score: Template -> int)
    returns (best: Option<Template>, top: int, runnerUp: int)
    ensures IsRanking(templates, score, best, top, runnerUp)
    ensures best.Some? ==> Represents(templates, |templates|, score, best.value.person.value, Scored(best.value, top))
  {
    var persons: seq<Person>, bestByPerson: map<Person, Scored> := [], map[];
    for i := 0 to |templates|
      invariant Tabulated(templates, i, score, persons, bestByPerson)
    {
      TabulateOneMore(templates, i, score, persons, bestByPerson);
      hide Tabulated;
      var template := templates[i];
      if Eligible(template) {
        var person, s := template.person.value, score(template);
        if person !in bestByPerson {
          persons := persons + [person];
          bestByPerson := bestByPerson[person := Scored(template, s)];
        } else if s > bestByPerson[person].score {
          bestByPerson := bestByPerson[person := Scored(template, s)];
        }
      }
    }
    var ranked := Sort(Values(persons, bestByPerson), ByScore);
    RankingFacts(templates, score, persons, bestByPerson);
    hide *;
    if ranked == [] { return None, -ONE, -ONE; }
    runnerUp := if |ranked| > 1 then ranked[1].score else -ONE;
    return Some(ranked[0].template), ranked[0].score, runnerUp;
  }

  /** The dictionary's values, in the order in which the persons were first entered. */
  function Values(persons: seq<Person>, best: map<Person, Scored>): (values: seq<Scored>)
    requires forall p :: p in persons ==> p in best
    ensures |values| == |persons| && forall i :: 0 <= i < |persons| ==> values[i] == best[persons[i]]
  {
    seq(|persons|, i requires 0 <= i < |persons| => best[persons[i]])
  }

  function PersonOf(s: Scored): Option<Person> {
    s.template.person
  }

  /** Someone in the ranking speaks for t, with a score at least as high. */
  ghost predicate Covers(ranked: seq<Scored>, t: Template, s: int) {
    exists k :: 0 <= k < |ranked| && ranked[k].template.person == t.person && s <= ranked[k].score
  }

  ghost predicate Covered(templates: seq<Template>, score: Template -> int, ranked: seq<Scored>) {
    && (forall r :: r in ranked ==> r.template in templates && Eligible(r.template) && score(r.template) == r.score)
    && (forall t :: t in templates && Eligible(t) ==> Covers(ranked, t, score(t)))
  }

  lemma RankingFacts(templates: seq<Template>, score: Template -> int, persons: seq<Person>, best: map<Person, Scored>)
    requires Tabulated(templates, |templates|, score, persons, best)
    ensures var ranked := Sort(Values(persons, best), ByScore);
            && (ranked == [] ==> IsRanking(templates, score, None, -ONE, -ONE))
            && (ranked != [] ==>
                  && IsRanking(templates, score, Some(ranked[0].template), ranked[0].score,
                               if |ranked| > 1 then ranked[1].score else -ONE)
                  && ranked[0].template.person.Some?
                  && Represents(templates, |templates|, score, ranked[0].template.person.value,
                                Scored(ranked[0].template, ranked[0].score)))
  {
    var values := Values(persons, best);
    var ranked := Sort(values, ByScore);
    assert Distinct(values, PersonOf);
    SortKeepsDistinct(values, ByScore, PersonOf);
    SortIsOrderedPermutation(values, ByScore);
    SortMembers(values, ByScore);
    forall r | r in ranked
      ensures r.template in templates && Eligible(r.template) && score(r.template) == r.score
      ensures Represents(templates, |templates|, score, r.template.person.value, r)
    {
      assert r in values;
    }
    forall t | t in templates && Eligible(t) ensures Covers(ranked, t, score(t)) {
      var i :| 0 <= i < |templates| && templates[i] == t;
      assert Seen(templates, |templates|, t.person.value);
      assert best[t.person.value] in ranked;
    }
    assert ranked != [] ==> ranked[0] in ranked;
    hide Tabulated, Represents, Seen, Sort, Values;
    RankedDecides(templates, score, ranked);
  }

  lemma RankedDecides(templates: seq<Template>, score: Template -> int, ranked: seq<Scored>)
    requires Ordered(ranked, ByScore) && Distinct(ranked, PersonOf)
    requires Covered(templates, score, ranked)
    ensures ranked == [] ==> IsRanking(templates, score, None, -ONE, -ONE)
    ensures ranked != [] ==> IsRanking(templates, score, Some(ranked[0].template), ranked[0].score,
                                       if |ranked| > 1 then ranked[1].score else -ONE)
  {
    if ranked != [] {
      assert ranked[0] in ranked;
      forall t | t in templates && Eligible(t)
        ensures score(t) <= ranked[0].score
        ensures t.person != ranked[0].template.person ==> |ranked| > 1 && score(t) <= ranked[1].score
      {
        assert Covers(ranked, t, score(t));
        var k :| 0 <= k < |ranked| && ranked[k].template.person == t.person && score(t) <= ranked[k].score;
        hide Covered;
        assert k > 0 ==> ByScore(ranked[0]).AtMost(ByScore(ranked[k]));
        assert k > 1 ==> ByScore(ranked[1]).AtMost(ByScore(ranked[k]));
      }
      if |ranked| > 1 {
        assert PersonOf(ranked[0]) != PersonOf(ranked[1]);
        assert ranked[1] in ranked;
      }
    }
  }

  // ----- the decision -----

  /** What a recognition is based on; `Enrolled` creates a new pending template. */
  datatype Decision =
    | Bound(template: Template, score: int)
    | Matched(template: Template, score: int, adapts: bool)
    | Clustered(template: Template, score: int)
    | Enrolled

  datatype Preference = Preference(id: Option<nat>, threshold: Option<int>)

  datatype Limits = Limits(threshold: int, margin: int, cluster: int)

  ghost predicate PreferenceHolds(templates: seq<Template>, score: Template -> int, preference: Preference) {
    && preference.id.Some? && preference.threshold.Some?
    && exists k :: 0 <= k < |templates| && templates[k].id == preference.id.value
                   && (forall i :: 0 <= i < k ==> templates[i].id != preference.id.value)
                   && score(templates[k]) >= preference.threshold.value
  }

  /** t clears the threshold, no eligible template beats it, and every other person trails by the margin. */
  ghost predicate StandsOut(templates: seq<Template>, score: Template -> int, limits: Limits, t: Template) {
    && t in templates && t.person.Some? && t.active && score(t) >= limits.threshold
    && (forall u :: u in templates && u.person.Some? && u.active ==> score(u) <= score(t))
    && (forall u :: u in templates && u.person.Some? && u.active && u.person != t.person ==>
          score(t) - score(u) >= limits.margin)
    && ((forall u :: u in templates && u.person.Some? && u.active ==> u.person == t.person) ==>
          score(t) + 1_000_000 >= limits.margin)
  }

  /**
   * A global match is accepted exactly when some template stands out, and then the accepted
   * template stands out: it beats every template and, by the margin, those of every other person.
   */
  lemma AcceptedExactlyWhenStandingOut(templates: seq<Template>, score: Template -> int, limits: Limits,
                                       best: Option<Template>, top: int, runnerUp: int)
    requires IsRanking(templates, score, best, top, runnerUp)
    ensures best.Some? && top >= limits.threshold && top - runnerUp >= limits.margin
            <==> best.Some? && StandsOut(templates, score, limits, best.value)
    ensures best.Some? && StandsOut(templates, score, limits, best.value)
            <==> exists t :: StandsOut(templates, score, limits, t)
  {
    forall t | StandsOut(templates, score, limits, t)
      ensures best.Some? && StandsOut(templates, score, limits, best.value)
    {
    }
  }

  ghost predicate IsFirstBest(templates: seq<Template>, score: Template -> int, t: Template) {
    exists k :: 0 <= k < |templates| && templates[k] == t && t.person.None?
                && forall i :: 0 <= i < |templates| && templates[i].person.None? ==>
                     if i < k then score(templates[i]) < score(t) else score(templates[i]) <= score(t)
  }

  /** Finds the first of the best-scoring templates that belong to nobody yet. */
  method BestCandidate(templates: seq<Template>, score: Template -> int) returns (best: Option<Template>)
    ensures best.None? <==> forall t :: t in templates ==> t.person.Some?
    ensures best.Some? ==> IsFirstBest(templates, score, best.value)
  {
    best := None;
    ghost var at := 0;
    for n := 0 to |templates|
      invariant best.None? <==> forall i :: 0 <= i < n ==> templates[i].person.Some?
      invariant best.Some? ==> 0 <= at < n && templates[at] == best.value && best.value.person.None?
      invariant best.Some? ==> forall i :: 0 <= i < n && templates[i].person.None? ==>
                                 if i < at then score(templates[i]) < score(best.value)
                                 else score(templates[i]) <= score(best.value)
    {
      if templates[n].person.None? && (best.None? || score(templates[n]) > score(best.value)) {
        best, at := Some(templates[n]), n;
      }
    }
  }

  /** Whose voice it is: the conversation's own template, then a global match, then a stranger heard before. */
  method Recognize(templates: seq<Template>, score: Template -> int, preference: Preference, limits: Limits)
    returns (decision: Decision)
    ensures decision.Bound? <==> PreferenceHolds(templates, score, preference)
    ensures decision.Bound? ==> decision.template in templates && Some(decision.template.id) == preference.id
    ensures decision.Matched? <==> !decision.Bound? && exists t :: StandsOut(templates, score, limits, t)
    ensures decision.Matched? ==> StandsOut(templates, score, limits, decision.template)
    ensures decision.Matched? ==>
              (decision.adapts <==> decision.score >= 990_000 || decision.score >= limits.threshold + limits.margin)
    ensures decision.Clustered? ==> IsFirstBest(templates, score, decision.template) && decision.score >= limits.cluster
    ensures !decision.Enrolled? ==> decision.score == score(decision.template)
    ensures decision.Enrolled? ==>
              forall t :: t in templates && t.person.None? ==> score(t) < limits.cluster
  {
    if preference.id.Some? && preference.threshold.Some? {
      var k := 0;
      while k < |templates| && templates[k].id != preference.id.value
        invariant 0 <= k <= |templates|
        invariant forall i :: 0 <= i < k ==> templates[i].id != preference.id.value
      {
        k := k + 1;
      }
      if k < |templates| && score(templates[k]) >= preference.threshold.value {
        return Bound(templates[k], score(templates[k]));
      }
    }
    assert !PreferenceHolds(templates, score, preference);
    var active, top, runnerUp := BestActive(templates, score);
    AcceptedExactlyWhenStandingOut(templates, score, limits, active, top, runnerUp);
    if active.Some? && top >= limits.threshold && top - runnerUp >= limits.margin {
      var confident :=
        if 990_000 <= limits.threshold + limits.margin then 990_000 else limits.threshold + limits.margin;
      return Matched(active.value, top, top >= confident);
    }
    var candidate := BestCandidate(templates, score);
    if candidate.Some? && score(candidate.value) >= limits.cluster {
      return Clustered(candidate.value, score(candidate.value));
    }
    return Enrolled;
  }

  // ----- disclosure terms -----

  /** Where the terms can be read off, in order, in a longer sequence of words. */
  ghost predicate Embeds(at: seq<nat>, terms: seq<nat>, words: seq<nat>) {
    && |at| == |terms|
    && (forall i :: 0 <= i < |at| ==> at[i] < |words| && words[at[i]] == terms[i])
    && (forall i, j :: 0 <= i < j < |at| ==> at[i] < at[j])
  }

  /** Taking the earliest occurrence each time succeeds exactly when some increasing placement exists. */
  method TermsAppearInOrder(terms: seq<nat>, words: seq<nat>) returns (found: bool)
    ensures found <==> terms != [] && exists at :: Embeds(at, terms, words)
  {
    if terms == [] { return false; }
    var cursor := 0;
    ghost var earliest: seq<nat> := [];
    for n := 0 to |terms|
      invariant Embeds(earliest, terms[..n], words)
      invariant cursor == if n == 0 then 0 else earliest[n - 1] + 1
      invariant cursor <= |words|
      invariant forall at :: Embeds(at, terms, words) ==> forall i :: 0 <= i < n ==> earliest[i] <= at[i]
    {
      var k := cursor;
      while k < |words| && words[k] != terms[n]
        invariant cursor <= k <= |words|
        invariant forall i :: cursor <= i < k ==> words[i] != terms[n]
      {
        k := k + 1;
      }
      forall at | Embeds(at, terms, words) ensures k <= at[n] {
        assert n > 0 ==> earliest[n - 1] <= at[n - 1] < at[n];
      }
      if k == |words| { return false; }
      earliest := earliest + [k];
      cursor := k + 1;
    }
    assert terms[..|terms|] == terms;
    return true;
  }
}
