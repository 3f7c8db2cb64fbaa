/** Status conditions: the merge, removal and comparison helpers of internal/controller/status.go. */
module Conditions {
  import opened Objects
  import opened Sorting
  import opened Text

  const KIND_KEY := (c: Condition) => c.kind

  /** `apimeta.SetStatusCondition`: replace the first condition of this kind, or append. */
  function SetCondition(conditions: seq<Condition>, c: Condition): seq<Condition> {
    if conditions == [] then [c]
    else if conditions[0].kind == c.kind then [c] + conditions[1..]
    else [conditions[0]] + SetCondition(conditions[1..], c)
  }

  function SetAll(existing: seq<Condition>, desired: seq<Condition>): seq<Condition> {
    if desired == [] then existing
    else SetCondition(SetAll(existing, desired[..|desired| - 1]), desired[|desired| - 1])
  }

  /** `mergeConditions`. */
  function MergeConditions(existing: seq<Condition>, desired: seq<Condition>): seq<Condition> {
    Sort(KIND_KEY, SetAll(existing, desired))
  }

  /** `removeConditions`. */
  function RemoveConditions(existing: seq<Condition>, kinds: set<string>): seq<Condition> {
    if existing == [] then []
    else (if existing[0].kind in kinds then [] else [existing[0]]) + RemoveConditions(existing[1..], kinds)
  }

  /** The API server keeps conditions as a list keyed by kind. */
  predicate DistinctKinds(conditions: seq<Condition>) {
    forall i, j :: 0 <= i < j < |conditions| ==> conditions[i].kind != conditions[j].kind
  }

  lemma SetThree(a: Condition, r: Condition, p: Condition)
    requires a.kind != r.kind && a.kind != p.kind && r.kind != p.kind
    ensures SetAll([], [a, r, p]) == [a, r, p]
  {
    assert [a, r, p][..2] == [a, r] && [a, r][..1] == [a] && [a][..0] == [];
    assert [a][1..] == [] && [a, r][1..] == [r] && [r][1..] == [];
    assert SetAll([], [a]) == SetCondition(SetAll([], []), a);
    assert SetAll([], [a, r]) == SetCondition([a], r);
    assert SetAll([], [a, r, p]) == SetCondition([a, r], p);
    assert SetCondition([a, r], p) == [a] + SetCondition([r], p);
  }

  lemma SortThree(a: Condition, r: Condition, p: Condition)
    requires Less(a.kind, p.kind) && Less(p.kind, r.kind)
    ensures Sort(KIND_KEY, [a, r, p]) == [a, p, r]
  {
    assert !LessEqual(r.kind, p.kind) by {
      if Less(r.kind, p.kind) { LessTransitive(p.kind, r.kind, p.kind); }
      LessIrreflexive(p.kind);
    }
    assert [a, r, p][1..] == [r, p] && [r, p][1..] == [p] && [p][1..] == [];
    assert Sort(KIND_KEY, [p]) == Insert(KIND_KEY, p, []) == [p];
    assert Insert(KIND_KEY, r, [p]) == [p] + Insert(KIND_KEY, r, []) == [p, r];
    assert Sort(KIND_KEY, [r, p]) == [p, r];
    assert Insert(KIND_KEY, a, [p, r]) == [a] + [p, r];
  }

  lemma SetTwo(a: Condition, r: Condition)
    requires a.kind != r.kind
    ensures SetAll([], [a, r]) == [a, r]
  {
    assert [a, r][..1] == [a] && [a][..0] == [] && [a][1..] == [];
    assert SetAll([], [a]) == SetCondition(SetAll([], []), a);
    assert SetAll([], [a, r]) == SetCondition([a], r);
  }

  lemma SortTwo(a: Condition, r: Condition)
    requires Less(a.kind, r.kind)
    ensures Sort(KIND_KEY, [a, r]) == [a, r]
  {
    assert [a, r][1..] == [r] && [r][1..] == [];
    assert Sort(KIND_KEY, [r]) == Insert(KIND_KEY, r, []) == [r];
    assert Insert(KIND_KEY, a, [r]) == [a] + [r];
  }

  lemma MergeTwo(a: Condition, r: Condition)
    requires a.kind == "Accepted" && r.kind == "ResolvedRefs"
    ensures MergeConditions([], [a, r]) == [a, r]
  {
    assert a.kind[0] == 'A' && r.kind[0] == 'R';
    SetTwo(a, r);
    SortTwo(a, r);
  }

  lemma SortOrdered(a: Condition, p: Condition, r: Condition)
    requires Less(a.kind, p.kind) && Less(p.kind, r.kind)
    ensures Sort(KIND_KEY, [a, p, r]) == [a, p, r]
  {
    assert [a, p, r][1..] == [p, r] && [p, r][1..] == [r] && [r][1..] == [];
    assert Sort(KIND_KEY, [r]) == Insert(KIND_KEY, r, []) == [r];
    assert Sort(KIND_KEY, [p, r]) == Insert(KIND_KEY, p, [r]) == [p, r];
    assert Insert(KIND_KEY, a, [p, r]) == [a] + [p, r];
  }

  lemma SetMiddle(a: Condition, p: Condition, r: Condition, c: Condition)
    requires a.kind != c.kind && p.kind == c.kind
    ensures SetAll([a, p, r], [c]) == [a, c, r]
  {
    assert [a, p, r][1..] == [p, r] && [p, r][1..] == [r] && [c][..0] == [];
    assert SetAll([a, p, r], []) == [a, p, r];
    assert SetAll([a, p, r], [c]) == SetCondition([a, p, r], c);
    assert SetCondition([p, r], c) == [c] + [r];
    assert SetCondition([a, p, r], c) == [a] + SetCondition([p, r], c);
  }

  lemma MergeThree(a: Condition, r: Condition, p: Condition)
    requires a.kind == "Accepted" && r.kind == "ResolvedRefs" && p.kind == "Programmed"
    ensures MergeConditions([], [a, r, p]) == [a, p, r]
  {
    assert a.kind[0] == 'A' && p.kind[0] == 'P' && r.kind[0] == 'R';
    SetThree(a, r, p);
    SortThree(a, r, p);
  }
}
