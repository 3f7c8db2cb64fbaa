/**
 Rounds over all selectors: which start states let every one of them get its slices
 (internal/controller/endpointselector_reconcile.go:29-109). A refused create leaves the run failed and is
 retried, so a round goes on past it.
 */
module SelectorRounds {
  import opened Objects
  import opened SliceDiff

  /** Which slices carry a selector's key. */
  type Keys = NamespacedName -> EndpointSlice -> bool
  type Wishes = NamespacedName -> Wants

  /** A slice carries at most one key. */
  ghost predicate Exclusive(under: Keys) {
    forall slice, a, b :: under(a)(slice) && under(b)(slice) ==> a == b
  }

  // ---- When a round can serve everybody -----------------------------------------------

  ghost predicate Holds(slices: Store, under: Keys, id: NamespacedName, name: Segment) {
    Held(slices, under(id), name)
  }

  /** The place is free, or its slice carries the key of a listed selector that does not want that name: it will go. */
  ghost predicate Freed(slices: Store, under: Keys, wishes: Wishes, ids: seq<NamespacedName>, place: NamespacedName) {
    place in slices ==> exists other :: other in ids && under(other)(slices[place]) && place.name !in wishes(other)
  }

  /** No other selector of the namespace still has to create a slice of this name. */
  ghost predicate Uncontested(
    slices: Store, under: Keys, wishes: Wishes, ids: seq<NamespacedName>, id: NamespacedName, name: Segment)
  {
    forall other :: other in ids && other != id && other.namespace == id.namespace && name in wishes(other) ==>
      Holds(slices, under, other, name)
  }

  ghost predicate CanGet(
    slices: Store, under: Keys, wishes: Wishes, ids: seq<NamespacedName>, id: NamespacedName, name: Segment)
  {
    || Holds(slices, under, id, name)
    || (Freed(slices, under, wishes, ids, NamespacedName(id.namespace, name))
        && Uncontested(slices, under, wishes, ids, id, name))
  }

  /** Every desired slice is there already, or its place will be free for its selector alone. */
  ghost predicate Open(slices: Store, under: Keys, wishes: Wishes, ids: seq<NamespacedName>) {
    forall id, name :: id in ids && name in wishes(id) ==> CanGet(slices, under, wishes, ids, id, name)
  }

  /** No selector has two slices of one name, which only copies in other namespaces could be. */
  ghost predicate OneEach(slices: Store, under: Keys, ids: seq<NamespacedName>) {
    forall id :: id in ids ==> OnePerName(slices, under(id))
  }

  ghost predicate AllSynced(slices: Store, under: Keys, wishes: Wishes, ids: seq<NamespacedName>) {
    forall id :: id in ids ==> InSync(slices, under(id), wishes(id))
  }

  // ---- What rounds keep ---------------------------------------------------------------

  ghost predicate Outside(slices: Store, under: Keys, ids: seq<NamespacedName>, i: NamespacedName) {
    i in slices && forall id :: id in ids ==> !under(id)(slices[i])
  }

  /** Slices of nobody listed stay as they are. */
  ghost predicate OutsidersStay(start: Store, now: Store, under: Keys, ids: seq<NamespacedName>) {
    && (forall i :: Outside(start, under, ids, i) ==> i in now && now[i] == start[i])
    && (forall i :: Outside(now, under, ids, i) ==> i in start && start[i] == now[i])
  }

  /** A selector's slices are old ones of its own, or new ones in desired places of names it did not have. */
  ghost predicate NewOnesAtHome(start: Store, now: Store, under: Keys, wishes: Wishes, ids: seq<NamespacedName>) {
    forall id :: id in ids ==> NewAtHome(start, now, under(id), id.namespace, wishes(id))
  }

  ghost predicate NamesStay(start: Store, now: Store, under: Keys, wishes: Wishes, ids: seq<NamespacedName>) {
    forall id, name :: id in ids && name in wishes(id) && Holds(start, under, id, name) ==> Holds(now, under, id, name)
  }

  /** Where no selector starts with two slices of one name, a slice of a desired name stays. */
  ghost predicate SlicesStay(start: Store, now: Store, under: Keys, wishes: Wishes, ids: seq<NamespacedName>) {
    OneEach(start, under, ids) ==>
      && OneEach(now, under, ids)
      && forall id, i :: id in ids && i in start && under(id)(start[i]) && i.name in wishes(id) ==> i in now && under(id)(now[i])
  }

  ghost predicate Since(start: Store, now: Store, under: Keys, wishes: Wishes, ids: seq<NamespacedName>) {
    && OutsidersStay(start, now, under, ids) && NewOnesAtHome(start, now, under, wishes, ids)
    && NamesStay(start, now, under, wishes, ids) && SlicesStay(start, now, under, wishes, ids)
  }

  /** What one run of `id` did, as `AfterRun` and `AfterDiffRun` say. */
  ghost predicate Ran(before: Store, after: Store, under: Keys, wishes: Wishes, id: NamespacedName) {
    && OthersKept(before, after, under(id)) && NewAtHome(before, after, under(id), id.namespace, wishes(id))
    && AfterDiffRun(before, after, under(id), wishes(id))
  }

  /** A run of one selector moves no slice of another. */
  lemma OtherUntouched(before: Store, after: Store, under: Keys, id: NamespacedName, other: NamespacedName)
    requires Exclusive(under) && OthersKept(before, after, under(id)) && other != id
    ensures forall i :: i in before && under(other)(before[i]) ==> i in after && after[i] == before[i]
    ensures forall i :: i in after && under(other)(after[i]) ==> i in before && before[i] == after[i]
  {
  }

  lemma OtherHolds(before: Store, after: Store, under: Keys, id: NamespacedName, other: NamespacedName, name: Segment)
    requires Exclusive(under) && OthersKept(before, after, under(id)) && other != id
    ensures Holds(before, under, other, name) <==> Holds(after, under, other, name)
  {
    OtherUntouched(before, after, under, id, other);
    if i :| i in before && under(other)(before[i]) && i.name == name {
      assert i in after && under(other)(after[i]);
    }
    if i :| i in after && under(other)(after[i]) && i.name == name {
      assert i in before && under(other)(before[i]);
    }
  }

  lemma OutsidersStep(
    start: Store, before: Store, after: Store, under: Keys, wishes: Wishes, ids: seq<NamespacedName>, id: NamespacedName)
    requires id in ids && OutsidersStay(start, before, under, ids) && OthersKept(before, after, under(id))
    ensures OutsidersStay(start, after, under, ids)
  {
    forall i | Outside(start, under, ids, i)
      ensures i in after && after[i] == start[i]
    {
      assert i in before && !under(id)(before[i]);
    }
    forall i | Outside(after, under, ids, i)
      ensures i in start && start[i] == after[i]
    {
      assert !under(id)(after[i]);
      assert Outside(before, under, ids, i);
    }
  }

  lemma NewOnesStep(
    start: Store, before: Store, after: Store, under: Keys, wishes: Wishes, ids: seq<NamespacedName>, id: NamespacedName)
    requires Exclusive(under) && id in ids && Ran(before, after, under, wishes, id)
    requires NewOnesAtHome(start, before, under, wishes, ids) && NamesStay(start, before, under, wishes, ids)
    ensures NewOnesAtHome(start, after, under, wishes, ids)
  {
    forall other, i | other in ids && i in after && under(other)(after[i])
      ensures (i in start && under(other)(start[i]))
              || (i.namespace == other.namespace && i.name in wishes(other) && !Held(start, under(other), i.name))
    {
      assert NewAtHome(start, before, under(other), other.namespace, wishes(other));
      if other != id {
        OtherUntouched(before, after, under, id, other);
      } else if !(i in before && under(id)(before[i])) {
        assert !Holds(before, under, id, i.name);
        assert !Holds(start, under, id, i.name);
      }
    }
  }

  lemma NamesStep(
    start: Store, before: Store, after: Store, under: Keys, wishes: Wishes, ids: seq<NamespacedName>, id: NamespacedName)
    requires Exclusive(under) && id in ids && Ran(before, after, under, wishes, id)
    requires NamesStay(start, before, under, wishes, ids)
    ensures NamesStay(start, after, under, wishes, ids)
  {
    forall other, name | other in ids && name in wishes(other) && Holds(start, under, other, name)
      ensures Holds(after, under, other, name)
    {
      assert Holds(before, under, other, name);
      if other != id {
        OtherHolds(before, after, under, id, other, name);
      }
    }
  }

  lemma SlicesStep(
    start: Store, before: Store, after: Store, under: Keys, wishes: Wishes, ids: seq<NamespacedName>, id: NamespacedName)
    requires Exclusive(under) && id in ids && Ran(before, after, under, wishes, id)
    requires SlicesStay(start, before, under, wishes, ids)
    ensures SlicesStay(start, after, under, wishes, ids)
  {
    if OneEach(start, under, ids) {
      forall other | other in ids
        ensures OnePerName(after, under(other))
      {
        if other != id {
          OtherUntouched(before, after, under, id, other);
          assert OnePerName(before, under(other));
        }
      }
      forall other, i | other in ids && i in start && under(other)(start[i]) && i.name in wishes(other)
        ensures i in after && under(other)(after[i])
      {
        assert i in before && under(other)(before[i]);
        if other != id {
          OtherUntouched(before, after, under, id, other);
        } else {
          assert OnePerName(before, under(id));
          assert OnlyOfName(before, under(id), i);
        }
      }
    }
  }

  /** One more run keeps everything that holds since the start. */
  lemma SinceStep(
    start: Store, before: Store, after: Store, under: Keys, wishes: Wishes, ids: seq<NamespacedName>, id: NamespacedName)
    requires Exclusive(under) && id in ids && Ran(before, after, under, wishes, id) && Since(start, before, under, wishes, ids)
    ensures Since(start, after, under, wishes, ids)
  {
    OutsidersStep(start, before, after, under, wishes, ids, id);
    NewOnesStep(start, before, after, under, wishes, ids, id);
    NamesStep(start, before, after, under, wishes, ids, id);
    SlicesStep(start, before, after, under, wishes, ids, id);
  }

  /** Nobody listed so far has a slice of a name it does not want. */
  ghost predicate TrimmedAll(now: Store, under: Keys, wishes: Wishes, done: seq<NamespacedName>) {
    forall id :: id in done ==> forall i :: i in now && under(id)(now[i]) ==> i.name in wishes(id)
  }

  lemma TrimmedStep(
    before: Store, after: Store, under: Keys, wishes: Wishes, id: NamespacedName, ids: seq<NamespacedName>, k: nat)
    requires k < |ids| && ids[k] == id && Exclusive(under) && Ran(before, after, under, wishes, id)
    requires TrimmedAll(before, under, wishes, ids[..k])
    ensures TrimmedAll(after, under, wishes, ids[..k + 1])
  {
    forall other | other in ids[..k + 1]
      ensures forall i :: i in after && under(other)(after[i]) ==> i.name in wishes(other)
    {
      if other != id {
        assert other in ids[..k];
        OtherUntouched(before, after, under, id, other);
      }
    }
  }

  lemma TrimmedStays(
    before: Store, after: Store, under: Keys, wishes: Wishes, id: NamespacedName, ids: seq<NamespacedName>)
    requires Exclusive(under) && Ran(before, after, under, wishes, id) && TrimmedAll(before, under, wishes, ids)
    ensures TrimmedAll(after, under, wishes, ids)
  {
    forall other | other in ids
      ensures forall i :: i in after && under(other)(after[i]) ==> i.name in wishes(other)
    {
      if other != id {
        OtherUntouched(before, after, under, id, other);
      }
    }
  }

  /** Nothing has happened yet. */
  lemma SinceSelf(start: Store, under: Keys, wishes: Wishes, ids: seq<NamespacedName>)
    ensures Since(start, start, under, wishes, ids)
  {
  }

  // ---- Two rounds are enough, exactly for open states -----------------------------------

  /** A slice of nobody listed in the place never goes. */
  lemma OutsiderBlocks(
    start: Store, now: Store, under: Keys, wishes: Wishes, ids: seq<NamespacedName>, place: NamespacedName)
    requires OutsidersStay(start, now, under, ids) && Outside(now, under, ids, place)
    ensures Outside(start, under, ids, place) && !Freed(start, under, wishes, ids, place)
  {
    assert place in start && start[place] == now[place];
  }

  /** Nor does the slice of a selector that wants that name. */
  lemma KeeperBlocks(
    start: Store, under: Keys, wishes: Wishes, ids: seq<NamespacedName>, place: NamespacedName, keeper: NamespacedName)
    requires Exclusive(under) && place in start && under(keeper)(start[place]) && place.name in wishes(keeper)
    ensures !Freed(start, under, wishes, ids, place)
  {
    forall other | other in ids && under(other)(start[place])
      ensures place.name in wishes(other)
    {
      assert other == keeper;
    }
  }

  /** The slice in a place that a selector still wants carries no rival's key, if the place was free for it alone. */
  lemma RivalHasNot(
    start: Store, now: Store, under: Keys, wishes: Wishes, ids: seq<NamespacedName>, id: NamespacedName, name: Segment,
    rival: NamespacedName)
    requires Exclusive(under) && NewOnesAtHome(start, now, under, wishes, ids) && TrimmedAll(now, under, wishes, ids)
    requires rival in ids && rival != id && NamespacedName(id.namespace, name) in now
    requires under(rival)(now[NamespacedName(id.namespace, name)])
    ensures !Freed(start, under, wishes, ids, NamespacedName(id.namespace, name)) || !Uncontested(start, under, wishes, ids, id, name)
  {
    var place := NamespacedName(id.namespace, name);
    assert place.name == name && name in wishes(rival);
    assert NewAtHome(start, now, under(rival), rival.namespace, wishes(rival));
    if place in start && under(rival)(start[place]) {
      KeeperBlocks(start, under, wishes, ids, place, rival);
    } else {
      assert rival.namespace == id.namespace && !Holds(start, under, rival, name);
    }
  }

  lemma OpenPlaceIsVacant(
    start: Store, now: Store, under: Keys, wishes: Wishes, ids: seq<NamespacedName>, id: NamespacedName, name: Segment)
    requires Exclusive(under) && CanGet(start, under, wishes, ids, id, name) && Since(start, now, under, wishes, ids)
    requires TrimmedAll(now, under, wishes, ids) && id in ids && name in wishes(id) && !Holds(now, under, id, name)
    ensures NamespacedName(id.namespace, name) !in now
  {
    var place := NamespacedName(id.namespace, name);
    assert !Holds(start, under, id, name);
    if place in now {
      assert !under(id)(now[place]);
      if Outside(now, under, ids, place) {
        OutsiderBlocks(start, now, under, wishes, ids, place);
      } else {
        var rival :| rival in ids && under(rival)(now[place]);
        RivalHasNot(start, now, under, wishes, ids, id, name, rival);
      }
    }
  }

  /** After one round from an open state no create is refused any more. */
  lemma OpenIsVacant(start: Store, now: Store, under: Keys, wishes: Wishes, ids: seq<NamespacedName>, id: NamespacedName)
    requires Exclusive(under) && Open(start, under, wishes, ids) && Since(start, now, under, wishes, ids)
    requires TrimmedAll(now, under, wishes, ids) && id in ids
    ensures !Squatted(now, under(id), id.namespace, wishes(id))
  {
    forall name | name in wishes(id) && !Held(now, under(id), name)
      ensures NamespacedName(id.namespace, name) !in now
    {
      assert CanGet(start, under, wishes, ids, id, name);
      OpenPlaceIsVacant(start, now, under, wishes, ids, id, name);
    }
  }

  lemma WantedStays(
    start: Store, now: Store, under: Keys, wishes: Wishes, ids: seq<NamespacedName>, id: NamespacedName, place: NamespacedName)
    requires OneEach(start, under, ids) && SlicesStay(start, now, under, wishes, ids)
    requires id in ids && place in start && under(id)(start[place]) && place.name in wishes(id)
    ensures place in now && under(id)(now[place])
  {
  }

  lemma PlaceWasFreed(
    start: Store, now: Store, under: Keys, wishes: Wishes, ids: seq<NamespacedName>, id: NamespacedName, place: NamespacedName)
    requires Exclusive(under) && OneEach(start, under, ids) && Since(start, now, under, wishes, ids)
    requires id in ids && place in now && under(id)(now[place]) && !Holds(start, under, id, place.name)
    ensures Freed(start, under, wishes, ids, place)
  {
    if place in start {
      assert !Outside(start, under, ids, place);
      var owner :| owner in ids && under(owner)(start[place]);
      assert owner != id by {
        assert under(id)(start[place]) ==> Holds(start, under, id, place.name);
      }
      if place.name in wishes(owner) {
        WantedStays(start, now, under, wishes, ids, owner, place);
      }
    }
  }

  /** A desired slice that was not there at the start is now in its place. */
  lemma NewOneIsHere(
    start: Store, now: Store, under: Keys, wishes: Wishes, ids: seq<NamespacedName>, id: NamespacedName, name: Segment)
    requires NewOnesAtHome(start, now, under, wishes, ids) && id in ids && name in wishes(id)
    requires InSync(now, under(id), wishes(id)) && !Holds(start, under, id, name)
    ensures var place := NamespacedName(id.namespace, name); place in now && under(id)(now[place])
  {
    assert Held(now, under(id), name);
    var i :| i in now && under(id)(now[i]) && i.name == name;
    assert NewAtHome(start, now, under(id), id.namespace, wishes(id));
    assert i in start && under(id)(start[i]) ==> Holds(start, under, id, name);
    assert i == NamespacedName(id.namespace, name);
  }

  lemma NobodyContested(
    start: Store, now: Store, under: Keys, wishes: Wishes, ids: seq<NamespacedName>, id: NamespacedName, name: Segment)
    requires Exclusive(under) && NewOnesAtHome(start, now, under, wishes, ids)
    requires AllSynced(now, under, wishes, ids)
    requires NamespacedName(id.namespace, name) in now && under(id)(now[NamespacedName(id.namespace, name)])
    ensures Uncontested(start, under, wishes, ids, id, name)
  {
    forall other | other in ids && other != id && other.namespace == id.namespace && name in wishes(other)
      ensures Holds(start, under, other, name)
    {
      if !Holds(start, under, other, name) {
        NewOneIsHere(start, now, under, wishes, ids, other, name);
      }
    }
  }

  /** If every selector is in sync after any number of rounds, the start was open. */
  lemma SyncedWasOpen(start: Store, now: Store, under: Keys, wishes: Wishes, ids: seq<NamespacedName>)
    requires Exclusive(under) && OneEach(start, under, ids) && Since(start, now, under, wishes, ids)
    requires AllSynced(now, under, wishes, ids)
    ensures Open(start, under, wishes, ids)
  {
    forall id, name | id in ids && name in wishes(id)
      ensures CanGet(start, under, wishes, ids, id, name)
    {
      if !Holds(start, under, id, name) {
        NewOneIsHere(start, now, under, wishes, ids, id, name);
        PlaceWasFreed(start, now, under, wishes, ids, id, NamespacedName(id.namespace, name));
        NobodyContested(start, now, under, wishes, ids, id, name);
      }
    }
  }

  // ---- A round ------------------------------------------------------------------------

  lemma SyncedStays(before: Store, after: Store, under: Keys, wishes: Wishes, id: NamespacedName, other: NamespacedName)
    requires Exclusive(under) && OthersKept(before, after, under(id)) && other != id
    requires InSync(before, under(other), wishes(other))
    ensures InSync(after, under(other), wishes(other))
  {
    OtherUntouched(before, after, under, id, other);
    forall name | name in wishes(other)
      ensures Held(after, under(other), name)
    {
      OtherHolds(before, after, under, id, other, name);
      assert Holds(before, under, other, name);
    }
  }

  lemma SyncedStep(
    before: Store, after: Store, under: Keys, wishes: Wishes, id: NamespacedName, ids: seq<NamespacedName>, k: nat)
    requires k < |ids| && ids[k] == id && Exclusive(under) && OthersKept(before, after, under(id))
    requires InSync(after, under(id), wishes(id)) && AllSynced(before, under, wishes, ids[..k])
    ensures AllSynced(after, under, wishes, ids[..k + 1])
  {
    forall other | other in ids[..k + 1] && other != id
      ensures InSync(after, under(other), wishes(other))
    {
      assert other in ids[..k];
      SyncedStays(before, after, under, wishes, id, other);
    }
  }

  /** How far a round from `before` has come: every run so far succeeds if it began trimmed, from an open start. */
  ghost predicate Progress(
    start: Store, before: Store, now: Store, under: Keys, wishes: Wishes, ids: seq<NamespacedName>, k: nat, ok: bool)
    requires k <= |ids|
  {
    && Since(start, now, under, wishes, ids) && TrimmedAll(now, under, wishes, ids[..k])
    && (ok ==> AllSynced(now, under, wishes, ids[..k]))
    && (Open(start, under, wishes, ids) && TrimmedAll(before, under, wishes, ids) ==> ok && TrimmedAll(now, under, wishes, ids))
  }

  /** What a round achieves, whatever it began with. */
  ghost predicate RoundDone(
    start: Store, before: Store, now: Store, under: Keys, wishes: Wishes, ids: seq<NamespacedName>, ok: bool)
  {
    && Since(start, now, under, wishes, ids) && TrimmedAll(now, under, wishes, ids)
    && (ok ==> AllSynced(now, under, wishes, ids))
    && (Open(start, under, wishes, ids) && TrimmedAll(before, under, wishes, ids) ==> ok)
  }

  lemma ProgressStart(start: Store, now: Store, under: Keys, wishes: Wishes, ids: seq<NamespacedName>)
    requires Since(start, now, under, wishes, ids)
    ensures Progress(start, now, now, under, wishes, ids, 0, true)
  {
  }

  lemma ProgressStep(
    start: Store, first: Store, before: Store, after: Store, under: Keys, wishes: Wishes, ids: seq<NamespacedName>, k: nat,
    ok: bool, done: bool)
    requires k < |ids| && Exclusive(under) && Progress(start, first, before, under, wishes, ids, k, ok)
    requires Ran(before, after, under, wishes, ids[k]) && (done ==> InSync(after, under(ids[k]), wishes(ids[k])))
    requires !Squatted(before, under(ids[k]), ids[k].namespace, wishes(ids[k])) ==> done
    ensures Progress(start, first, after, under, wishes, ids, k + 1, ok && done)
  {
    SinceStep(start, before, after, under, wishes, ids, ids[k]);
    TrimmedStep(before, after, under, wishes, ids[k], ids, k);
    if ok && done {
      SyncedStep(before, after, under, wishes, ids[k], ids, k);
    }
    if Open(start, under, wishes, ids) && TrimmedAll(first, under, wishes, ids) {
      OpenIsVacant(start, before, under, wishes, ids, ids[k]);
      TrimmedStays(before, after, under, wishes, ids[k], ids);
    }
  }

  lemma ProgressEnd(
    start: Store, before: Store, now: Store, under: Keys, wishes: Wishes, ids: seq<NamespacedName>, ok: bool)
    requires Progress(start, before, now, under, wishes, ids, |ids|, ok)
    ensures RoundDone(start, before, now, under, wishes, ids, ok)
  {
    assert ids[..|ids|] == ids;
  }

  /** After two rounds everybody is served if the start was open, and, without two slices of one name, only then. */
  ghost predicate Served(start: Store, now: Store, under: Keys, wishes: Wishes, ids: seq<NamespacedName>) {
    && (Open(start, under, wishes, ids) ==> AllSynced(now, under, wishes, ids))
    && (OneEach(start, under, ids) ==> (AllSynced(now, under, wishes, ids) <==> Open(start, under, wishes, ids)))
  }

  // ---- Examples -----------------------------------------------------------------------

  /**
   A route's backend moved from selector `b` to selector `a`, and the slice still carries the key of `b`: the run
   of `a` is refused, yet the state is open, so a second round serves it.
   */
  lemma OneRoundIsNotEnough(under: Keys, wishes: Wishes, a: NamespacedName, b: NamespacedName, slice: EndpointSlice)
    requires Exclusive(under) && a != b && under(b)(slice) && slice.namespace == a.namespace
    requires wishes(a).Keys == {slice.name} && wishes(b) == map[]
    ensures var slices := map[slice.Id() := slice];
            Squatted(slices, under(a), a.namespace, wishes(a)) && Open(slices, under, wishes, [a, b])
  {
    var slices := map[slice.Id() := slice];
    assert slice.Id() == NamespacedName(a.namespace, slice.name);
    assert b in [a, b] && under(b)(slices[slice.Id()]);
    assert !Held(slices, under(a), slice.name);
  }

  /** Two selectors of a namespace that want one name cannot both get it. */
  lemma ContestIsClosed(under: Keys, wishes: Wishes, a: NamespacedName, b: NamespacedName, name: Segment)
    requires a != b && a.namespace == b.namespace && name in wishes(a) && name in wishes(b)
    ensures !Open(map[], under, wishes, [a, b])
  {
    assert a in [a, b] && b in [a, b];
    assert !Holds(map[], under, a, name) && !Holds(map[], under, b, name);
    assert !CanGet(map[], under, wishes, [a, b], a, name);
  }

  /** Nor can a selector get a slice whose place holds one of nobody listed. */
  lemma SquatterIsClosed(under: Keys, wishes: Wishes, a: NamespacedName, slice: EndpointSlice)
    requires !under(a)(slice) && slice.namespace == a.namespace && slice.name in wishes(a)
    ensures var slices := map[slice.Id() := slice];
            Squatted(slices, under(a), a.namespace, wishes(a)) && !Open(slices, under, wishes, [a])
  {
    var slices := map[slice.Id() := slice];
    assert slice.Id() == NamespacedName(a.namespace, slice.name);
    assert !Held(slices, under(a), slice.name);
    assert a in [a] && !Holds(slices, under, a, slice.name);
    assert !CanGet(slices, under, wishes, [a], a, slice.name);
  }
}
