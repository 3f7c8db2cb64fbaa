/** The diff of existing against desired slices, for any way of telling which slices are one's own. */
module SliceDiff {
  import opened Sorting
  import opened Objects
  import opened AgentState
  import opened Slices

  type Store = map<NamespacedName, EndpointSlice>
  type Wants = map<Segment, EndpointSlice>

  ghost function OwnSlices(slices: Store, mine: EndpointSlice -> bool): set<EndpointSlice> {
    set i | i in slices && mine(slices[i]) :: slices[i]
  }

  // ---- What the reconcile aims at ------------------------------------------------------

  ghost predicate Held(slices: Store, mine: EndpointSlice -> bool, name: Segment) {
    exists i :: i in slices && mine(slices[i]) && i.name == name
  }

  /** Under the selector's key there is one slice per desired name, with the desired content, and nothing else. */
  ghost predicate InSync(slices: Store, mine: EndpointSlice -> bool, wanted: Wants) {
    && (forall i :: i in slices && mine(slices[i]) ==> i.name in wanted && SliceEqual(slices[i], wanted[i.name]))
    && (forall i, j :: i in slices && j in slices && mine(slices[i]) && mine(slices[j]) && i.name == j.name ==> i == j)
    && (forall name :: name in wanted ==> Held(slices, mine, name))
  }

  /** Each desired slice is in the namespace it was asked for. */
  ghost predicate AtHome(slices: Store, mine: EndpointSlice -> bool, home: Segment) {
    forall i :: i in slices && mine(slices[i]) ==> i.namespace == home
  }

  /** Slices that do not carry the selector's key are neither changed nor added. */
  ghost predicate OthersKept(before: Store, after: Store, mine: EndpointSlice -> bool) {
    && (forall i :: i in before && !mine(before[i]) ==> i in after && after[i] == before[i])
    && (forall i :: i in after && !mine(after[i]) ==> i in before && before[i] == after[i])
  }

  ghost predicate OnePerName(slices: Store, mine: EndpointSlice -> bool) {
    forall i, j :: i in slices && j in slices && mine(slices[i]) && mine(slices[j]) && i.name == j.name ==> i == j
  }

  /** Every own slice has a desired name, and no two have the same. */
  ghost predicate Trimmed(slices: Store, mine: EndpointSlice -> bool, wanted: Wants) {
    (forall i :: i in slices && mine(slices[i]) ==> i.name in wanted) && OnePerName(slices, mine)
  }

  ghost predicate OnlyOfName(slices: Store, mine: EndpointSlice -> bool, i: NamespacedName) {
    forall j :: j in slices && mine(slices[j]) && j.name == i.name ==> j == i
  }

  /** A desired name that one's own slices had is not lost, nor is the slice if it was the only one. */
  ghost predicate NoneLost(before: Store, after: Store, mine: EndpointSlice -> bool, wanted: Wants) {
    && (forall name :: name in wanted && Held(before, mine, name) ==> Held(after, mine, name))
    && (forall i :: i in before && mine(before[i]) && i.name in wanted && OnlyOfName(before, mine, i) ==>
          i in after && mine(after[i]))
  }

  /** New slices of one's own sit in desired places whose names nobody of one's own had. */
  ghost predicate NewAtHome(before: Store, after: Store, mine: EndpointSlice -> bool, home: Segment, wanted: Wants) {
    forall i :: i in after && mine(after[i]) ==>
      || (i in before && mine(before[i]))
      || (i.namespace == home && i.name in wanted && !Held(before, mine, i.name))
  }

  /** The desired slices are in the home namespace and count as one's own, also as the content of an existing one. */
  ghost predicate Asks(wanted: Wants, mine: EndpointSlice -> bool, home: Segment) {
    forall name :: name in wanted ==>
      && wanted[name].name == name && wanted[name].namespace == home && mine(wanted[name])
      && forall e :: mine(Revised(e, wanted[name]))
  }

  /** A desired name that no slice of the selector has, while a slice of somebody else sits in its place. */
  ghost predicate Squatted(slices: Store, mine: EndpointSlice -> bool, home: Segment, wanted: Wants) {
    exists name :: name in wanted && !Held(slices, mine, name) && NamespacedName(home, name) in slices
  }

  // ---- What the diff does --------------------------------------------------------------

  /** Slice `j` of the index answer is kept: it is the first one of a desired name. */
  predicate Keeps(existing: seq<EndpointSlice>, j: nat, wanted: Wants)
    requires j < |existing|
  {
    existing[j].name in wanted && forall k :: 0 <= k < j ==> existing[k].name != existing[j].name
  }

  /** Each slice the diff keeps is in the selector's own namespace. */
  ghost predicate HomeFirst(existing: seq<EndpointSlice>, wanted: Wants, home: Segment) {
    forall j :: 0 <= j < |existing| && Keeps(existing, j, wanted) ==> existing[j].namespace == home
  }

  ghost predicate Listed(existing: seq<EndpointSlice>, n: nat, i: NamespacedName)
    requires n <= |existing|
  {
    exists j :: 0 <= j < n && existing[j].Id() == i
  }

  /** After the first `n` slices: kept ones are revised, the others gone, everything else as before. */
  ghost predicate Diffed(
    before: Store, after: Store,
    existing: seq<EndpointSlice>, n: nat, wanted: Wants)
    requires n <= |existing|
  {
    && (forall j :: 0 <= j < n && Keeps(existing, j, wanted) ==>
          existing[j].Id() in after && after[existing[j].Id()] == Revised(existing[j], wanted[existing[j].name]))
    && (forall j :: 0 <= j < n && !Keeps(existing, j, wanted) ==> existing[j].Id() !in after)
    && (forall i :: !Listed(existing, n, i) ==> (i in after <==> i in before) && (i in after ==> after[i] == before[i]))
  }

  ghost predicate NameListed(existing: seq<EndpointSlice>, n: nat, name: Segment)
    requires n <= |existing|
  {
    exists j :: 0 <= j < n && existing[j].name == name
  }

  /** The desired slices not yet matched. */
  ghost predicate Remaining(
    rest: Wants, wanted: Wants, existing: seq<EndpointSlice>, n: nat)
    requires n <= |existing|
  {
    forall name ::
      && (name in rest <==> name in wanted && !NameListed(existing, n, name))
      && (name in rest ==> rest[name] == wanted[name])
  }

  /** The index answer for the selector, in some order. */
  ghost predicate Answers(existing: seq<EndpointSlice>, slices: Store, mine: EndpointSlice -> bool) {
    SliceStore(slices) && Enumerates(existing, OwnSlices(slices, mine))
  }

  lemma AnswerMembers(existing: seq<EndpointSlice>, slices: Store, mine: EndpointSlice -> bool)
    requires Answers(existing, slices, mine)
    ensures forall j :: 0 <= j < |existing| ==>
              existing[j].Id() in slices && slices[existing[j].Id()] == existing[j] && mine(existing[j])
    ensures forall i :: i in slices && mine(slices[i]) ==> slices[i] in existing && Listed(existing, |existing|, i)
    ensures forall j, k :: 0 <= j < k < |existing| ==> existing[j].Id() != existing[k].Id()
  {
    forall j | 0 <= j < |existing|
      ensures existing[j].Id() in slices && slices[existing[j].Id()] == existing[j] && mine(existing[j])
    {
      assert existing[j] in OwnSlices(slices, mine);
    }
    forall i | i in slices && mine(slices[i])
      ensures slices[i] in existing && Listed(existing, |existing|, i)
    {
      assert slices[i] in OwnSlices(slices, mine);
      var j :| 0 <= j < |existing| && existing[j] == slices[i];
    }
  }

  lemma HeldIsListed(existing: seq<EndpointSlice>, slices: Store, mine: EndpointSlice -> bool, name: Segment)
    requires Answers(existing, slices, mine)
    ensures Held(slices, mine, name) <==> NameListed(existing, |existing|, name)
  {
    AnswerMembers(existing, slices, mine);
    if Held(slices, mine, name) {
      var i :| i in slices && mine(slices[i]) && i.name == name;
      var j :| 0 <= j < |existing| && existing[j].Id() == i;
    }
    if NameListed(existing, |existing|, name) {
      var j :| 0 <= j < |existing| && existing[j].name == name;
      assert existing[j].Id() in slices;
    }
  }

  /** In a state that is in sync, every listed slice is kept as it is and nothing remains to create. */
  lemma SyncedKeepsAll(existing: seq<EndpointSlice>, slices: Store, mine: EndpointSlice -> bool, wanted: Wants)
    requires Answers(existing, slices, mine) && InSync(slices, mine, wanted)
    ensures forall j :: 0 <= j < |existing| ==> Keeps(existing, j, wanted) && SliceEqual(existing[j], wanted[existing[j].name])
    ensures forall name :: name in wanted ==> NameListed(existing, |existing|, name)
  {
    AnswerMembers(existing, slices, mine);
    forall name | name in wanted
      ensures NameListed(existing, |existing|, name)
    {
      HeldIsListed(existing, slices, mine, name);
    }
    forall j | 0 <= j < |existing|
      ensures Keeps(existing, j, wanted)
    {
      forall k | 0 <= k < j
        ensures existing[k].name != existing[j].name
      {
        assert existing[k].Id() != existing[j].Id();
      }
    }
  }

  lemma {:induction false} FirstOfName(existing: seq<EndpointSlice>, n: nat, name: Segment) returns (j: nat)
    requires n <= |existing| && NameListed(existing, n, name)
    ensures j < n && existing[j].name == name && forall k :: 0 <= k < j ==> existing[k].name != name
  {
    j := 0;
    while existing[j].name != name
      invariant j < n && forall k :: 0 <= k < j ==> existing[k].name != name
      decreases n - j
    {
      if j + 1 == n {
        assert false;
      }
      j := j + 1;
    }
  }

  // ---- The diff as a function ----------------------------------------------------------

  datatype Work = Work(slices: Store, rest: Wants)

  /** One turn of the loop: delete a slice nobody wants, or match one and revise it. */
  function Turn(w: Work, e: EndpointSlice): Work {
    if e.name !in w.rest then w.(slices := w.slices - {e.Id()})
    else Work(w.slices[e.Id() := Revised(e, w.rest[e.name])], w.rest - {e.name})
  }

  function DiffUpTo(
    before: Store, existing: seq<EndpointSlice>, n: nat, wanted: Wants): Work
    requires n <= |existing|
  {
    if n == 0 then Work(before, wanted) else Turn(DiffUpTo(before, existing, n - 1, wanted), existing[n - 1])
  }

  lemma {:induction false} DiffRemaining(
    before: Store, existing: seq<EndpointSlice>, n: nat, wanted: Wants)
    requires n <= |existing|
    ensures Remaining(DiffUpTo(before, existing, n, wanted).rest, wanted, existing, n)
  {
    if n > 0 {
      DiffRemaining(before, existing, n - 1, wanted);
      forall name: Segment
        ensures NameListed(existing, n, name) <==> NameListed(existing, n - 1, name) || name == existing[n - 1].name
      {
        assert name == existing[n - 1].name ==> NameListed(existing, n, name);
      }
    }
  }

  lemma {:induction false} DiffOutside(
    before: Store, existing: seq<EndpointSlice>, n: nat, wanted: Wants, i: NamespacedName)
    requires n <= |existing| && forall j :: 0 <= j < n ==> existing[j].Id() != i
    ensures var after := DiffUpTo(before, existing, n, wanted).slices;
            (i in after <==> i in before) && (i in after ==> after[i] == before[i])
  {
    if n > 0 {
      DiffOutside(before, existing, n - 1, wanted, i);
    }
  }

  /** Slice `j` ends up revised if it is kept and gone otherwise. */
  lemma {:induction false} DiffInside(
    before: Store, existing: seq<EndpointSlice>, n: nat, wanted: Wants, j: nat)
    requires j < n <= |existing| && forall k :: j < k < n ==> existing[k].Id() != existing[j].Id()
    ensures var after, i := DiffUpTo(before, existing, n, wanted).slices, existing[j].Id();
            if Keeps(existing, j, wanted) then i in after && after[i] == Revised(existing[j], wanted[existing[j].name]) else i !in after
  {
    DiffRemaining(before, existing, n - 1, wanted);
    if j < n - 1 {
      DiffInside(before, existing, n - 1, wanted, j);
    } else {
      assert Keeps(existing, j, wanted) <==> existing[j].name in wanted && !NameListed(existing, j, existing[j].name);
    }
  }

  lemma DiffMeaning(
    before: Store, existing: seq<EndpointSlice>, mine: EndpointSlice -> bool, wanted: Wants)
    requires Answers(existing, before, mine)
    ensures var w := DiffUpTo(before, existing, |existing|, wanted);
            Diffed(before, w.slices, existing, |existing|, wanted) && Remaining(w.rest, wanted, existing, |existing|)
  {
    var n := |existing|;
    AnswerMembers(existing, before, mine);
    DiffRemaining(before, existing, n, wanted);
    forall j | 0 <= j < n
      ensures var after, i := DiffUpTo(before, existing, n, wanted).slices, existing[j].Id();
              if Keeps(existing, j, wanted) then i in after && after[i] == Revised(existing[j], wanted[existing[j].name]) else i !in after
    {
      DiffInside(before, existing, n, wanted, j);
    }
    forall i | !Listed(existing, n, i)
      ensures var after := DiffUpTo(before, existing, n, wanted).slices;
              (i in after <==> i in before) && (i in after ==> after[i] == before[i])
    {
      DiffOutside(before, existing, n, wanted, i);
    }
  }

  /** The slice the loop looks at next is still as it was listed. */
  ghost predicate ReachedAt(before: Store, existing: seq<EndpointSlice>, n: nat, wanted: Wants)
    requires n < |existing|
  {
    var now := DiffUpTo(before, existing, n, wanted).slices;
    existing[n].Id() in now && now[existing[n].Id()] == existing[n]
  }

  ghost predicate Reachable(before: Store, existing: seq<EndpointSlice>, wanted: Wants) {
    forall n :: 0 <= n < |existing| ==> ReachedAt(before, existing, n, wanted)
  }

  /** The slice the loop looks at next needs no change. */
  ghost predicate MatchAt(before: Store, existing: seq<EndpointSlice>, n: nat, wanted: Wants)
    requires n < |existing|
  {
    var rest := DiffUpTo(before, existing, n, wanted).rest;
    existing[n].name in rest && SliceEqual(existing[n], rest[existing[n].name])
  }

  ghost predicate AllMatch(before: Store, existing: seq<EndpointSlice>, wanted: Wants) {
    forall n :: 0 <= n < |existing| ==> MatchAt(before, existing, n, wanted)
  }

  /** The loop finds every slice as it was listed, and has nothing to do where all is in sync. */
  lemma DiffReaches(
    before: Store, existing: seq<EndpointSlice>, mine: EndpointSlice -> bool, n: nat, wanted: Wants)
    requires n < |existing| && Answers(existing, before, mine)
    ensures ReachedAt(before, existing, n, wanted)
    ensures InSync(before, mine, wanted) ==> MatchAt(before, existing, n, wanted)
  {
    AnswerMembers(existing, before, mine);
    DiffOutside(before, existing, n, wanted, existing[n].Id());
    DiffRemaining(before, existing, n, wanted);
    if InSync(before, mine, wanted) {
      SyncedKeepsAll(existing, before, mine, wanted);
      assert Keeps(existing, n, wanted);
    }
  }

  lemma TurnOthers(before: Store, w: Work, e: EndpointSlice, mine: EndpointSlice -> bool)
    requires SliceStore(w.slices) && OthersKept(before, w.slices, mine)
    requires e.Id() in before && mine(before[e.Id()])
    requires e.name in w.rest ==> mine(Revised(e, w.rest[e.name]))
    ensures var now := Turn(w, e).slices; SliceStore(now) && OthersKept(before, now, mine)
  {
  }

  lemma {:induction false} DiffOthers(
    before: Store, existing: seq<EndpointSlice>, mine: EndpointSlice -> bool, home: Segment, n: nat, wanted: Wants)
    requires n <= |existing| && Asks(wanted, mine, home) && Answers(existing, before, mine)
    ensures var now := DiffUpTo(before, existing, n, wanted).slices; SliceStore(now) && OthersKept(before, now, mine)
  {
    if n > 0 {
      DiffOthers(before, existing, mine, home, n - 1, wanted);
      DiffRemaining(before, existing, n - 1, wanted);
      AnswerMembers(existing, before, mine);
      var w, e := DiffUpTo(before, existing, n - 1, wanted), existing[n - 1];
      assert e.name in w.rest ==> w.rest[e.name] == wanted[e.name] && mine(Revised(e, wanted[e.name]));
      TurnOthers(before, w, e, mine);
    }
  }

  lemma TurnKeeps(w: Work, e: EndpointSlice)
    requires e.name in w.rest && SliceEqual(e, w.rest[e.name])
    requires e.Id() in w.slices && w.slices[e.Id()] == e
    ensures Turn(w, e).slices == w.slices
  {
    assert Revised(e, w.rest[e.name]) == e;
  }

  lemma {:induction false} DiffSynced(
    before: Store, existing: seq<EndpointSlice>, mine: EndpointSlice -> bool, n: nat, wanted: Wants)
    requires n <= |existing| && Answers(existing, before, mine) && InSync(before, mine, wanted)
    ensures DiffUpTo(before, existing, n, wanted).slices == before
  {
    if n > 0 {
      DiffSynced(before, existing, mine, n - 1, wanted);
      DiffReaches(before, existing, mine, n - 1, wanted);
      TurnKeeps(DiffUpTo(before, existing, n - 1, wanted), existing[n - 1]);
    }
  }

  lemma SyncedLeavesNothing(before: Store, existing: seq<EndpointSlice>, mine: EndpointSlice -> bool, wanted: Wants)
    requires Answers(existing, before, mine) && InSync(before, mine, wanted)
    ensures DiffUpTo(before, existing, |existing|, wanted) == Work(before, map[])
  {
    SyncedKeepsAll(existing, before, mine, wanted);
    DiffRemaining(before, existing, |existing|, wanted);
    DiffSynced(before, existing, mine, |existing|, wanted);
  }

  // ---- Creating what remains -----------------------------------------------------------

  /** The slices of these names, each in the home namespace. */
  ghost function Placed(home: Segment, rest: Wants, names: set<Segment>): Store {
    map i | i in (set name | name in names && name in rest :: NamespacedName(home, name)) :: rest[i.name]
  }

  /** No slice sits where one of these would be created. */
  ghost predicate Vacant(slices: Store, home: Segment, names: set<Segment>) {
    forall name :: name in names ==> NamespacedName(home, name) !in slices
  }

  /** The creates run into a slice of somebody else exactly when a desired place was squatted from the start. */
  lemma VacantMeaning(before: Store, existing: seq<EndpointSlice>, mine: EndpointSlice -> bool, home: Segment, wanted: Wants)
    requires Answers(existing, before, mine)
    ensures var w := DiffUpTo(before, existing, |existing|, wanted);
            Vacant(w.slices, home, w.rest.Keys) <==> !Squatted(before, mine, home, wanted)
  {
    var w := DiffUpTo(before, existing, |existing|, wanted);
    DiffRemaining(before, existing, |existing|, wanted);
    forall name | name in wanted
      ensures name in w.rest <==> !Held(before, mine, name)
      ensures name in w.rest ==> (NamespacedName(home, name) in w.slices <==> NamespacedName(home, name) in before)
    {
      HeldIsListed(existing, before, mine, name);
      if name in w.rest {
        assert forall j :: 0 <= j < |existing| ==> existing[j].name != name;
        DiffOutside(before, existing, |existing|, wanted, NamespacedName(home, name));
      }
    }
  }

  lemma PlacedOthers(before: Store, now: Store, mine: EndpointSlice -> bool, home: Segment, rest: Wants, landed: set<Segment>)
    requires OthersKept(before, now, mine) && landed <= rest.Keys && Vacant(now, home, landed)
    requires forall name :: name in rest ==> mine(rest[name])
    ensures OthersKept(before, now + Placed(home, rest, landed), mine)
  {
    var after := now + Placed(home, rest, landed);
    forall i | i in after
      ensures i in now || mine(after[i])
    {
      assert i in Placed(home, rest, landed) ==> mine(rest[i.name]);
    }
  }

  lemma PlaceOne(base: Store, home: Segment, rest: Wants, landed: set<Segment>, name: Segment)
    requires name in rest && name !in landed
    ensures var i, now := NamespacedName(home, name), base + Placed(home, rest, landed);
            && (i in now <==> i in base)
            && base + Placed(home, rest, landed + {name}) == now[i := rest[name]]
  {
    var i, bigger := NamespacedName(home, name), Placed(home, rest, landed + {name});
    assert i in bigger;
    assert forall k :: k in bigger <==> k in Placed(home, rest, landed) || k == i;
  }

  lemma PlacedStore(now: Store, home: Segment, rest: Wants, landed: set<Segment>)
    requires SliceStore(now) && forall name :: name in rest ==> rest[name].Id() == NamespacedName(home, name)
    ensures SliceStore(now + Placed(home, rest, landed))
  {
  }

  // ---- Where the slices end up ---------------------------------------------------------

  /** Own slice `i` is in the final state: newly created, or a kept one. */
  ghost predicate Final(existing: seq<EndpointSlice>, wanted: Wants, landed: set<Segment>, home: Segment, i: NamespacedName) {
    || (i.namespace == home && i.name in landed)
    || exists j :: 0 <= j < |existing| && existing[j].Id() == i && Keeps(existing, j, wanted)
  }

  lemma AfterPlacing(
    before: Store, existing: seq<EndpointSlice>, wanted: Wants, mine: EndpointSlice -> bool, home: Segment,
    landed: set<Segment>, name: Segment)
    requires Asks(wanted, mine, home) && name in landed && landed <= DiffUpTo(before, existing, |existing|, wanted).rest.Keys
    ensures var w, i := DiffUpTo(before, existing, |existing|, wanted), NamespacedName(home, name);
            var after := w.slices + Placed(home, w.rest, landed);
            i in after && mine(after[i]) && name in wanted && SliceEqual(after[i], wanted[name])
  {
    DiffRemaining(before, existing, |existing|, wanted);
    var w, i := DiffUpTo(before, existing, |existing|, wanted), NamespacedName(home, name);
    assert i in Placed(home, w.rest, landed) && Placed(home, w.rest, landed)[i] == w.rest[name] == wanted[name];
  }

  /** A listed slice is one's own afterwards exactly if it was kept. */
  lemma AfterListed(
    before: Store, existing: seq<EndpointSlice>, wanted: Wants, mine: EndpointSlice -> bool, home: Segment, i: NamespacedName)
    requires Asks(wanted, mine, home) && Answers(existing, before, mine) && Listed(existing, |existing|, i)
    ensures var now := DiffUpTo(before, existing, |existing|, wanted).slices;
            && (i in now <==> exists j :: 0 <= j < |existing| && existing[j].Id() == i && Keeps(existing, j, wanted))
            && (i in now ==> mine(now[i]) && i.name in wanted && SliceEqual(now[i], wanted[i.name]))
  {
    AnswerMembers(existing, before, mine);
    DiffMeaning(before, existing, mine, wanted);
    var j :| 0 <= j < |existing| && existing[j].Id() == i;
    var now := DiffUpTo(before, existing, |existing|, wanted).slices;
    if Keeps(existing, j, wanted) {
      assert now[i] == Revised(existing[j], wanted[i.name]);
    }
  }

  lemma AfterUnlisted(
    before: Store, existing: seq<EndpointSlice>, wanted: Wants, mine: EndpointSlice -> bool, i: NamespacedName)
    requires Answers(existing, before, mine) && !Listed(existing, |existing|, i)
    ensures var now := DiffUpTo(before, existing, |existing|, wanted).slices; i in now ==> !mine(now[i])
  {
    AnswerMembers(existing, before, mine);
    DiffOutside(before, existing, |existing|, wanted, i);
  }

  lemma NotPlaced(home: Segment, rest: Wants, landed: set<Segment>, i: NamespacedName)
    requires !(i.namespace == home && i.name in landed)
    ensures i !in Placed(home, rest, landed)
  {
  }

  /** Where one's own slices are after the diff and some of the creates. */
  lemma AfterDiff(
    before: Store, existing: seq<EndpointSlice>, wanted: Wants, mine: EndpointSlice -> bool, home: Segment,
    landed: set<Segment>, i: NamespacedName)
    requires Asks(wanted, mine, home) && Answers(existing, before, mine)
    requires landed <= DiffUpTo(before, existing, |existing|, wanted).rest.Keys
    ensures var w := DiffUpTo(before, existing, |existing|, wanted);
            var after := w.slices + Placed(home, w.rest, landed);
            && (i in after && mine(after[i]) <==> Final(existing, wanted, landed, home, i))
            && (i in after && mine(after[i]) ==> i.name in wanted && SliceEqual(after[i], wanted[i.name]))
  {
    if i.namespace == home && i.name in landed {
      AfterPlacing(before, existing, wanted, mine, home, landed, i.name);
      assert i == NamespacedName(home, i.name);
    } else {
      NotPlaced(home, DiffUpTo(before, existing, |existing|, wanted).rest, landed, i);
      if Listed(existing, |existing|, i) {
        AfterListed(before, existing, wanted, mine, home, i);
      } else {
        AfterUnlisted(before, existing, wanted, mine, i);
      }
    }
  }

  /** Two own slices in the final state with one name are the same slice. */
  lemma FinalUnique(
    existing: seq<EndpointSlice>, wanted: Wants, rest: Wants, landed: set<Segment>, home: Segment,
    i: NamespacedName, i': NamespacedName)
    requires Remaining(rest, wanted, existing, |existing|) && landed <= rest.Keys && i.name == i'.name
    requires Final(existing, wanted, landed, home, i) && Final(existing, wanted, landed, home, i')
    ensures i == i'
  {
    if i.name in landed {
      assert !NameListed(existing, |existing|, i.name);
    }
  }

  lemma OnlyIsKept(
    before: Store, existing: seq<EndpointSlice>, wanted: Wants, mine: EndpointSlice -> bool, landed: set<Segment>, home: Segment,
    i: NamespacedName)
    requires Answers(existing, before, mine)
    requires i in before && mine(before[i]) && i.name in wanted && OnlyOfName(before, mine, i)
    ensures Final(existing, wanted, landed, home, i)
  {
    AnswerMembers(existing, before, mine);
    var j :| 0 <= j < |existing| && existing[j].Id() == i;
    forall k | 0 <= k < j
      ensures existing[k].name != existing[j].name
    {
      assert existing[k].Id() != i && existing[k].Id() in before;
    }
    assert Keeps(existing, j, wanted);
  }

  /** Once the diff is through, whatever was created, one's own slices are trimmed and none is lost. */
  lemma DiffTrims(
    before: Store, existing: seq<EndpointSlice>, wanted: Wants, mine: EndpointSlice -> bool, home: Segment, landed: set<Segment>)
    requires Asks(wanted, mine, home) && Answers(existing, before, mine)
    requires landed <= DiffUpTo(before, existing, |existing|, wanted).rest.Keys
    ensures var w := DiffUpTo(before, existing, |existing|, wanted);
            var after := w.slices + Placed(home, w.rest, landed);
            Trimmed(after, mine, wanted) && NoneLost(before, after, mine, wanted)
  {
    var w := DiffUpTo(before, existing, |existing|, wanted);
    var after := w.slices + Placed(home, w.rest, landed);
    DiffRemaining(before, existing, |existing|, wanted);
    forall i: NamespacedName
      ensures i in after && mine(after[i]) <==> Final(existing, wanted, landed, home, i)
      ensures i in after && mine(after[i]) ==> i.name in wanted
    {
      AfterDiff(before, existing, wanted, mine, home, landed, i);
    }
    forall i, i' | i in after && i' in after && mine(after[i]) && mine(after[i']) && i.name == i'.name
      ensures i == i'
    {
      FinalUnique(existing, wanted, w.rest, landed, home, i, i');
    }
    forall name | name in wanted && Held(before, mine, name)
      ensures Held(after, mine, name)
    {
      HeldIsListed(existing, before, mine, name);
      var j := FirstOfName(existing, |existing|, name);
      assert Keeps(existing, j, wanted);
      assert Final(existing, wanted, landed, home, existing[j].Id());
    }
    forall i | i in before && mine(before[i]) && i.name in wanted && OnlyOfName(before, mine, i)
      ensures i in after && mine(after[i])
    {
      OnlyIsKept(before, existing, wanted, mine, landed, home, i);
    }
  }

  lemma FinalOf(existing: seq<EndpointSlice>, wanted: Wants, rest: Wants, home: Segment, name: Segment) returns (i: NamespacedName)
    requires Remaining(rest, wanted, existing, |existing|) && name in wanted
    ensures Final(existing, wanted, rest.Keys, home, i) && i.name == name
  {
    if NameListed(existing, |existing|, name) {
      var j := FirstOfName(existing, |existing|, name);
      assert Keeps(existing, j, wanted);
      i := existing[j].Id();
    } else {
      i := NamespacedName(home, name);
    }
  }

  /** So a completed diff with all creates leaves exactly the desired slices, at home exactly when each kept slice was. */
  lemma DiffGivesSync(
    before: Store, existing: seq<EndpointSlice>, wanted: Wants, mine: EndpointSlice -> bool, home: Segment)
    requires Asks(wanted, mine, home) && Answers(existing, before, mine)
    ensures var w := DiffUpTo(before, existing, |existing|, wanted);
            var after := w.slices + Placed(home, w.rest, w.rest.Keys);
            InSync(after, mine, wanted) && (AtHome(after, mine, home) <==> HomeFirst(existing, wanted, home))
  {
    var w := DiffUpTo(before, existing, |existing|, wanted);
    var after := w.slices + Placed(home, w.rest, w.rest.Keys);
    DiffRemaining(before, existing, |existing|, wanted);
    DiffTrims(before, existing, wanted, mine, home, w.rest.Keys);
    forall i: NamespacedName
      ensures i in after && mine(after[i]) <==> Final(existing, wanted, w.rest.Keys, home, i)
      ensures i in after && mine(after[i]) ==> i.name in wanted && SliceEqual(after[i], wanted[i.name])
    {
      AfterDiff(before, existing, wanted, mine, home, w.rest.Keys, i);
    }
    forall name | name in wanted
      ensures Held(after, mine, name)
    {
      var i := FinalOf(existing, wanted, w.rest, home, name);
      assert i in after && mine(after[i]);
    }
    forall j | 0 <= j < |existing| && Keeps(existing, j, wanted)
      ensures existing[j].Id() in after && mine(after[existing[j].Id()])
    {
      assert Final(existing, wanted, w.rest.Keys, home, existing[j].Id());
    }
  }

  // ---- A whole run ---------------------------------------------------------------------

  /** What holds after a run, and what more if it succeeded. */
  ghost predicate AfterRun(
    before: Store, after: Store, mine: EndpointSlice -> bool, home: Segment, existing: seq<EndpointSlice>, wanted: Wants, ok: bool)
  {
    && SliceStore(after) && OthersKept(before, after, mine) && NewAtHome(before, after, mine, home, wanted)
    && (ok ==> InSync(after, mine, wanted) && (AtHome(after, mine, home) <==> HomeFirst(existing, wanted, home)))
  }

  /** What more holds after a run without API errors, although a create may have been refused. */
  ghost predicate AfterDiffRun(before: Store, after: Store, mine: EndpointSlice -> bool, wanted: Wants) {
    Trimmed(after, mine, wanted) && NoneLost(before, after, mine, wanted)
  }

  lemma DiffFacts(before: Store, existing: seq<EndpointSlice>, mine: EndpointSlice -> bool, wanted: Wants)
    requires Answers(existing, before, mine)
    ensures Reachable(before, existing, wanted)
    ensures InSync(before, mine, wanted) ==> AllMatch(before, existing, wanted)
  {
    forall n | 0 <= n < |existing|
      ensures ReachedAt(before, existing, n, wanted)
      ensures InSync(before, mine, wanted) ==> MatchAt(before, existing, n, wanted)
    {
      DiffReaches(before, existing, mine, n, wanted);
    }
  }

  lemma RestAsks(before: Store, existing: seq<EndpointSlice>, mine: EndpointSlice -> bool, home: Segment, wanted: Wants)
    requires Asks(wanted, mine, home)
    ensures var rest := DiffUpTo(before, existing, |existing|, wanted).rest;
            forall name :: name in rest ==> rest[name].Id() == NamespacedName(home, name) && mine(rest[name])
  {
    DiffRemaining(before, existing, |existing|, wanted);
  }

  /** What the creates start from. */
  lemma Restful(before: Store, existing: seq<EndpointSlice>, mine: EndpointSlice -> bool, home: Segment, wanted: Wants)
    requires Asks(wanted, mine, home) && Answers(existing, before, mine)
    ensures var w := DiffUpTo(before, existing, |existing|, wanted);
            && (forall name :: name in w.rest ==> w.rest[name].Id() == NamespacedName(home, name))
            && (Vacant(w.slices, home, w.rest.Keys) <==> !Squatted(before, mine, home, wanted))
            && (InSync(before, mine, wanted) ==> w == Work(before, map[]))
  {
    RestAsks(before, existing, mine, home, wanted);
    VacantMeaning(before, existing, mine, home, wanted);
    if InSync(before, mine, wanted) {
      SyncedLeavesNothing(before, existing, mine, wanted);
    }
  }

  /** The diff itself adds no slice. */
  lemma DiffAddsNone(before: Store, existing: seq<EndpointSlice>, mine: EndpointSlice -> bool, wanted: Wants, turns: nat)
    requires turns <= |existing| && Answers(existing, before, mine)
    ensures forall i :: i in DiffUpTo(before, existing, turns, wanted).slices ==> i in before
  {
    AnswerMembers(existing, before, mine);
    forall i | i !in before
      ensures i !in DiffUpTo(before, existing, turns, wanted).slices
    {
      DiffOutside(before, existing, turns, wanted, i);
    }
  }

  /** A run that an error stops inside the diff. */
  lemma Stopped(before: Store, existing: seq<EndpointSlice>, mine: EndpointSlice -> bool, home: Segment, wanted: Wants, turns: nat)
    requires turns <= |existing| && Asks(wanted, mine, home) && Answers(existing, before, mine)
    ensures AfterRun(before, DiffUpTo(before, existing, turns, wanted).slices, mine, home, existing, wanted, false)
  {
    DiffOthers(before, existing, mine, home, turns, wanted);
    DiffAddsNone(before, existing, mine, wanted, turns);
  }

  lemma PlacedAtHome(
    before: Store, existing: seq<EndpointSlice>, mine: EndpointSlice -> bool, home: Segment, wanted: Wants, landed: set<Segment>)
    requires Asks(wanted, mine, home) && Answers(existing, before, mine)
    requires landed <= DiffUpTo(before, existing, |existing|, wanted).rest.Keys
    ensures var w := DiffUpTo(before, existing, |existing|, wanted);
            NewAtHome(before, w.slices + Placed(home, w.rest, landed), mine, home, wanted)
  {
    var w := DiffUpTo(before, existing, |existing|, wanted);
    DiffAddsNone(before, existing, mine, wanted, |existing|);
    DiffOthers(before, existing, mine, home, |existing|, wanted);
    DiffRemaining(before, existing, |existing|, wanted);
    forall i | i in Placed(home, w.rest, landed)
      ensures i.namespace == home && i.name in wanted && !Held(before, mine, i.name)
    {
      HeldIsListed(existing, before, mine, i.name);
    }
  }

  /** A run that gets through the diff and creates some or all of the rest. */
  lemma Completed(
    before: Store, existing: seq<EndpointSlice>, mine: EndpointSlice -> bool, home: Segment, wanted: Wants, landed: set<Segment>, ok: bool)
    requires Asks(wanted, mine, home) && Answers(existing, before, mine)
    requires var w := DiffUpTo(before, existing, |existing|, wanted);
             landed <= w.rest.Keys && Vacant(w.slices, home, landed) && (ok ==> landed == w.rest.Keys)
    ensures var w := DiffUpTo(before, existing, |existing|, wanted);
            var after := w.slices + Placed(home, w.rest, landed);
            AfterRun(before, after, mine, home, existing, wanted, ok) && AfterDiffRun(before, after, mine, wanted)
  {
    var w := DiffUpTo(before, existing, |existing|, wanted);
    DiffOthers(before, existing, mine, home, |existing|, wanted);
    RestAsks(before, existing, mine, home, wanted);
    PlacedOthers(before, w.slices, mine, home, w.rest, landed);
    PlacedStore(w.slices, home, w.rest, landed);
    PlacedAtHome(before, existing, mine, home, wanted, landed);
    DiffTrims(before, existing, wanted, mine, home, landed);
    if ok {
      DiffGivesSync(before, existing, wanted, mine, home);
    }
  }

  lemma NothingListed(before: Store, existing: seq<EndpointSlice>, mine: EndpointSlice -> bool)
    requires Answers(existing, before, mine)
    ensures InSync(before, mine, map[]) ==> existing == []
    ensures forall n :: 0 <= n <= |existing| ==> DiffUpTo(before, existing, n, map[]).rest == map[]
  {
    AnswerMembers(existing, before, mine);
    if existing != [] {
      assert existing[0].Id() in before;
    }
    forall n | 0 <= n <= |existing|
      ensures DiffUpTo(before, existing, n, map[]).rest == map[]
    {
      DiffRemaining(before, existing, n, map[]);
    }
  }

  /**
   The diff matches by bare name, so one's own slice in another namespace with a desired name is taken for
   the desired one: nothing is then created at home, although the run succeeds.
   */
  lemma StrayCopyIsKept(mine: EndpointSlice -> bool, home: Segment, wanted: Wants, stray: EndpointSlice)
    requires mine(stray) && stray.name in wanted && stray.namespace != home
    ensures var before := map[stray.Id() := stray];
            && Answers([stray], before, mine) && !HomeFirst([stray], wanted, home)
            && DiffUpTo(before, [stray], 1, wanted) ==
               Work(map[stray.Id() := Revised(stray, wanted[stray.name])], wanted - {stray.name})
  {
    var before := map[stray.Id() := stray];
    assert stray.Id() in before && mine(before[stray.Id()]);
    assert OwnSlices(before, mine) == {stray};
    assert Keeps([stray], 0, wanted);
    assert DiffUpTo(before, [stray], 1, wanted) == Turn(DiffUpTo(before, [stray], 0, wanted), stray);
  }
}
