/** Which address a scan of the service ranges finds (internal/controller/ipam.go:117-167). */
module Allocation {
  import opened Wrappers
  import opened Addresses

  /** The addresses a prefix offers: all but its base and its last one. */
  predicate Candidate(prefix: Prefix, a: Addr)
    requires prefix.Valid()
  {
    Value(prefix.addr) < Value(a) < Value(prefix.addr) + prefix.Size() - 1
  }

  ghost predicate AllMasked(prefixes: seq<Prefix>) {
    forall p :: p in prefixes ==> p.IsMasked()
  }

  /** Every address the prefix offers below `limit` is busy. */
  ghost predicate BusyBelow(prefix: Prefix, busy: set<string>, limit: int)
    requires prefix.Valid()
  {
    forall a: Addr :: Candidate(prefix, a) && Value(a) < limit ==> Dotted(a) in busy
  }

  ghost predicate Full(prefix: Prefix, busy: set<string>)
    requires prefix.Valid()
  {
    forall a: Addr :: Candidate(prefix, a) ==> Dotted(a) in busy
  }

  /** No prefix offers a free address. */
  ghost predicate Exhausted(prefixes: seq<Prefix>, busy: set<string>)
    requires AllMasked(prefixes)
  {
    forall p :: p in prefixes ==> Full(p, busy)
  }

  /** `a` is the first free address of prefix `k`, and the prefixes before it are full. */
  ghost predicate FitsAt(prefixes: seq<Prefix>, busy: set<string>, k: nat, a: Addr)
    requires AllMasked(prefixes) && k < |prefixes|
  {
    && prefixes[k] in prefixes
    && Candidate(prefixes[k], a) && Dotted(a) !in busy
    && BusyBelow(prefixes[k], busy, Value(a))
    && Exhausted(prefixes[..k], busy)
  }

  ghost predicate FirstFit(prefixes: seq<Prefix>, busy: set<string>, a: Addr)
    requires AllMasked(prefixes)
  {
    exists k :: 0 <= k < |prefixes| && FitsAt(prefixes, busy, k, a)
  }

  lemma EarlierIsBusy(prefixes: seq<Prefix>, busy: set<string>, j: nat, k: nat, a: Addr)
    requires AllMasked(prefixes) && j < k <= |prefixes| && Exhausted(prefixes[..k], busy)
    requires prefixes[j] in prefixes && Candidate(prefixes[j], a)
    ensures Dotted(a) in busy
  {
    assert prefixes[..k][j] in prefixes[..k];
  }

  lemma SameFit(prefix: Prefix, busy: set<string>, a: Addr, b: Addr)
    requires prefix.Valid() && Candidate(prefix, a) && Candidate(prefix, b) && Dotted(a) !in busy && Dotted(b) !in busy
    requires BusyBelow(prefix, busy, Value(a)) && BusyBelow(prefix, busy, Value(b))
    ensures a == b
  {
    if Value(a) == Value(b) {
      ValueInjective(a, b);
    }
  }

  /** The first fit is one address, however the scan goes about it. */
  lemma FirstFitUnique(prefixes: seq<Prefix>, busy: set<string>, a: Addr, b: Addr)
    requires AllMasked(prefixes) && FirstFit(prefixes, busy, a) && FirstFit(prefixes, busy, b)
    ensures a == b
  {
    var j :| 0 <= j < |prefixes| && FitsAt(prefixes, busy, j, a);
    var k :| 0 <= k < |prefixes| && FitsAt(prefixes, busy, k, b);
    if j < k {
      EarlierIsBusy(prefixes, busy, j, k, a);
    } else if k < j {
      EarlierIsBusy(prefixes, busy, k, j, b);
    } else {
      SameFit(prefixes[j], busy, a, b);
    }
  }

  /** The least free address of a prefix that is not full. */
  lemma LeastFree(prefix: Prefix, busy: set<string>, some: Addr) returns (a: Addr)
    requires prefix.Valid() && Candidate(prefix, some) && Dotted(some) !in busy
    ensures Candidate(prefix, a) && Dotted(a) !in busy && BusyBelow(prefix, busy, Value(a))
    decreases Value(some)
  {
    a := some;
    if !BusyBelow(prefix, busy, Value(some)) {
      var less: Addr :| Candidate(prefix, less) && Value(less) < Value(some) && Dotted(less) !in busy;
      a := LeastFree(prefix, busy, less);
    }
  }

  lemma FirstRoom(prefixes: seq<Prefix>, busy: set<string>) returns (k: nat)
    requires AllMasked(prefixes) && !Exhausted(prefixes, busy)
    ensures k < |prefixes| && prefixes[k] in prefixes && !Full(prefixes[k], busy) && Exhausted(prefixes[..k], busy)
    decreases |prefixes|
  {
    var n := |prefixes| - 1;
    assert prefixes == prefixes[..n] + [prefixes[n]];
    if Exhausted(prefixes[..n], busy) {
      k := n;
    } else {
      k := FirstRoom(prefixes[..n], busy);
      assert prefixes[..n][..k] == prefixes[..k];
    }
  }

  lemma FitHasRoom(prefixes: seq<Prefix>, busy: set<string>, a: Addr)
    requires AllMasked(prefixes) && FirstFit(prefixes, busy, a)
    ensures !Exhausted(prefixes, busy)
  {
    var k :| 0 <= k < |prefixes| && FitsAt(prefixes, busy, k, a);
    assert !Full(prefixes[k], busy);
  }

  lemma RoomHasFit(prefixes: seq<Prefix>, busy: set<string>) returns (a: Addr)
    requires AllMasked(prefixes) && !Exhausted(prefixes, busy)
    ensures FirstFit(prefixes, busy, a)
  {
    var k := FirstRoom(prefixes, busy);
    var some: Addr :| Candidate(prefixes[k], some) && Dotted(some) !in busy;
    a := LeastFree(prefixes[k], busy, some);
    assert FitsAt(prefixes, busy, k, a);
  }

  /** A first fit exists exactly when the prefixes are not exhausted. */
  lemma FitOrExhausted(prefixes: seq<Prefix>, busy: set<string>)
    requires AllMasked(prefixes)
    ensures (exists a: Addr :: FirstFit(prefixes, busy, a)) <==> !Exhausted(prefixes, busy)
  {
    if a: Addr :| FirstFit(prefixes, busy, a) {
      FitHasRoom(prefixes, busy, a);
    }
    if !Exhausted(prefixes, busy) {
      var a := RoomHasFit(prefixes, busy);
    }
  }

  // ---- In terms of texts --------------------------------------------------------------

  /** The text reads as an address strictly between the first and the last one of the prefix. */
  predicate Within(prefix: Prefix, text: string)
    requires prefix.Valid()
  {
    && ReadQuad(text).Some?
    && Value(prefix.addr) < Value(ReadQuad(text).value) < Value(prefix.addr) + prefix.Size() - 1
  }

  /** The text is free, and every earlier one that its prefix or a prefix before it offers is busy. */
  ghost predicate FirstFree(prefixes: seq<Prefix>, busy: set<string>, k: nat, text: string)
    requires AllMasked(prefixes)
  {
    && k < |prefixes| && prefixes[k] in prefixes && Within(prefixes[k], text) && text !in busy
    && (forall t :: Within(prefixes[k], t) && Value(ReadQuad(t).value) < Value(ReadQuad(text).value) ==> t in busy)
    && (forall j, t :: 0 <= j < k && prefixes[j] in prefixes && Within(prefixes[j], t) ==> t in busy)
  }

  lemma WithinIsCandidate(prefix: Prefix, text: string)
    requires prefix.Valid()
    ensures Within(prefix, text) <==> exists a: Addr :: Candidate(prefix, a) && text == Dotted(a)
  {
    if Within(prefix, text) {
      QuadExactly(text, ReadQuad(text).value);
    }
    if a: Addr :| Candidate(prefix, a) && text == Dotted(a) {
      QuadReadsBack(a);
    }
  }

  /** The first fit is the first free text. */
  lemma FirstFitReads(prefixes: seq<Prefix>, busy: set<string>, a: Addr)
    requires AllMasked(prefixes) && FirstFit(prefixes, busy, a)
    ensures ReadQuad(Dotted(a)) == Some(a) && exists k: nat :: FirstFree(prefixes, busy, k, Dotted(a))
  {
    QuadReadsBack(a);
    var k: nat :| k < |prefixes| && FitsAt(prefixes, busy, k, a);
    forall t | Within(prefixes[k], t) && Value(ReadQuad(t).value) < Value(a)
      ensures t in busy
    {
      WithinIsCandidate(prefixes[k], t);
      QuadExactly(t, ReadQuad(t).value);
    }
    forall j, t | 0 <= j < k && prefixes[j] in prefixes && Within(prefixes[j], t)
      ensures t in busy
    {
      WithinIsCandidate(prefixes[j], t);
      assert prefixes[..k][j] in prefixes[..k];
    }
    assert FirstFree(prefixes, busy, k, Dotted(a));
  }

  /** The prefixes are exhausted exactly if every text they offer is busy. */
  lemma ExhaustedReads(prefixes: seq<Prefix>, busy: set<string>)
    requires AllMasked(prefixes)
    ensures Exhausted(prefixes, busy) <==> forall p, t :: p in prefixes && Within(p, t) ==> t in busy
  {
    forall p, t | p in prefixes && Within(p, t) && Exhausted(prefixes, busy)
      ensures t in busy
    {
      WithinIsCandidate(p, t);
    }
    if forall p, t :: p in prefixes && Within(p, t) ==> t in busy {
      forall p, a: Addr | p in prefixes && Candidate(p, a)
        ensures Dotted(a) in busy
      {
        WithinIsCandidate(p, Dotted(a));
      }
    }
  }

  lemma ExactQuotient(v: nat, m: nat)
    requires m > 0 && v % m == 0
    ensures v / m * m == v
  {
  }

  lemma MaskedAddr(prefix: Prefix)
    requires prefix.IsMasked()
    ensures prefix.Masked().addr == prefix.addr
  {
    ExactQuotient(Value(prefix.addr), prefix.Size());
    FromValueIsInverse(Value(prefix.addr));
    ValueInjective(prefix.Masked().addr, prefix.addr);
  }

  /** An offered address lies in the prefix and is neither its base nor its last address. */
  lemma CandidateMeaning(prefix: Prefix, a: Addr)
    requires prefix.IsMasked()
    ensures Candidate(prefix, a) <==>
            prefix.Contains(a) && a != prefix.addr && Value(a) != Value(prefix.addr) + prefix.Size() - 1
  {
    MaskedAddr(prefix);
    ContainsIsRange(prefix, a);
    if Value(a) == Value(prefix.addr) {
      ValueInjective(a, prefix.addr);
    }
  }

  /** A prefix offers one address for each value strictly between its base and its last address, and no other. */
  lemma CandidatesAreBetween(prefix: Prefix, k: nat)
    requires prefix.IsMasked()
    ensures 1 <= k <= prefix.Size() - 2 ==>
              Value(prefix.addr) + k <= MAX_VALUE && Candidate(prefix, FromValue(Value(prefix.addr) + k))
    ensures forall a: Addr :: Candidate(prefix, a) ==>
              1 <= Value(a) - Value(prefix.addr) <= prefix.Size() - 2 && a == FromValue(Value(a))
  {
    PrefixFits(prefix);
    if 1 <= k <= prefix.Size() - 2 {
      FromValueIsInverse(Value(prefix.addr) + k);
    }
    forall a: Addr | Candidate(prefix, a)
      ensures a == FromValue(Value(a))
    {
      FromValueIsInverse(Value(a));
      ValueInjective(a, FromValue(Value(a)));
    }
  }

  /** So prefixes of one or two addresses offer nothing. */
  lemma SmallPrefixesAreFull(prefix: Prefix, busy: set<string>)
    requires prefix.IsMasked() && prefix.bits >= 31
    ensures Full(prefix, busy)
  {
    assert prefix.Size() <= 2;
  }

  /** Passing a busy address. */
  lemma BusyNext(prefix: Prefix, busy: set<string>, a: Addr)
    requires prefix.Valid() && BusyBelow(prefix, busy, Value(a)) && Dotted(a) in busy
    ensures BusyBelow(prefix, busy, Value(a) + 1)
  {
    forall b: Addr | Candidate(prefix, b) && Value(b) < Value(a) + 1
      ensures Dotted(b) in busy
    {
      if Value(b) == Value(a) {
        ValueInjective(a, b);
      }
    }
  }
}
