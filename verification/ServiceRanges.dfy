/** The ranges VIPs are taken from (internal/controller/ipam.go:201-250). */
module ServiceRanges {
  import opened Wrappers
  import opened Text
  import opened Sorting
  import opened Addresses
  import opened Objects
  import opened Allocation

  /** `netip.Prefix.String`. */
  function PrefixText(p: Prefix): string {
    Dotted(p.addr) + "/" + Itoa(p.bits)
  }

  const PREFIX_KEY := (p: Prefix) => PrefixText(p)

  lemma PrefixTextInjective(p: Prefix, q: Prefix)
    requires PrefixText(p) == PrefixText(q)
    ensures p == q
  {
    DottedAvoids(p.addr, '/');
    DottedAvoids(q.addr, '/');
    CutUnique(Dotted(p.addr), Itoa(p.bits), '/', Dotted(q.addr), Itoa(q.bits));
    DottedInjective(p.addr, q.addr);
    ItoaInjective(p.bits, q.bits);
  }

  /** The text splits into the dotted quad of the base and the number of bits. */
  lemma PrefixTextReads(p: Prefix)
    ensures var parts := SplitAt(PrefixText(p), '/');
            |parts| == 2 && ReadQuad(parts[0]) == Some(p.addr) && DecimalValue(parts[1]) == p.bits
  {
    var quad, bits := Dotted(p.addr), Itoa(p.bits);
    DottedAvoids(p.addr, '/');
    DigitsAvoid(p.bits, '/');
    SplitJoin(quad, bits, '/');
    SplitWhole(bits, '/');
    QuadReadsBack(p.addr);
    DecimalRoundTrip(p.bits);
  }

  predicate FirstReadyAt(conditions: seq<CIDRCondition>, i: nat)
    requires i < |conditions|
  {
    conditions[i].kind == "Ready" && forall j :: 0 <= j < i ==> conditions[j].kind != "Ready"
  }

  /** Ready unless the first Ready condition says otherwise. */
  predicate CIDRReady(item: ServiceCIDR) {
    forall i :: 0 <= i < |item.conditions| && FirstReadyAt(item.conditions, i) ==> item.conditions[i].status == "True"
  }

  method ServiceCIDRReady(item: ServiceCIDR) returns (ready: bool)
    ensures ready <==> CIDRReady(item)
  {
    if |item.conditions| == 0 {
      return true;
    }
    for i := 0 to |item.conditions|
      invariant forall j :: 0 <= j < i ==> item.conditions[j].kind != "Ready"
    {
      if item.conditions[i].kind != "Ready" {
        continue;
      }
      return item.conditions[i].status == "True";
    }
    return true;
  }

  /** The masked IPv4 prefixes among these texts. */
  function PrefixesOf(lib: Library, cidrs: seq<string>): seq<Prefix> {
    if cidrs == [] then []
    else
      var n := |cidrs| - 1;
      var p := lib.parsePrefixIPv4(cidrs[n]);
      PrefixesOf(lib, cidrs[..n]) + (if p.Some? then [p.value.Masked()] else [])
  }

  function Offers(lib: Library, item: ServiceCIDR): seq<Prefix> {
    if item.deleting || !CIDRReady(item) then [] else PrefixesOf(lib, item.cidrs)
  }

  ghost function OffersBag(lib: Library): ServiceCIDR -> multiset<Prefix> {
    item => multiset(Offers(lib, item))
  }

  lemma {:induction false} OffersMasked(lib: Library, cidrs: seq<string>)
    ensures AllMasked(PrefixesOf(lib, cidrs))
  {
    if cidrs != [] {
      var n := |cidrs| - 1;
      OffersMasked(lib, cidrs[..n]);
      if lib.parsePrefixIPv4(cidrs[n]).Some? {
        MaskedIsMasked(lib.parsePrefixIPv4(cidrs[n]).value);
      }
    }
  }

  method ParsePrefixes(lib: Library, cidrs: seq<string>) returns (out: seq<Prefix>)
    ensures out == PrefixesOf(lib, cidrs)
  {
    out := [];
    for i := 0 to |cidrs|
      invariant out == PrefixesOf(lib, cidrs[..i])
    {
      assert cidrs[..i + 1][..i] == cidrs[..i];
      var prefix := lib.parsePrefixIPv4(cidrs[i]);
      if prefix.None? {
        continue;
      }
      out := out + [prefix.value.Masked()];
    }
    assert cidrs[..|cidrs|] == cidrs;
  }

  /** The prefix with these bits and no host bits that contains the address of `q`. */
  predicate MaskOf(p: Prefix, q: Prefix) {
    p.bits == q.bits && p.IsMasked() && p.Contains(q.addr)
  }

  lemma MaskedExactly(p: Prefix, q: Prefix)
    requires q.Valid()
    ensures MaskOf(p, q) <==> p == q.Masked()
  {
    MaskedIsMasked(q);
    if MaskOf(p, q) {
      MaskedAddr(p);
      DivideBounds(Value(p.addr), p.Size());
      ExactQuotient(Value(p.addr), p.Size());
      FromValueIsInverse(Value(p.addr));
      ValueInjective(p.addr, q.Masked().addr);
    }
    if p == q.Masked() {
      ContainsIsRange(q, q.addr);
      DivideBounds(Value(q.addr), q.Size());
      FromValueIsInverse(Value(q.addr) / q.Size() * q.Size());
      QuotientUnique(Value(p.addr), q.Size(), Value(q.addr) / q.Size(), 0);
    }
  }

  /** No Ready condition, or the first one is true. */
  predicate SaysReady(item: ServiceCIDR) {
    forall i :: 0 <= i < |item.conditions| && item.conditions[i].kind == "Ready" && item.conditions[i].status != "True" ==>
      exists j :: 0 <= j < i && item.conditions[j].kind == "Ready" && item.conditions[j].status == "True"
  }

  /** A live ready range lists a text for this prefix. */
  ghost predicate ListedIn(lib: Library, items: seq<ServiceCIDR>, i: nat, j: nat, p: Prefix) {
    && i < |items| && !items[i].deleting && SaysReady(items[i])
    && j < |items[i].cidrs| && lib.parsePrefixIPv4(items[i].cidrs[j]).Some?
    && MaskOf(p, lib.parsePrefixIPv4(items[i].cidrs[j]).value)
  }

  lemma {:induction false} PrefixesMembers(lib: Library, cidrs: seq<string>, p: Prefix)
    ensures p in PrefixesOf(lib, cidrs) <==>
            exists j :: 0 <= j < |cidrs| && lib.parsePrefixIPv4(cidrs[j]).Some? && MaskOf(p, lib.parsePrefixIPv4(cidrs[j]).value)
  {
    if cidrs != [] {
      var n := |cidrs| - 1;
      PrefixesMembers(lib, cidrs[..n], p);
      if lib.parsePrefixIPv4(cidrs[n]).Some? {
        MaskedExactly(p, lib.parsePrefixIPv4(cidrs[n]).value);
      }
    }
  }

  lemma {:induction false} FirstReadyExists(conditions: seq<CIDRCondition>, i: nat) returns (j: nat)
    requires i < |conditions| && conditions[i].kind == "Ready"
    ensures j <= i && FirstReadyAt(conditions, j)
  {
    if k :| 0 <= k < i && conditions[k].kind == "Ready" {
      j := FirstReadyExists(conditions, k);
    } else {
      j := i;
    }
  }

  lemma ReadySays(item: ServiceCIDR)
    ensures CIDRReady(item) <==> SaysReady(item)
  {
    forall i | 0 <= i < |item.conditions| && item.conditions[i].kind == "Ready" && item.conditions[i].status != "True" && CIDRReady(item)
      ensures exists j :: 0 <= j < i && item.conditions[j].kind == "Ready" && item.conditions[j].status == "True"
    {
      var j := FirstReadyExists(item.conditions, i);
    }
  }

  lemma ItemOffers(lib: Library, items: seq<ServiceCIDR>, i: nat, p: Prefix)
    requires i < |items|
    ensures p in Offers(lib, items[i]) <==> exists j: nat :: ListedIn(lib, items, i, j, p)
  {
    var cidrs := items[i].cidrs;
    PrefixesMembers(lib, cidrs, p);
    ReadySays(items[i]);
    if p in Offers(lib, items[i]) {
      var j :| 0 <= j < |cidrs| && lib.parsePrefixIPv4(cidrs[j]).Some? && MaskOf(p, lib.parsePrefixIPv4(cidrs[j]).value);
      assert ListedIn(lib, items, i, j, p);
    }
  }

  lemma ListedBefore(lib: Library, items: seq<ServiceCIDR>, p: Prefix)
    requires items != []
    ensures var n := |items| - 1;
            (exists i: nat, j: nat :: ListedIn(lib, items, i, j, p)) <==>
            (exists i: nat, j: nat :: ListedIn(lib, items[..n], i, j, p)) || exists j: nat :: ListedIn(lib, items, n, j, p)
  {
    var n := |items| - 1;
    if i: nat, j: nat :| ListedIn(lib, items[..n], i, j, p) {
      assert ListedIn(lib, items, i, j, p);
    }
    if i: nat, j: nat :| ListedIn(lib, items, i, j, p) {
      assert i < n ==> ListedIn(lib, items[..n], i, j, p);
    }
  }

  lemma {:induction false} OffersMembers(lib: Library, items: seq<ServiceCIDR>, p: Prefix)
    ensures p in BagSum(OffersBag(lib), items) <==> exists i: nat, j: nat :: ListedIn(lib, items, i, j, p)
  {
    if items != [] {
      var n := |items| - 1;
      OffersMembers(lib, items[..n], p);
      ItemOffers(lib, items, n, p);
      ListedBefore(lib, items, p);
    }
  }

  lemma RangesMembers(lib: Library, items: seq<ServiceCIDR>, out: seq<Prefix>)
    requires multiset(out) == BagSum(OffersBag(lib), items)
    ensures forall p :: p in out <==> exists i: nat, j: nat :: ListedIn(lib, items, i, j, p)
  {
    forall p
      ensures p in out <==> exists i: nat, j: nat :: ListedIn(lib, items, i, j, p)
    {
      OffersMembers(lib, items, p);
      assert p in out <==> p in multiset(out);
    }
  }

  /** `listIPv4ServiceCIDRs`: what the ready ranges offer, masked and sorted by text. */
  method ListIPv4ServiceCIDRs(lib: Library, items: seq<ServiceCIDR>) returns (out: seq<Prefix>)
    ensures AllMasked(out) && SortedBy(PREFIX_KEY, out)
    ensures multiset(out) == BagSum(OffersBag(lib), items)
    ensures forall p :: p in out <==> exists i: nat, j: nat :: ListedIn(lib, items, i, j, p)
  {
    var found: seq<Prefix> := [];
    for i := 0 to |items|
      invariant AllMasked(found) && multiset(found) == BagSum(OffersBag(lib), items[..i])
    {
      assert items[..i + 1][..i] == items[..i];
      var ready := ServiceCIDRReady(items[i]);
      if items[i].deleting || !ready {
        continue;
      }
      OffersMasked(lib, items[i].cidrs);
      var offered := ParsePrefixes(lib, items[i].cidrs);
      assert multiset(found + offered) == multiset(found) + multiset(offered);
      found := found + offered;
    }
    assert items[..|items|] == items;
    out := SortFunc(PREFIX_KEY, found);
    MultisetMembers(out, found);
    RangesMembers(lib, items, out);
  }

  /** The prefix order is the same sequence however the ServiceCIDRs are listed. */
  lemma RangesOrderFree(lib: Library, a: seq<ServiceCIDR>, b: seq<ServiceCIDR>, x: seq<Prefix>, y: seq<Prefix>)
    requires multiset(a) == multiset(b)
    requires SortedBy(PREFIX_KEY, x) && multiset(x) == BagSum(OffersBag(lib), a)
    requires SortedBy(PREFIX_KEY, y) && multiset(y) == BagSum(OffersBag(lib), b)
    ensures x == y
  {
    BagSumOrderFree(OffersBag(lib), a, b);
    assert KeyDetermines(PREFIX_KEY, x) by {
      forall p, q | p in x && q in x && PREFIX_KEY(p) == PREFIX_KEY(q)
        ensures p == q
      {
        PrefixTextInjective(p, q);
      }
    }
    SortedUnique(PREFIX_KEY, x, y);
  }
}
