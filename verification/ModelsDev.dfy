/** Choosing one models.dev price per model (controller/ratio_sync.go): a left fold over the
    providers in name order, with a comparison that is not transitive. Prices are reals. */
module ModelsDev {
  import opened Common
  import opened Lists

  datatype Cost = Cost(input: Option<real>, output: Option<real>, cacheRead: Option<real>)

  datatype Candidate = Candidate(provider: string, input: real, output: Option<real>, cacheRead: Option<real>)

  /** Provider name to model name to cost. */
  type Catalog = map<string, map<string, Cost>>

  function BuildCandidate(provider: string, cost: Cost): Option<Candidate> {
    if cost.input.None? || cost.input.value < 0.0 then None
    else if cost.output.Some? && cost.output.value < 0.0 then None
    else if cost.input.value == 0.0 && cost.output.Some? && cost.output.value > 0.0 then None
    else
      var cacheRead := if cost.cacheRead.Some? && cost.cacheRead.value >= 0.0 then cost.cacheRead else None;
      Some(Candidate(provider, cost.input.value, cost.output, cacheRead))
  }

  /** Go's string comparison. */
  predicate Less(a: string, b: string) {
    b != "" && (a == "" || a[0] < b[0] || (a[0] == b[0] && Less(a[1..], b[1..])))
  }

  predicate ShouldReplace(current: Candidate, next: Candidate) {
    if (current.input > 0.0) != (next.input > 0.0) then next.input > 0.0
    else if next.input > 0.0 && !NearlyEqual(next.input, current.input) then next.input < current.input
    else Less(next.provider, current.provider)
  }

  /** The selection fold over the valid candidates of one model, in visiting order. */
  function Pick(cands: seq<Candidate>): Option<Candidate> {
    if cands == [] then None
    else
      var best, next := Pick(cands[..|cands| - 1]), cands[|cands| - 1];
      if best.None? || ShouldReplace(best.value, next) then Some(next) else best
  }

  // ----- the order of names -----

  lemma {:induction false} LessTotal(a: string, b: string)
    ensures !Less(a, a)
    ensures a == b || Less(a, b) || Less(b, a)
    ensures !(Less(a, b) && Less(b, a))
  {
    if a != "" {
      LessTotal(a[1..], a[1..]);
      if b != "" {
        LessTotal(a[1..], b[1..]);
        if a[0] == b[0] && a[1..] == b[1..] {
          assert a == [a[0]] + a[1..] && b == [b[0]] + b[1..];
        }
      }
    }
  }

  lemma {:induction false} LessTransitive(a: string, b: string, c: string)
    requires Less(a, b) && Less(b, c)
    ensures Less(a, c)
  {
    if a != "" && a[0] == b[0] == c[0] { LessTransitive(a[1..], b[1..], c[1..]); }
  }

  predicate Ascending(names: seq<string>) {
    forall i, j :: 0 <= i < j < |names| ==> Less(names[i], names[j])
  }

  /** sort.Strings. */
  function Sorted(names: seq<string>): seq<string> {
    Sort(names, Less)
  }

  lemma LessIsOrder()
    ensures StrictOrder(Less)
  {
    forall a, b ensures Less(a, b) || Less(b, a) || a == b { LessTotal(a, b); }
    forall a, b, c | Less(a, b) && Less(b, c) ensures Less(a, c) { LessTransitive(a, b, c); }
  }

  lemma SortedAscending(names: seq<string>)
    requires NoDup(names)
    ensures Ascending(Sorted(names)) && forall n :: n in Sorted(names) <==> n in names
  {
    LessIsOrder();
    SortAscends(names, Less);
  }

  /** There is only one ascending list of a set of names. */
  lemma {:induction false} AscendingUnique(a: seq<string>, b: seq<string>)
    requires Ascending(a) && Ascending(b) && forall n :: n in a <==> n in b
    ensures a == b
  {
    if a == [] {
      if b != [] { SomeMember(b); }
    } else {
      assert a[0] in b;
      assert b[0] in a;
      var i :| 0 <= i < |b| && b[i] == a[0];
      var j :| 0 <= j < |a| && a[j] == b[0];
      LessTotal(a[0], b[0]);
      assert a[0] == b[0];
      TailMembers(a);
      TailMembers(b);
      AscendingUnique(a[1..], b[1..]);
      assert a == [a[0]] + a[1..] && b == [b[0]] + b[1..];
    }
  }

  lemma TailMembers(a: seq<string>)
    requires a != [] && Ascending(a)
    ensures Ascending(a[1..]) && forall n :: n in a[1..] <==> n in a && n != a[0]
  {
    forall n | n in a[1..] ensures n in a && n != a[0] {
      var k :| 1 <= k < |a| && a[k] == n;
      LessTotal(a[0], n);
    }
  }

  // ----- what the fold picks -----

  predicate ByProvider(cands: seq<Candidate>) {
    forall i, j :: 0 <= i < j < |cands| ==> Less(cands[i].provider, cands[j].provider)
  }

  lemma {:induction false} PickMember(cands: seq<Candidate>)
    ensures Pick(cands).Some? <==> cands != []
    ensures Pick(cands).Some? ==> Pick(cands).value in cands
  {
    if cands != [] { PickMember(cands[..|cands| - 1]); }
  }

  /** A later provider replaces the pick only by a cheaper price, or by the first non-zero one. */
  lemma CheaperStep(best: Candidate, next: Candidate, c: Candidate)
    requires !Less(next.provider, best.provider) && best.input >= 0.0 && next.input >= 0.0
    requires c.input > 0.0 ==> best.input > 0.0 && best.input - c.input < EPSILON
    ensures var p := if ShouldReplace(best, next) then next else best;
            (c.input > 0.0 ==> p.input > 0.0 && p.input - c.input < EPSILON)
            && (next.input > 0.0 ==> p.input > 0.0 && p.input - next.input < EPSILON)
  {
  }

  /** Non-zero whenever some candidate is, and then no EPSILON or more above a non-zero price. */
  predicate Cheapest(best: Candidate, cands: seq<Candidate>) {
    forall c :: c in cands && c.input > 0.0 ==> best.input > 0.0 && best.input - c.input < EPSILON
  }

  lemma CheapestStep(best: Candidate, next: Candidate, front: seq<Candidate>)
    requires !Less(next.provider, best.provider) && best.input >= 0.0 && next.input >= 0.0 && Cheapest(best, front)
    ensures Cheapest(if ShouldReplace(best, next) then next else best, front + [next])
  {
    forall c | c in front + [next] && c.input > 0.0
      ensures var p := if ShouldReplace(best, next) then next else best; p.input > 0.0 && p.input - c.input < EPSILON
    {
      CheaperStep(best, next, if c in front then c else Candidate("", 0.0, None, None));
    }
  }

  /** What is picked before a candidate comes from an earlier provider. */
  lemma PickIsEarlier(front: seq<Candidate>, next: Candidate)
    requires ByProvider(front + [next]) && front != []
    ensures Pick(front).Some? && Pick(front).value in front && !Less(next.provider, Pick(front).value.provider)
  {
    PickMember(front);
    var best := Pick(front).value;
    var k :| 0 <= k < |front| && front[k] == best;
    assert (front + [next])[k] == best && (front + [next])[|front|] == next;
    LessTotal(best.provider, next.provider);
  }

  /** In provider order the pick is non-zero whenever some candidate is, and then exceeds no
      non-zero price by EPSILON or more; otherwise it is the first candidate. */
  lemma {:induction false} PickIsCheapest(cands: seq<Candidate>)
    requires ByProvider(cands) && cands != [] && forall c :: c in cands ==> c.input >= 0.0
    ensures Pick(cands).Some? && Cheapest(Pick(cands).value, cands)
    ensures (forall c :: c in cands ==> c.input == 0.0) ==> Pick(cands).value == cands[0]
  {
    var front, next := cands[..|cands| - 1], cands[|cands| - 1];
    assert cands == front + [next];
    if front == [] {
      assert Pick(front).None?;
    } else {
      assert ByProvider(front) && forall c :: c in front ==> c in cands;
      PickIsCheapest(front);
      PickIsEarlier(front, next);
      CheapestStep(Pick(front).value, next, front);
    }
  }

  /** Out of provider order ties can chain upwards: here the pick is 1.2 EPSILON too dear. */
  lemma UnsortedPickDrifts()
    ensures var low := Candidate("c", 1.0, None, None);
            var mid := Candidate("b", 1.0000000006, None, None);
            var high := Candidate("a", 1.0000000012, None, None);
            Pick([low, mid, high]) == Some(high) && high.input - low.input >= EPSILON
  {
    var low := Candidate("c", 1.0, None, None);
    var mid := Candidate("b", 1.0000000006, None, None);
    var high := Candidate("a", 1.0000000012, None, None);
    assert [low, mid, high][..2] == [low, mid] && [low, mid][..1] == [low] && [low][..0] == [];
    assert Less("b", "c") && Less("a", "b");
    assert Pick([low]) == Some(low);
    assert Pick([low, mid]) == Some(mid);
  }

  // ----- the two nested loops -----

  function CandidateOf(catalog: Catalog, provider: string, model: string): Option<Candidate> {
    if provider in catalog && model in catalog[provider] then BuildCandidate(provider, catalog[provider][model]) else None
  }

  /** The valid candidates of a model, in provider order. */
  function CandidatesOf(catalog: Catalog, providers: seq<string>, model: string): seq<Candidate> {
    if providers == [] then []
    else
      var c := CandidateOf(catalog, providers[|providers| - 1], model);
      CandidatesOf(catalog, providers[..|providers| - 1], model) + if c.Some? then [c.value] else []
  }

  predicate NoCandidates(catalog: Catalog, providers: seq<string>, m: string) {
    CandidatesOf(catalog, providers, m) == []
  }

  function Slot(selected: map<string, Candidate>, m: string): Option<Candidate> {
    if m in selected then Some(selected[m]) else None
  }

  /** How one more offer moves the pick. */
  function Advance(best: Option<Candidate>, next: Option<Candidate>): Option<Candidate> {
    if next.Some? && (best.None? || ShouldReplace(best.value, next.value)) then next else best
  }

  /** A selection agrees with the fold for every model. */
  ghost predicate Selects(selected: map<string, Candidate>, catalog: Catalog, providers: seq<string>) {
    forall m :: Slot(selected, m) == Pick(CandidatesOf(catalog, providers, m))
  }

  lemma PickAdvances(catalog: Catalog, before: seq<string>, provider: string, m: string)
    ensures Pick(CandidatesOf(catalog, before + [provider], m))
         == Advance(Pick(CandidatesOf(catalog, before, m)), CandidateOf(catalog, provider, m))
  {
    assert (before + [provider])[..|before|] == before;
    var cands, c := CandidatesOf(catalog, before, m), CandidateOf(catalog, provider, m);
    if c.Some? {
      assert (cands + [c.value])[..|cands|] == cands;
    } else {
      assert cands + [] == cands;
    }
  }

  /** Collecting the map keys in any order and sorting them gives the one ascending list. */
  method SortedProviders(catalog: Catalog, ghost ordered: seq<string>) returns (providers: seq<string>)
    requires Ascending(ordered) && forall p :: p in ordered <==> p in catalog
    ensures providers == ordered
  {
    var unsorted := Listed(catalog.Keys);
    providers := Sorted(unsorted);
    SortedAscending(unsorted);
    AscendingUnique(providers, ordered);
  }

  /** The selection of convertModelsDevToRatioData. Whatever order the maps are walked in, the
      result is the fold over the providers in name order; None is the empty-response or
      no-valid-price error. */
  method SelectCandidates(catalog: Catalog, ghost ordered: seq<string>) returns (result: Option<map<string, Candidate>>)
    requires Ascending(ordered) && forall p :: p in ordered <==> p in catalog
    ensures result.None? <==> forall m :: !Offered(catalog, m)
    ensures result.Some? ==> Selects(result.value, catalog, ordered)
  {
    var providers := SortedProviders(catalog, ordered);
    var selected: map<string, Candidate> := map[];
    for i := 0 to |providers|
      invariant Selects(selected, catalog, providers[..i])
    {
      assert providers[i] in providers;
      ghost var was := selected;
      selected := SelectFrom(catalog, providers[i], selected);
      SelectsOneMore(was, selected, catalog, providers[..i], providers[i]);
      assert providers[..i + 1] == providers[..i] + [providers[i]];
    }
    assert providers[..|providers|] == ordered;
    NothingSelected(selected, catalog, ordered);
    NoneCounts(catalog, ordered, selected);
    if |selected| == 0 { return None; }
    return Some(selected);
  }

  lemma SelectsOneMore(was: map<string, Candidate>, now: map<string, Candidate>, catalog: Catalog,
                       before: seq<string>, provider: string)
    requires Selects(was, catalog, before)
    requires forall m :: Slot(now, m) == Advance(Slot(was, m), CandidateOf(catalog, provider, m))
    ensures Selects(now, catalog, before + [provider])
  {
    forall m ensures Slot(now, m) == Pick(CandidatesOf(catalog, before + [provider], m)) {
      PickAdvances(catalog, before, provider, m);
      assert Slot(was, m) == Pick(CandidatesOf(catalog, before, m));
    }
  }

  lemma NoneCounts(catalog: Catalog, ordered: seq<string>, selected: map<string, Candidate>)
    requires Ascending(ordered) && (forall p :: p in ordered <==> p in catalog) && Selects(selected, catalog, ordered)
    ensures (forall m :: NoCandidates(catalog, ordered, m)) <==> forall m :: !Offered(catalog, m)
  {
    if forall m :: NoCandidates(catalog, ordered, m) {
      forall m ensures !Offered(catalog, m) { OfferedExactly(catalog, ordered, selected, m); }
    }
    if forall m :: !Offered(catalog, m) {
      forall m ensures NoCandidates(catalog, ordered, m) { OfferedExactly(catalog, ordered, selected, m); }
    }
  }

  lemma OfferedExactly(catalog: Catalog, ordered: seq<string>, selected: map<string, Candidate>, m: string)
    requires Ascending(ordered) && (forall p :: p in ordered <==> p in catalog) && Selects(selected, catalog, ordered)
    ensures NoCandidates(catalog, ordered, m) <==> !Offered(catalog, m)
  {
    SelectionOverCatalog(catalog, ordered, selected, m);
    assert Slot(selected, m) == Pick(CandidatesOf(catalog, ordered, m));
    PickMember(CandidatesOf(catalog, ordered, m));
  }

  lemma NothingSelected(selected: map<string, Candidate>, catalog: Catalog, providers: seq<string>)
    requires Selects(selected, catalog, providers)
    ensures |selected| == 0 <==> forall m :: NoCandidates(catalog, providers, m)
  {
    forall m ensures m in selected <==> CandidatesOf(catalog, providers, m) != [] {
      assert Slot(selected, m) == Pick(CandidatesOf(catalog, providers, m));
      PickMember(CandidatesOf(catalog, providers, m));
    }
    if |selected| == 0 {
      assert selected.Keys == {};
      forall m ensures NoCandidates(catalog, providers, m) { assert m !in selected.Keys; }
    } else {
      assert |selected.Keys| == |selected|;
      var m :| m in selected.Keys;
      assert !NoCandidates(catalog, providers, m);
    }
  }

  /** One provider's models, in any order: each model's pick moves by one offer. */
  method SelectFrom(catalog: Catalog, provider: string, start: map<string, Candidate>) returns (selected: map<string, Candidate>)
    requires provider in catalog
    ensures forall m :: Slot(selected, m) == Advance(Slot(start, m), CandidateOf(catalog, provider, m))
  {
    selected := start;
    var names := Listed(catalog[provider].Keys);
    for i := 0 to |names|
      invariant forall m :: Slot(selected, m) ==
                  if m in names[..i] then Advance(Slot(start, m), CandidateOf(catalog, provider, m)) else Slot(start, m)
    {
      var m := names[i];
      assert m !in names[..i] && names[..i + 1] == names[..i] + [m];
      assert Slot(selected, m) == Slot(start, m);
      var candidate := BuildCandidate(provider, catalog[provider][m]);
      if candidate.Some? && (m !in selected || ShouldReplace(selected[m], candidate.value)) {
        selected := selected[m := candidate.value];
      }
    }
    assert names[..|names|] == names;
  }

  // ----- what the selected prices mean -----

  lemma {:induction false} CandidatesFacts(catalog: Catalog, providers: seq<string>, model: string)
    requires Ascending(providers)
    ensures ByProvider(CandidatesOf(catalog, providers, model))
    ensures forall c :: c in CandidatesOf(catalog, providers, model) ==>
              c.input >= 0.0 && c.provider in providers && CandidateOf(catalog, c.provider, model) == Some(c)
    ensures forall p :: p in providers && CandidateOf(catalog, p, model).Some? ==>
              CandidateOf(catalog, p, model).value in CandidatesOf(catalog, providers, model)
  {
    if providers != [] {
      var front, last := providers[..|providers| - 1], providers[|providers| - 1];
      CandidatesFacts(catalog, front, model);
      assert providers == front + [last];
      assert forall p :: p in providers ==> p in front || p == last;
      EarlierProviders(CandidatesOf(catalog, front, model), front, last);
    }
  }

  lemma EarlierProviders(cands: seq<Candidate>, front: seq<string>, last: string)
    requires Ascending(front + [last]) && forall c :: c in cands ==> c.provider in front
    ensures forall i :: 0 <= i < |cands| ==> Less(cands[i].provider, last)
  {
    forall i | 0 <= i < |cands| ensures Less(cands[i].provider, last) {
      assert cands[i] in cands;
      var k :| 0 <= k < |front| && front[k] == cands[i].provider;
      assert (front + [last])[k] == front[k] && (front + [last])[|front|] == last;
    }
  }

  /** An offer counts: its input price is given and not negative, its output price is not negative,
      and it is not free to read but priced to write. */
  predicate Counts(catalog: Catalog, provider: string, m: string) {
    provider in catalog && m in catalog[provider]
    && var cost := catalog[provider][m];
       cost.input.Some? && cost.input.value >= 0.0 && (cost.output.Some? ==> cost.output.value >= 0.0)
       && !(cost.input.value == 0.0 && cost.output.Some? && cost.output.value > 0.0)
  }

  ghost predicate Offered(catalog: Catalog, m: string) {
    exists p :: Counts(catalog, p, m)
  }

  /** The candidate carries the prices of the catalog: input and output as given, and the cache price
      unless it is negative. */
  predicate Carries(c: Candidate, cost: Cost) {
    cost.input == Some(c.input) && c.output == cost.output
    && (if cost.cacheRead.Some? && cost.cacheRead.value >= 0.0 then c.cacheRead == cost.cacheRead else c.cacheRead.None?)
  }

  lemma CandidateCarries(catalog: Catalog, provider: string, m: string)
    ensures CandidateOf(catalog, provider, m).Some? <==> Counts(catalog, provider, m)
    ensures Counts(catalog, provider, m) ==>
              CandidateOf(catalog, provider, m).value.provider == provider
              && Carries(CandidateOf(catalog, provider, m).value, catalog[provider][m])
  {
  }

  /** The selection over the catalog itself: a model is selected exactly when some offer for it
      counts; it carries the prices of the provider it names, whose offer counts; and its input
      price is non-zero and less than EPSILON above every counting non-zero input price. */
  lemma SelectionOverCatalog(catalog: Catalog, ordered: seq<string>, selected: map<string, Candidate>, m: string)
    requires Ascending(ordered) && (forall p :: p in ordered <==> p in catalog) && Selects(selected, catalog, ordered)
    ensures m in selected <==> Offered(catalog, m)
    ensures m in selected ==>
              Counts(catalog, selected[m].provider, m) && Carries(selected[m], catalog[selected[m].provider][m])
    ensures m in selected ==>
              forall p :: Counts(catalog, p, m) && catalog[p][m].input.value > 0.0 ==>
                0.0 < selected[m].input < catalog[p][m].input.value + 0.000000001
  {
    var cands := CandidatesOf(catalog, ordered, m);
    CandidatesFacts(catalog, ordered, m);
    PickMember(cands);
    assert Slot(selected, m) == Pick(cands);
    forall p | Counts(catalog, p, m)
      ensures m in selected
      ensures catalog[p][m].input.value > 0.0 ==> 0.0 < selected[m].input < catalog[p][m].input.value + 0.000000001
    {
      CandidateCarries(catalog, p, m);
      SelectedIsCheapest(catalog, ordered, selected, m, p);
    }
    if m in selected {
      assert selected[m] in cands;
      CandidateCarries(catalog, selected[m].provider, m);
    }
  }

  /** Prices that tie pairwise go to the first provider. */
  lemma {:induction false} TiesGoToFirst(cands: seq<Candidate>)
    requires ByProvider(cands) && cands != []
    requires forall c, d :: c in cands && d in cands ==> c.input > 0.0 && c.input - d.input < 0.000000001
    ensures Pick(cands) == Some(cands[0])
  {
    var front, next := cands[..|cands| - 1], cands[|cands| - 1];
    assert cands == front + [next];
    if front == [] {
      assert Pick(front).None?;
    } else {
      assert ByProvider(front) && forall c :: c in front ==> c in cands;
      TiesGoToFirst(front);
      PickIsEarlier(front, next);
      assert cands[0] in cands && next in cands;
    }
  }

  /** The selected price of a model is non-zero whenever a valid offer is, and exceeds no valid
      non-zero offer by EPSILON or more. */
  lemma SelectedIsCheapest(catalog: Catalog, ordered: seq<string>, selected: map<string, Candidate>, m: string, provider: string)
    requires Ascending(ordered) && Selects(selected, catalog, ordered)
    requires provider in ordered && CandidateOf(catalog, provider, m).Some?
    ensures m in selected
    ensures var offer := CandidateOf(catalog, provider, m).value;
            offer.input > 0.0 ==> 0.0 < selected[m].input && selected[m].input - offer.input < EPSILON
    ensures selected[m].provider in ordered && CandidateOf(catalog, selected[m].provider, m) == Some(selected[m])
  {
    var cands := CandidatesOf(catalog, ordered, m);
    CandidatesFacts(catalog, ordered, m);
    assert Slot(selected, m) == Pick(cands);
    PickIsCheapest(cands);
    PickMember(cands);
  }
}
