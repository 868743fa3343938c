/** Batched model enrichment (enrichModels in controller/model_meta.go): one pass over the pricing
    list and two batched channel queries, against looking every model up by itself. */
module ModelEnrich {
  import opened Lists

  datatype Channel = Channel(name: string, kind: int)

  datatype Pricing = Pricing(modelName: string, endpoints: seq<string>, groups: seq<string>, quotaType: int)

  datatype Rule = Exact | Prefix | Contains | Suffix | OtherRule

  /** What the caches and the database answer, by model name; marshal is JSON encoding. */
  datatype World = World(pricings: seq<Pricing>, bound: string -> seq<Channel>, endpointsOf: string -> seq<string>,
                         groupsOf: string -> seq<string>, quotaTypesOf: string -> seq<int>,
                         marshal: seq<string> -> string)

  /** The fields of a model that enrichment reads or fills. */
  datatype Info = Info(name: string, rule: Rule, endpoints: string, channels: seq<Channel>, groups: seq<string>,
                       quotaTypes: seq<int>, matched: seq<string>, matchedCount: int)

  predicate HasPrefix(s: string, p: string) {
    p <= s
  }

  predicate HasSuffix(s: string, p: string) {
    |p| <= |s| && s[|s| - |p|..] == p
  }

  predicate HasInfix(s: string, p: string) {
    exists i :: 0 <= i <= |s| - |p| && FoundAt(s, p, i)
  }

  predicate FoundAt(s: string, p: string, i: int)
    requires 0 <= i <= |s| - |p|
  {
    s[i..i + |p|] == p
  }

  predicate Matches(rule: Rule, name: string, candidate: string) {
    match rule
    case Prefix => HasPrefix(candidate, name)
    case Suffix => HasSuffix(candidate, name)
    case Contains => HasInfix(candidate, name)
    case _ => false
  }

  /** What a rule matches, letter by letter: a prefix rule the names that go on after the rule's, a
      suffix rule those that end with it, a contains rule those around it, any other rule none. */
  lemma RuleMeaning(name: string, candidate: string)
    ensures Matches(Prefix, name, candidate) <==> exists rest :: candidate == name + rest
    ensures Matches(Suffix, name, candidate) <==> exists front :: candidate == front + name
    ensures Matches(Contains, name, candidate) <==> exists front, rest :: candidate == front + name + rest
    ensures !Matches(Exact, name, candidate) && !Matches(OtherRule, name, candidate)
  {
    PrefixMeaning(candidate, name);
    SuffixMeaning(candidate, name);
    InfixMeaning(candidate, name);
  }

  lemma PrefixMeaning(s: string, p: string)
    ensures HasPrefix(s, p) <==> exists rest :: s == p + rest
  {
    if HasPrefix(s, p) { assert s == p + s[|p|..]; }
  }

  lemma SuffixMeaning(s: string, p: string)
    ensures HasSuffix(s, p) <==> exists front :: s == front + p
  {
    if HasSuffix(s, p) { assert s == s[..|s| - |p|] + p; }
  }

  lemma InfixMeaning(s: string, p: string)
    ensures HasInfix(s, p) <==> exists front, rest :: s == front + p + rest
  {
    if HasInfix(s, p) {
      var i :| 0 <= i <= |s| - |p| && FoundAt(s, p, i);
      assert s == s[..i] + p + s[i + |p|..];
    }
    if exists front, rest :: s == front + p + rest {
      var front, rest :| s == front + p + rest;
      assert FoundAt(s, p, |front|);
    }
  }

  // ----- looking one model up by itself -----

  function NamesOf(pricings: seq<Pricing>): seq<string> {
    seq(|pricings|, i requires 0 <= i < |pricings| => pricings[i].modelName)
  }

  /** The names a rule matches, in pricing order. */
  function MatchedNames(rule: Rule, name: string, pricings: seq<Pricing>): seq<string> {
    NamesOf(Filter(pricings, (p: Pricing) => Matches(rule, name, p.modelName)))
  }

  ghost function MatchedGroups(rule: Rule, name: string, pricings: seq<Pricing>): set<string> {
    set p, g | p in pricings && Matches(rule, name, p.modelName) && g in p.groups :: g
  }

  ghost function MatchedEndpoints(rule: Rule, name: string, pricings: seq<Pricing>): set<string> {
    set p, e | p in pricings && Matches(rule, name, p.modelName) && e in p.endpoints :: e
  }

  ghost function MatchedQuotaTypes(rule: Rule, name: string, pricings: seq<Pricing>): set<int> {
    set p | p in pricings && Matches(rule, name, p.modelName) :: p.quotaType
  }

  ghost function BoundTo(w: World, names: seq<string>): set<Channel> {
    set n, ch | n in names && ch in w.bound(n) :: ch
  }

  predicate Increasing(xs: seq<int>) {
    forall i, j :: 0 <= i < j < |xs| ==> xs[i] < xs[j]
  }

  function EnrichedExact(m: Info, w: World): Info {
    m.(endpoints := if m.endpoints == "" then w.marshal(w.endpointsOf(m.name)) else m.endpoints,
       channels := w.bound(m.name), groups := w.groupsOf(m.name), quotaTypes := w.quotaTypesOf(m.name))
  }

  /** The endpoints column lists the union of the matched endpoint types, unless it was set. */
  ghost predicate EndpointsFilled(before: string, after: string, w: World, union: set<string>) {
    if before == "" then exists eps :: Enumerates(eps, union) && after == w.marshal(eps) else after == before
  }

  ghost predicate EnrichedRule(before: Info, after: Info, w: World) {
    var names := MatchedNames(before.rule, before.name, w.pricings);
    var bound := BoundTo(w, names);
    after.name == before.name && after.rule == before.rule && after.matched == names && after.matchedCount == |names|
    && (if bound == {} then after.channels == before.channels else Enumerates(after.channels, bound))
    && (if names == [] then after.endpoints == before.endpoints && after.groups == before.groups
                            && after.quotaTypes == before.quotaTypes
        else EndpointsFilled(before.endpoints, after.endpoints, w, MatchedEndpoints(before.rule, before.name, w.pricings))
             && Enumerates(after.groups, MatchedGroups(before.rule, before.name, w.pricings))
             && Enumerates(after.quotaTypes, MatchedQuotaTypes(before.rule, before.name, w.pricings))
             && Increasing(after.quotaTypes))
  }

  ghost predicate Enriched(before: Info, after: Info, w: World) {
    if before.rule.Exact? then after == EnrichedExact(before, w) else EnrichedRule(before, after, w)
  }

  // ----- the dedup key -----

  function Digit(d: int): char
    requires 0 <= d < 10
  {
    ['0', '1', '2', '3', '4', '5', '6', '7', '8', '9'][d]
  }

  function Digits(n: nat): (s: string)
    ensures |s| > 0
  {
    (if n < 10 then [] else Digits(n / 10)) + [Digit(n % 10)]
  }

  /** strconv.Itoa. */
  function Itoa(n: int): string {
    if n < 0 then "-" + Digits(-n) else Digits(n)
  }

  function Key(ch: Channel): string {
    ch.name + "_" + Itoa(ch.kind)
  }

  predicate AllDigits(s: string) {
    forall i :: 0 <= i < |s| ==> '0' <= s[i] <= '9'
  }

  lemma {:induction false} DigitsAreDigits(n: nat)
    ensures AllDigits(Digits(n))
  {
    if n >= 10 { DigitsAreDigits(n / 10); }
  }

  lemma DigitInjective(d: int, e: int)
    requires 0 <= d < 10 && 0 <= e < 10 && Digit(d) == Digit(e)
    ensures d == e
  {
  }

  /** The digits before the last one, and the last one. */
  lemma DigitsSplit(n: nat)
    ensures var s := Digits(n);
            s[|s| - 1] == Digit(n % 10) && s[..|s| - 1] == (if n < 10 then [] else Digits(n / 10)) && (|s| == 1 <==> n < 10)
  {
  }

  lemma {:induction false} DigitsInjective(a: nat, b: nat)
    requires Digits(a) == Digits(b)
    ensures a == b
  {
    DigitsSplit(a);
    DigitsSplit(b);
    DigitInjective(a % 10, b % 10);
    if a >= 10 { DigitsInjective(a / 10, b / 10); }
  }

  lemma ItoaSign(n: int)
    ensures var s := Itoa(n);
            s != "" && (s[0] == '-' <==> n < 0) && (if n < 0 then s[1..] == Digits(-n) else s == Digits(n))
  {
    DigitsAreDigits(if n < 0 then -n else n);
  }

  lemma ItoaInjective(a: int, b: int)
    requires Itoa(a) == Itoa(b)
    ensures a == b
  {
    ItoaSign(a);
    ItoaSign(b);
    if a < 0 {
      DigitsInjective(-a, -b);
    } else {
      DigitsInjective(a, b);
    }
  }

  lemma ItoaHasNoUnderscore(n: int)
    ensures '_' !in Itoa(n)
  {
    DigitsAreDigits(if n < 0 then -n else n);
  }

  /** The text after the last separator of a key is the channel type, so keys never collide. */
  lemma KeyInjective(a: Channel, b: Channel)
    requires Key(a) == Key(b)
    ensures a == b
  {
    ItoaHasNoUnderscore(a.kind);
    ItoaHasNoUnderscore(b.kind);
    SplitAtLast(a.name, Itoa(a.kind), b.name, Itoa(b.kind));
    ItoaInjective(a.kind, b.kind);
  }

  lemma SplitAtLast(x: string, s: string, y: string, t: string)
    requires x + "_" + s == y + "_" + t && '_' !in s && '_' !in t
    ensures x == y && s == t
  {
    var k := x + "_" + s;
    assert k[|x|] == '_' && k[|y|] == '_';
    assert forall j :: |x| < j < |k| ==> k[j] == s[j - |x| - 1];
    assert forall j :: |y| < j < |k| ==> k[j] == t[j - |y| - 1];
    assert |x| == |y|;
    assert k[..|x|] == x && k[..|y|] == y && k[|x| + 1..] == s && k[|y| + 1..] == t;
  }

  // ----- sorted quota types -----

  predicate LessInt(a: int, b: int) {
    a < b
  }

  /** sort.Ints. */
  function SortInts(xs: seq<int>): seq<int> {
    Sort(xs, LessInt)
  }

  lemma SortIntsFacts(xs: seq<int>)
    requires NoDup(xs)
    ensures Increasing(SortInts(xs)) && forall x :: x in SortInts(xs) <==> x in xs
  {
    SortAscends(xs, LessInt);
  }

  // ----- one pass over the pricing list for all rule models -----

  datatype Found = Found(names: seq<string>, endpoints: set<string>, groups: set<string>, quotaTypes: set<int>)

  const NOTHING := Found([], {}, {}, {})

  function AddPricing(f: Found, p: Pricing): Found {
    Found(f.names + [p.modelName], f.endpoints + (set e | e in p.endpoints), f.groups + (set g | g in p.groups),
          f.quotaTypes + {p.quotaType})
  }

  ghost predicate Gathers(f: Found, rule: Rule, name: string, pricings: seq<Pricing>) {
    f.names == MatchedNames(rule, name, pricings) && f.endpoints == MatchedEndpoints(rule, name, pricings)
    && f.groups == MatchedGroups(rule, name, pricings) && f.quotaTypes == MatchedQuotaTypes(rule, name, pricings)
  }

  lemma GathersOneMore(f: Found, rule: Rule, name: string, before: seq<Pricing>, p: Pricing)
    requires Gathers(f, rule, name, before)
    ensures Gathers(if Matches(rule, name, p.modelName) then AddPricing(f, p) else f, rule, name, before + [p])
  {
    var matches := (p: Pricing) => Matches(rule, name, p.modelName);
    FilterAppend(before, [p], matches);
    assert NamesOf(Filter(before, matches) + [p]) == NamesOf(Filter(before, matches)) + [p.modelName];
    assert forall q :: q in before + [p] <==> q in before || q == p;
  }

  method GatherAll(rules: seq<(Rule, string)>, pricings: seq<Pricing>) returns (found: seq<Found>)
    ensures |found| == |rules| && forall j :: 0 <= j < |rules| ==> Gathers(found[j], rules[j].0, rules[j].1, pricings)
  {
    found := seq(|rules|, _ => NOTHING);
    for k := 0 to |pricings|
      invariant |found| == |rules| && forall j :: 0 <= j < |rules| ==> Gathers(found[j], rules[j].0, rules[j].1, pricings[..k])
    {
      found := AddToAll(rules, found, pricings[..k], pricings[k]);
      assert pricings[..k + 1] == pricings[..k] + [pricings[k]];
    }
    assert pricings[..|pricings|] == pricings;
  }

  method AddToAll(rules: seq<(Rule, string)>, found: seq<Found>, ghost before: seq<Pricing>, p: Pricing) returns (r: seq<Found>)
    requires |found| == |rules| && forall j :: 0 <= j < |rules| ==> Gathers(found[j], rules[j].0, rules[j].1, before)
    ensures |r| == |rules| && forall j :: 0 <= j < |rules| ==> Gathers(r[j], rules[j].0, rules[j].1, before + [p])
  {
    r := found;
    for i := 0 to |rules|
      invariant |r| == |rules|
      invariant forall j :: i <= j < |rules| ==> r[j] == found[j]
      invariant forall j :: 0 <= j < i ==> Gathers(r[j], rules[j].0, rules[j].1, before + [p])
    {
      GathersOneMore(found[i], rules[i].0, rules[i].1, before, p);
      if Matches(rules[i].0, rules[i].1, p.modelName) {
        r := r[i := AddPricing(r[i], p)];
      }
    }
  }

  // ----- channels of the matched names -----

  /** GetBoundChannelsByModelsMap: names without a channel have no entry. */
  function Batch(w: World, names: set<string>): map<string, seq<Channel>> {
    map n | n in names && w.bound(n) != [] :: w.bound(n)
  }

  function ChannelsIn(batch: map<string, seq<Channel>>, n: string): seq<Channel> {
    if n in batch then batch[n] else []
  }

  /** The channels kept so far are filed under their own keys, and nothing seen is missing. */
  ghost predicate Filed(channelSet: map<string, Channel>, seen: set<Channel>) {
    (forall k :: k in channelSet ==> Key(channelSet[k]) == k && channelSet[k] in seen)
    && forall ch :: ch in seen ==> Key(ch) in channelSet && channelSet[Key(ch)] == ch
  }

  lemma FileOne(channelSet: map<string, Channel>, seen: set<Channel>, ch: Channel)
    requires Filed(channelSet, seen)
    ensures Filed(channelSet[Key(ch) := ch], seen + {ch})
  {
    forall c | c in seen ensures channelSet[Key(ch) := ch][Key(c)] == c {
      if Key(c) == Key(ch) { KeyInjective(c, ch); }
    }
  }

  function Members(chs: seq<Channel>): set<Channel> {
    set ch | ch in chs
  }

  lemma MembersGrow(chs: seq<Channel>, i: nat)
    requires i < |chs|
    ensures Members(chs[..i + 1]) == Members(chs[..i]) + {chs[i]}
  {
    assert chs[..i + 1] == chs[..i] + [chs[i]];
  }

  method FileAll(start: map<string, Channel>, ghost seen: set<Channel>, chs: seq<Channel>) returns (r: map<string, Channel>)
    requires Filed(start, seen)
    ensures Filed(r, seen + Members(chs))
  {
    r := start;
    assert seen + Members(chs[..0]) == seen;
    for i := 0 to |chs|
      invariant Filed(r, seen + Members(chs[..i]))
    {
      ghost var before := seen + Members(chs[..i]);
      FileOne(r, before, chs[i]);
      r := r[Key(chs[i]) := chs[i]];
      MembersGrow(chs, i);
      assert before + {chs[i]} == seen + Members(chs[..i + 1]);
    }
    assert chs[..|chs|] == chs;
  }

  /** The union of the channels of all names, each once. */
  method CollectChannels(w: World, names: seq<string>, batch: map<string, seq<Channel>>) returns (chs: seq<Channel>)
    requires forall n :: n in names ==> ChannelsIn(batch, n) == w.bound(n)
    ensures Enumerates(chs, BoundTo(w, names))
  {
    var channelSet: map<string, Channel> := map[];
    for i := 0 to |names|
      invariant Filed(channelSet, BoundTo(w, names[..i]))
    {
      channelSet := FileAll(channelSet, BoundTo(w, names[..i]), ChannelsIn(batch, names[i]));
      assert names[..i + 1] == names[..i] + [names[i]];
      assert BoundTo(w, names[..i]) + Members(w.bound(names[i])) == BoundTo(w, names[..i + 1]);
    }
    assert names[..|names|] == names;
    chs := Listed(channelSet.Values);
    forall ch ensures ch in channelSet.Values <==> ch in BoundTo(w, names) {
      if ch in BoundTo(w, names) { assert channelSet[Key(ch)] == ch; }
    }
  }

  // ----- the models -----

  class Model {
    const name: string
    const rule: Rule
    var endpoints: string
    var channels: seq<Channel>
    var groups: seq<string>
    var quotaTypes: seq<int>
    var matched: seq<string>
    var matchedCount: int

    function Now(): Info
      reads this
    {
      Info(name, rule, endpoints, channels, groups, quotaTypes, matched, matchedCount)
    }

    method FillExact(w: World, chs: seq<Channel>)
      requires chs == w.bound(name)
      modifies this
      ensures Now() == EnrichedExact(old(Now()), w)
    {
      if endpoints == "" {
        endpoints := w.marshal(w.endpointsOf(name));
      }
      channels := chs;
      groups := w.groupsOf(name);
      quotaTypes := w.quotaTypesOf(name);
    }

    method FillRule(w: World, found: Found, batch: map<string, seq<Channel>>)
      requires Gathers(found, rule, name, w.pricings)
      requires forall n :: n in found.names ==> ChannelsIn(batch, n) == w.bound(n)
      modifies this
      ensures EnrichedRule(old(Now()), Now(), w)
    {
      if found.names != [] {
        if endpoints == "" {
          var eps := Listed(found.endpoints);
          endpoints := w.marshal(eps);
        }
        groups := Listed(found.groups);
        var arr := Listed(found.quotaTypes);
        SortIntsFacts(arr);
        quotaTypes := SortInts(arr);
        IncreasingNoDup(quotaTypes);
      }
      var chs := CollectChannels(w, found.names, batch);
      if |chs| > 0 {
        assert chs[0] in BoundTo(w, found.names);
        channels := chs;
      }
      matched := found.names;
      matchedCount := |found.names|;
    }
  }

  lemma IncreasingNoDup(xs: seq<int>)
    requires Increasing(xs)
    ensures NoDup(xs)
  {
  }

  // ----- the whole batch -----

  ghost predicate Distinct(models: seq<Model?>) {
    forall i, j :: 0 <= i < j < |models| && models[i] != null ==> models[i] != models[j]
  }

  ghost function Objects(models: seq<Model?>): set<Model> {
    set i | 0 <= i < |models| && models[i] != null :: models[i]
  }

  predicate IsExact(models: seq<Model?>, i: int)
    requires 0 <= i < |models|
  {
    models[i] != null && models[i].rule.Exact?
  }

  /** The index of exact models by name is complete and correct up to n. */
  ghost predicate Indexes(exactIdx: map<string, seq<int>>, models: seq<Model?>, n: nat)
    requires n <= |models|
  {
    (forall i :: 0 <= i < n && IsExact(models, i) ==> models[i].name in exactIdx && i in exactIdx[models[i].name])
    && forall name :: name in exactIdx ==> Entry(exactIdx[name], models, n, name)
  }

  ghost predicate Entry(indices: seq<int>, models: seq<Model?>, n: nat, name: string)
    requires n <= |models|
  {
    NoDup(indices) && forall i :: i in indices ==> 0 <= i < n && IsExact(models, i) && models[i].name == name
  }

  method IndexExact(models: seq<Model?>) returns (exactIdx: map<string, seq<int>>, ruleIndices: seq<int>)
    ensures Indexes(exactIdx, models, |models|)
    ensures forall i :: i in ruleIndices <==> 0 <= i < |models| && models[i] != null && !models[i].rule.Exact?
    ensures NoDup(ruleIndices)
  {
    exactIdx, ruleIndices := map[], [];
    for i := 0 to |models|
      invariant Indexes(exactIdx, models, i) && NoDup(ruleIndices)
      invariant forall k :: k in ruleIndices <==> 0 <= k < i && models[k] != null && !models[k].rule.Exact?
    {
      var m := models[i];
      if m == null { continue; }
      if m.rule.Exact? {
        var indices := if m.name in exactIdx then exactIdx[m.name] else [];
        assert forall k :: k in indices + [i] <==> k in indices || k == i;
        NoDupAppend(indices, [i]);
        exactIdx := exactIdx[m.name := indices + [i]];
      } else {
        NoDupAppend(ruleIndices, [i]);
        ruleIndices := ruleIndices + [i];
      }
    }
  }

  /** Fills the exact models of one name. */
  method FillIndices(models: seq<Model?>, indices: seq<int>, name: string, w: World, chs: seq<Channel>)
    requires Distinct(models) && chs == w.bound(name) && NoDup(indices)
    requires forall i :: i in indices ==> 0 <= i < |models| && IsExact(models, i) && models[i].name == name
    modifies Objects(models)
    ensures forall i :: 0 <= i < |models| && models[i] != null ==>
              models[i].Now() == if i in indices then EnrichedExact(old(models[i].Now()), w) else old(models[i].Now())
  {
    for k := 0 to |indices|
      invariant forall i :: 0 <= i < |models| && models[i] != null ==>
                  models[i].Now() == if i in indices[..k] then EnrichedExact(old(models[i].Now()), w) else old(models[i].Now())
    {
      var idx := indices[k];
      assert idx in indices && idx !in indices[..k];
      assert indices[..k + 1] == indices[..k] + [idx];
      models[idx].FillExact(w, chs);
    }
    assert indices[..|indices|] == indices;
  }

  /** Steps 2 and 3: one channel query for all exact names, then every exact model, in any order. */
  method FillAllExact(models: seq<Model?>, exactIdx: map<string, seq<int>>, w: World)
    requires Distinct(models) && Indexes(exactIdx, models, |models|)
    modifies Objects(models)
    ensures forall i :: 0 <= i < |models| && models[i] != null ==>
              models[i].Now() == if IsExact(models, i) then EnrichedExact(old(models[i].Now()), w) else old(models[i].Now())
  {
    var channelsByModel := Batch(w, exactIdx.Keys);
    var todo := exactIdx.Keys;
    while todo != {}
      invariant todo <= exactIdx.Keys
      invariant forall i :: 0 <= i < |models| && models[i] != null ==>
                  models[i].Now() == if IsExact(models, i) && models[i].name !in todo
                                     then EnrichedExact(old(models[i].Now()), w) else old(models[i].Now())
      decreases todo
    {
      var name :| name in todo;
      var indices := exactIdx[name];
      assert Entry(indices, models, |models|, name);
      FillIndices(models, indices, name, w, ChannelsIn(channelsByModel, name));
      todo := todo - {name};
    }
  }

  /** Steps 4 to 6: the pricing list once, one channel query for all matched names, then every rule
      model. */
  method FillAllRules(models: seq<Model?>, ruleIndices: seq<int>, w: World)
    requires Distinct(models) && NoDup(ruleIndices)
    requires forall i :: i in ruleIndices ==> 0 <= i < |models| && models[i] != null
    modifies Objects(models)
    ensures forall i :: 0 <= i < |models| && models[i] != null ==>
              if i in ruleIndices then EnrichedRule(old(models[i].Now()), models[i].Now(), w)
              else models[i].Now() == old(models[i].Now())
  {
    if |ruleIndices| == 0 { return; }
    var rules := seq(|ruleIndices|, j requires 0 <= j < |ruleIndices| =>
                       assert ruleIndices[j] in ruleIndices;
                       var m := models[ruleIndices[j]]; (m.rule, m.name));
    var found := GatherAll(rules, w.pricings);
    var allMatched := AllNames(found);
    var batch := Batch(w, allMatched);
    for j := 0 to |ruleIndices|
      invariant forall i :: 0 <= i < |models| && models[i] != null ==>
                  if i in ruleIndices[..j] then EnrichedRule(old(models[i].Now()), models[i].Now(), w)
                  else models[i].Now() == old(models[i].Now())
    {
      var idx := ruleIndices[j];
      assert idx in ruleIndices && idx !in ruleIndices[..j];
      assert ruleIndices[..j + 1] == ruleIndices[..j] + [idx];
      assert Gathers(found[j], rules[j].0, rules[j].1, w.pricings);
      models[idx].FillRule(w, found[j], batch);
    }
    assert ruleIndices[..|ruleIndices|] == ruleIndices;
  }

  method AllNames(found: seq<Found>) returns (names: set<string>)
    ensures forall j, n :: 0 <= j < |found| && n in found[j].names ==> n in names
  {
    names := {};
    for j := 0 to |found|
      invariant forall k, n :: 0 <= k < j && n in found[k].names ==> n in names
    {
      names := names + set n | n in found[j].names;
    }
  }

  /** enrichModels: every model ends as if it had been looked up by itself. */
  method EnrichModels(models: seq<Model?>, w: World)
    requires Distinct(models)
    modifies Objects(models)
    ensures forall i :: 0 <= i < |models| && models[i] != null ==> Enriched(old(models[i].Now()), models[i].Now(), w)
  {
    var exactIdx, ruleIndices := IndexExact(models);
    FillAllExact(models, exactIdx, w);
    FillAllRules(models, ruleIndices, w);
  }
}
