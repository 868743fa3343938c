/** The pricing difference table (buildDifferences in controller/ratio_sync.go): which prices of
    the fetched channels differ from the local ones, pruned to the channels that differ at all.
    Go maps are walked in an arbitrary order. Floats are reals. */
module PriceDiff {
  import opened Common

  /** A pricing value; Null is Go's nil. */
  datatype Value = Null | Num(n: real) | Int(i: int) | Str(s: string) | Bool(b: bool)

  const SAME := Str("same")

  const NUMERIC_FIELDS: seq<string> :=
    ["model_ratio", "completion_ratio", "cache_ratio", "create_cache_ratio", "image_ratio", "audio_ratio",
     "audio_completion_ratio", "model_price"]

  const SYNC_FIELDS: seq<string> := NUMERIC_FIELDS + ["billing_mode", "billing_expr"]

  /** Field name to model name to value. */
  type Data = map<string, map<string, Value>>

  datatype Channel = Channel(name: string, data: Data)

  datatype Item = Item(current: Value, upstreams: map<string, Value>, confidence: map<string, bool>)

  /** Model name to field name to difference. */
  type Table = map<string, map<string, Item>>

  predicate ValuesEqual(a: Value, b: Value) {
    if a.Num? && b.Num? then NearlyEqual(a.n, b.n) else a == b
  }

  function AsFloat(v: Value): Option<real> {
    match v
    case Num(n) => Some(n)
    case Int(i) => Some(i as real)
    case _ => None
  }

  function NormalizeValue(field: string, v: Value): Value {
    if field in NUMERIC_FIELDS && AsFloat(v).Some? then Num(AsFloat(v).value) else v
  }

  function Lookup(data: Data, field: string, model: string): Option<Value> {
    if field in data && model in data[field] then Some(data[field][model]) else None
  }

  // ----- what a cell and a row mean -----

  function LocalValue(local: Data, m: string, f: string): Value {
    var v := Lookup(local, f, m);
    if v.Some? then NormalizeValue(f, v.value) else Null
  }

  function Supplied(c: Channel, m: string, f: string): Option<Value> {
    var v := Lookup(c.data, f, m);
    if v.Some? then Some(NormalizeValue(f, v.value)) else None
  }

  function Cell(current: Value, supplied: Option<Value>): Value {
    match supplied
    case None => if current.Null? then SAME else Null
    case Some(v) => if ValuesEqual(current, v) then SAME else v
  }

  /** The channel's value raises the row's difference flag. */
  predicate Flags(current: Value, supplied: Option<Value>) {
    supplied.Some? && !ValuesEqual(current, supplied.value) && (current.Null? ==> supplied.value != SAME)
  }

  predicate Untrusted(c: Channel, m: string) {
    var ratio, completion := Lookup(c.data, "model_ratio", m), Lookup(c.data, "completion_ratio", m);
    ratio.Some? && completion.Some? && AsFloat(ratio.value).Some? && AsFloat(completion.value).Some?
    && NearlyEqual(AsFloat(ratio.value).value, 37.5) && NearlyEqual(AsFloat(completion.value).value, 1.0)
  }

  function Columns(local: Data, channels: seq<Channel>, m: string, f: string): map<string, Value> {
    if channels == [] then map[]
    else
      var c := channels[|channels| - 1];
      Columns(local, channels[..|channels| - 1], m, f)[c.name := Cell(LocalValue(local, m, f), Supplied(c, m, f))]
  }

  function Confidence(channels: seq<Channel>, m: string): map<string, bool> {
    if channels == [] then map[]
    else
      var c := channels[|channels| - 1];
      Confidence(channels[..|channels| - 1], m)[c.name := !Untrusted(c, m)]
  }

  predicate AnyFlags(local: Data, channels: seq<Channel>, m: string, f: string) {
    exists i :: 0 <= i < |channels| && Flags(LocalValue(local, m, f), Supplied(channels[i], m, f))
  }

  predicate AnySupplies(channels: seq<Channel>, m: string, f: string) {
    exists i :: 0 <= i < |channels| && Supplied(channels[i], m, f).Some?
  }

  predicate Included(local: Data, channels: seq<Channel>, m: string, f: string) {
    if LocalValue(local, m, f).Null? then AnySupplies(channels, m, f) else AnyFlags(local, channels, m, f)
  }

  function RowOf(local: Data, channels: seq<Channel>, m: string, f: string): Item {
    Item(LocalValue(local, m, f), Columns(local, channels, m, f), Confidence(channels, m))
  }

  /** The table before pruning. */
  function First(local: Data, channels: seq<Channel>, m: string, f: string): Option<Item> {
    if f in SYNC_FIELDS && Included(local, channels, m, f) then Some(RowOf(local, channels, m, f)) else None
  }

  function At(t: Table, m: string, f: string): Option<Item> {
    if m in t && f in t[m] then Some(t[m][f]) else None
  }

  // ----- building rows -----

  function FieldMap(c: Channel, f: string): map<string, Value> {
    if f in c.data then c.data[f] else map[]
  }

  /** One entry of the confidence map. */
  method IsConfident(c: Channel, m: string) returns (confident: bool)
    ensures confident == !Untrusted(c, m)
  {
    var modelRatios, completionRatios := FieldMap(c, "model_ratio"), FieldMap(c, "completion_ratio");
    confident := true;
    if |modelRatios| > 0 && |completionRatios| > 0 {
      if m in modelRatios && m in completionRatios {
        var ratio, completion := AsFloat(modelRatios[m]), AsFloat(completionRatios[m]);
        if ratio.Some? && completion.Some? && NearlyEqual(ratio.value, 37.5) && NearlyEqual(completion.value, 1.0) {
          confident := false;
        }
      }
    }
  }

  /** One channel's cell and whether it raises the difference flag, branch by branch. */
  method CompareCell(localValue: Value, supplied: Option<Value>) returns (upstreamValue: Value, hasDifference: bool)
    ensures upstreamValue == Cell(localValue, supplied) && hasDifference == Flags(localValue, supplied)
  {
    upstreamValue, hasDifference := Null, false;
    if supplied.Some? {
      upstreamValue := supplied.value;
      if localValue != Null && !ValuesEqual(localValue, upstreamValue) {
        hasDifference := true;
      } else if ValuesEqual(localValue, upstreamValue) {
        upstreamValue := SAME;
      }
    }
    if upstreamValue == Null && localValue == Null {
      upstreamValue := SAME;
    }
    if localValue == Null && upstreamValue != Null && upstreamValue != SAME {
      hasDifference := true;
    }
  }

  method BuildRow(local: Data, channels: seq<Channel>, m: string, f: string) returns (shouldInclude: bool, item: Item)
    ensures item == RowOf(local, channels, m, f) && shouldInclude == Included(local, channels, m, f)
  {
    var localValue := LocalValue(local, m, f);
    var upstreamValues: map<string, Value>, confidenceValues := map[], map[];
    var hasUpstreamValue, hasDifference := false, false;
    for i := 0 to |channels|
      invariant upstreamValues == Columns(local, channels[..i], m, f) && confidenceValues == Confidence(channels[..i], m)
      invariant hasUpstreamValue == AnySupplies(channels[..i], m, f)
      invariant hasDifference == AnyFlags(local, channels[..i], m, f)
    {
      var channel := channels[i];
      var supplied := Supplied(channel, m, f);
      var upstreamValue, differs := CompareCell(localValue, supplied);
      hasUpstreamValue := hasUpstreamValue || supplied.Some?;
      hasDifference := hasDifference || differs;
      upstreamValues := upstreamValues[channel.name := upstreamValue];
      var confident := IsConfident(channel, m);
      confidenceValues := confidenceValues[channel.name := confident];
      PrefixGrows(local, channels, i, m, f);
    }
    assert channels[..|channels|] == channels;
    shouldInclude := if localValue != Null then hasDifference else hasUpstreamValue;
    item := Item(localValue, upstreamValues, confidenceValues);
  }

  lemma PrefixGrows(local: Data, channels: seq<Channel>, i: nat, m: string, f: string)
    requires i < |channels|
    ensures channels[..i + 1][..i] == channels[..i] && channels[..i + 1][i] == channels[i]
    ensures AnySupplies(channels[..i + 1], m, f) <==> AnySupplies(channels[..i], m, f) || Supplied(channels[i], m, f).Some?
    ensures AnyFlags(local, channels[..i + 1], m, f)
       <==> AnyFlags(local, channels[..i], m, f) || Flags(LocalValue(local, m, f), Supplied(channels[i], m, f))
  {
    var front, all := channels[..i], channels[..i + 1];
    assert forall j :: 0 <= j < i ==> front[j] == all[j];
  }

  method BuildRows(local: Data, channels: seq<Channel>, m: string) returns (rows: map<string, Item>)
    ensures forall f :: (if f in rows then Some(rows[f]) else None) == First(local, channels, m, f)
  {
    rows := map[];
    for i := 0 to |SYNC_FIELDS|
      invariant forall f :: (if f in rows then Some(rows[f]) else None)
                  == if f in SYNC_FIELDS[..i] then First(local, channels, m, f) else None
    {
      var ratioType := SYNC_FIELDS[i];
      var shouldInclude, item := BuildRow(local, channels, m, ratioType);
      assert SYNC_FIELDS[..i + 1] == SYNC_FIELDS[..i] + [ratioType];
      if shouldInclude {
        rows := rows[ratioType := item];
      }
    }
    assert SYNC_FIELDS[..|SYNC_FIELDS|] == SYNC_FIELDS;
  }

  /** Every model that the local data or a channel prices in some field. */
  predicate Priced(local: Data, channels: seq<Channel>, m: string) {
    exists f :: f in SYNC_FIELDS && (Lookup(local, f, m).Some? || AnySupplies(channels, m, f))
  }

  method AddNames(data: Data, models: set<string>) returns (r: set<string>)
    ensures r == models + set f, m | f in SYNC_FIELDS && f in data && m in data[f] :: m
  {
    r := models;
    for i := 0 to |SYNC_FIELDS|
      invariant r == models + set f, m | f in SYNC_FIELDS[..i] && f in data && m in data[f] :: m
    {
      var f := SYNC_FIELDS[i];
      assert SYNC_FIELDS[..i + 1] == SYNC_FIELDS[..i] + [f];
      if f in data { r := r + data[f].Keys; }
    }
    assert SYNC_FIELDS[..|SYNC_FIELDS|] == SYNC_FIELDS;
  }

  method AllModels(local: Data, channels: seq<Channel>) returns (models: set<string>)
    ensures forall m :: m in models <==> Priced(local, channels, m)
  {
    models := AddNames(local, {});
    for i := 0 to |channels|
      invariant forall m :: m in models <==> Priced(local, channels[..i], m)
    {
      models := AddNames(channels[i].data, models);
      forall m ensures m in models <==> Priced(local, channels[..i + 1], m) {
        forall f ensures AnySupplies(channels[..i + 1], m, f) <==> AnySupplies(channels[..i], m, f) || Supplied(channels[i], m, f).Some? {
          PrefixGrows(local, channels, i, m, f);
        }
      }
    }
    assert channels[..|channels|] == channels;
  }

  lemma IncludedIsPriced(local: Data, channels: seq<Channel>, m: string, f: string)
    requires First(local, channels, m, f).Some?
    ensures Priced(local, channels, m)
  {
    assert AnySupplies(channels, m, f);
  }

  /** The table before pruning, models in any order; a model without a row has no entry. */
  method BuildTable(local: Data, channels: seq<Channel>) returns (t: Table)
    ensures forall m, f :: At(t, m, f) == First(local, channels, m, f)
  {
    t := map[];
    var models := AllModels(local, channels);
    ghost var all := models;
    while models != {}
      invariant models <= all
      invariant forall m, f :: At(t, m, f) == if m in all - models then First(local, channels, m, f) else None
      decreases models
    {
      var m :| m in models;
      var rows := BuildRows(local, channels, m);
      ghost var was := t;
      if rows != map[] { t := t[m := rows]; }
      models := models - {m};
      forall m', f ensures At(t, m', f) == if m' in all - models then First(local, channels, m', f) else None {
        if m' == m {
          assert At(was, m, f) == None;
          assert (if f in rows then Some(rows[f]) else None) == First(local, channels, m, f);
        } else {
          assert At(was, m', f) == if m' in all - models then First(local, channels, m', f) else None;
        }
      }
    }
    forall m, f ensures At(t, m, f) == First(local, channels, m, f) {
      if First(local, channels, m, f).Some? { IncludedIsPriced(local, channels, m, f); }
    }
  }

  // ----- pruning -----

  predicate Real(v: Value) {
    v != Null && v != SAME
  }

  /** The channel has a real difference somewhere in the table. */
  ghost predicate HasDiff(t: Table, name: string) {
    exists m :: m in t && InRows(t[m], name)
  }

  ghost predicate InRows(rows: map<string, Item>, name: string) {
    exists f :: f in rows && RealColumn(rows[f], name)
  }

  predicate RealColumn(item: Item, name: string) {
    name in item.upstreams && Real(item.upstreams[name])
  }

  method ChannelsWithDiff(t: Table) returns (names: set<string>)
    ensures forall n :: n in names <==> HasDiff(t, n)
  {
    names := {};
    var models := t.Keys;
    while models != {}
      invariant models <= t.Keys
      invariant forall n :: n in names <==> exists m :: m in t && m !in models && InRows(t[m], n)
      decreases models
    {
      var m :| m in models;
      var more := RowsWithDiff(t[m]);
      names := names + more;
      models := models - {m};
    }
  }

  method RowsWithDiff(rows: map<string, Item>) returns (names: set<string>)
    ensures forall n :: n in names <==> InRows(rows, n)
  {
    names := {};
    var fields := rows.Keys;
    while fields != {}
      invariant fields <= rows.Keys
      invariant forall n :: n in names <==> exists f :: f in rows && f !in fields && RealColumn(rows[f], n)
      decreases fields
    {
      var f :| f in fields;
      names := names + set n | n in rows[f].upstreams && Real(rows[f].upstreams[n]);
      fields := fields - {f};
    }
  }

  function Restricted(item: Item, keep: set<string>): Item {
    Item(item.current, map n | n in item.upstreams && n in keep :: item.upstreams[n],
         map n | n in item.confidence && (n in keep || n !in item.upstreams) :: item.confidence[n])
  }

  predicate Survives(item: Item) {
    exists n :: n in item.upstreams && item.upstreams[n] != SAME
  }

  function PrunedRows(rows: map<string, Item>, keep: set<string>): map<string, Item> {
    map f | f in rows && Survives(Restricted(rows[f], keep)) :: Restricted(rows[f], keep)
  }

  method PruneItem(item: Item, keep: set<string>) returns (r: Item)
    ensures r == Restricted(item, keep)
  {
    var todo := item.upstreams.Keys;
    var ups, conf := item.upstreams, item.confidence;
    while todo != {}
      invariant todo <= item.upstreams.Keys
      invariant ups == map n | n in item.upstreams && (n in keep || n in todo) :: item.upstreams[n]
      invariant conf == map n | n in item.confidence && (n in keep || n in todo || n !in item.upstreams) :: item.confidence[n]
      decreases todo
    {
      var n :| n in todo;
      if n !in keep {
        ups := ups - {n};
        conf := conf - {n};
      }
      todo := todo - {n};
    }
    r := Item(item.current, ups, conf);
  }

  method AllSame(ups: map<string, Value>) returns (allSame: bool)
    ensures allSame <==> forall n :: n in ups ==> ups[n] == SAME
  {
    var todo := ups.Keys;
    while todo != {}
      invariant todo <= ups.Keys && forall n :: n in ups && n !in todo ==> ups[n] == SAME
      decreases todo
    {
      var n :| n in todo;
      if ups[n] != SAME { return false; }
      todo := todo - {n};
    }
    return true;
  }

  ghost predicate PrunedField(rows: map<string, Item>, keep: set<string>, done: set<string>, r: map<string, Item>, f: string) {
    if f !in rows then f !in r
    else if f !in done then f in r && r[f] == rows[f]
    else
      var item := Restricted(rows[f], keep);
      (f in r <==> Survives(item)) && (f in r ==> r[f] == item)
  }

  method PruneRows(rows: map<string, Item>, keep: set<string>) returns (r: map<string, Item>)
    ensures r == PrunedRows(rows, keep)
  {
    r := rows;
    var todo := rows.Keys;
    while todo != {}
      invariant todo <= rows.Keys && forall f :: PrunedField(rows, keep, rows.Keys - todo, r, f)
      decreases todo
    {
      var f :| f in todo;
      assert PrunedField(rows, keep, rows.Keys - todo, r, f);
      ghost var was, before := r, todo;
      var item, dropped := PruneOneItem(r[f], keep);
      if dropped {
        r := r - {f};
      } else {
        r := r[f := item];
      }
      todo := todo - {f};
      forall g ensures PrunedField(rows, keep, rows.Keys - todo, r, g) {
        assert PrunedField(rows, keep, rows.Keys - before, was, g);
      }
    }
    assert rows.Keys - todo == rows.Keys;
    forall f ensures f in r <==> f in PrunedRows(rows, keep) {
      assert PrunedField(rows, keep, rows.Keys, r, f);
    }
    forall f | f in r ensures r[f] == PrunedRows(rows, keep)[f] {
      assert PrunedField(rows, keep, rows.Keys, r, f);
    }
  }

  method PruneOneItem(item: Item, keep: set<string>) returns (r: Item, dropped: bool)
    ensures r == Restricted(item, keep) && dropped == !Survives(r)
  {
    r := PruneItem(item, keep);
    var allSame := AllSame(r.upstreams);
    dropped := |r.upstreams| == 0 || allSame;
    if |r.upstreams| == 0 { assert r.upstreams.Keys == {}; }
  }

  /** The table with every model's rows pruned, models left without a row dropped. */
  ghost predicate PrunedTable(t: Table, keep: set<string>, done: set<string>, r: Table) {
    forall m :: PrunedModel(t, keep, done, r, m)
  }

  ghost predicate PrunedModel(t: Table, keep: set<string>, done: set<string>, r: Table, m: string) {
    if m !in t then m !in r
    else if m !in done then m in r && r[m] == t[m]
    else (m in r <==> PrunedRows(t[m], keep) != map[]) && (m in r ==> r[m] == PrunedRows(t[m], keep))
  }

  method Prune(t: Table, keep: set<string>) returns (r: Table)
    ensures PrunedTable(t, keep, t.Keys, r)
  {
    r := t;
    var todo := t.Keys;
    while todo != {}
      invariant todo <= t.Keys && PrunedTable(t, keep, t.Keys - todo, r)
      decreases todo
    {
      var m :| m in todo;
      assert PrunedModel(t, keep, t.Keys - todo, r, m);
      ghost var was, before := r, todo;
      var rows := PruneRows(r[m], keep);
      if |rows| == 0 {
        r := r - {m};
      } else {
        r := r[m := rows];
      }
      todo := todo - {m};
      forall n ensures PrunedModel(t, keep, t.Keys - todo, r, n) {
        PruneOne(t, keep, t.Keys - before, was, r, m, rows, n);
        assert t.Keys - todo == t.Keys - before + {m};
      }
    }
    assert t.Keys - todo == t.Keys;
  }

  lemma PruneOne(t: Table, keep: set<string>, done: set<string>, was: Table, now: Table, m: string, rows: map<string, Item>, n: string)
    requires m in t && PrunedModel(t, keep, done, was, n) && rows == PrunedRows(t[m], keep)
    requires now == if |rows| == 0 then was - {m} else was[m := rows]
    ensures PrunedModel(t, keep, done + {m}, now, n)
  {
    if n == m { assert |rows| == 0 <==> rows == map[]; }
  }

  // ----- the whole computation -----

  /** The channel has a real cell in some included row. */
  ghost predicate Differing(local: Data, channels: seq<Channel>, name: string) {
    exists m, f :: First(local, channels, m, f).Some? && RealColumn(First(local, channels, m, f).value, name)
  }

  ghost function DifferingNames(local: Data, channels: seq<Channel>): set<string> {
    set c | c in channels && Differing(local, channels, c.name) :: c.name
  }

  function PrunedEntry(first: Option<Item>, keep: set<string>): Option<Item> {
    if first.Some? && Survives(Restricted(first.value, keep)) then Some(Restricted(first.value, keep)) else None
  }

  /** One entry of the final table: the included row cut down to the differing channels, kept if
      some cell that is left is not "same". */
  ghost function Final(local: Data, channels: seq<Channel>, m: string, f: string): Option<Item> {
    PrunedEntry(First(local, channels, m, f), DifferingNames(local, channels))
  }

  /** buildDifferences, for any iteration order of the maps involved. */
  method BuildDifferences(local: Data, channels: seq<Channel>) returns (r: Table)
    ensures forall m, f :: At(r, m, f) == Final(local, channels, m, f)
    ensures forall m :: m in r ==> r[m] != map[]
  {
    var t := BuildTable(local, channels);
    var keep := ChannelsWithDiff(t);
    r := Prune(t, keep);
    KeepIsDiffering(local, channels, t, keep);
    forall m, f ensures At(r, m, f) == Final(local, channels, m, f) {
      assert At(t, m, f) == First(local, channels, m, f);
      PruneAt(t, keep, r, m, f);
    }
    forall m | m in r ensures r[m] != map[] { assert PrunedModel(t, keep, t.Keys, r, m); }
  }

  lemma PruneAt(t: Table, keep: set<string>, r: Table, m: string, f: string)
    requires PrunedTable(t, keep, t.Keys, r)
    ensures At(r, m, f) == PrunedEntry(At(t, m, f), keep)
  {
    assert PrunedModel(t, keep, t.Keys, r, m);
    if m in t && f in t[m] && Survives(Restricted(t[m][f], keep)) { assert f in PrunedRows(t[m], keep); }
  }

  lemma KeepIsDiffering(local: Data, channels: seq<Channel>, t: Table, keep: set<string>)
    requires forall m, f :: At(t, m, f) == First(local, channels, m, f)
    requires forall n :: n in keep <==> HasDiff(t, n)
    ensures keep == DifferingNames(local, channels)
  {
    forall n ensures n in keep <==> n in DifferingNames(local, channels) {
      SameDiff(local, channels, t, n);
      if Differing(local, channels, n) {
        var m, f :| First(local, channels, m, f).Some? && RealColumn(First(local, channels, m, f).value, n);
        ColumnNames(local, channels, m, f, n);
      }
    }
  }

  lemma SameDiff(local: Data, channels: seq<Channel>, t: Table, n: string)
    requires forall m, f :: At(t, m, f) == First(local, channels, m, f)
    ensures HasDiff(t, n) <==> Differing(local, channels, n)
  {
    if HasDiff(t, n) {
      var m :| m in t && InRows(t[m], n);
      var f :| f in t[m] && RealColumn(t[m][f], n);
      assert At(t, m, f) == First(local, channels, m, f);
    }
    if Differing(local, channels, n) {
      var m, f :| First(local, channels, m, f).Some? && RealColumn(First(local, channels, m, f).value, n);
      assert At(t, m, f) == First(local, channels, m, f);
      assert InRows(t[m], n);
    }
  }

  // ----- what the table says -----

  /** Channels have distinct names. */
  predicate DistinctNames(channels: seq<Channel>) {
    forall i, j :: 0 <= i < j < |channels| ==> channels[i].name != channels[j].name
  }

  /** The channel supplies a value that is absent locally or differs from the local one. */
  predicate Differs(local: Data, c: Channel, m: string, f: string) {
    Supplied(c, m, f).Some? && !ValuesEqual(LocalValue(local, m, f), Supplied(c, m, f).value)
  }

  predicate Named(channels: seq<Channel>, n: string) {
    exists i :: 0 <= i < |channels| && channels[i].name == n
  }

  lemma {:induction false} ColumnNames(local: Data, channels: seq<Channel>, m: string, f: string, n: string)
    ensures n in Columns(local, channels, m, f) <==> Named(channels, n)
  {
    if channels != [] {
      var front := channels[..|channels| - 1];
      ColumnNames(local, front, m, f, n);
      assert forall i :: 0 <= i < |front| ==> front[i] == channels[i];
    }
  }

  lemma {:induction false} ColumnOf(local: Data, channels: seq<Channel>, m: string, f: string, i: nat)
    requires DistinctNames(channels) && i < |channels|
    ensures var n, columns := channels[i].name, Columns(local, channels, m, f);
            n in columns && columns[n] == Cell(LocalValue(local, m, f), Supplied(channels[i], m, f))
  {
    if i < |channels| - 1 { ColumnOf(local, channels[..|channels| - 1], m, f, i); }
  }

  function CellOf(local: Data, c: Channel, m: string, f: string): Value {
    Cell(LocalValue(local, m, f), Supplied(c, m, f))
  }

  /** Somewhere the channel differs with a value that is neither null nor the literal "same". */
  ghost predicate ReallyDiffers(local: Data, c: Channel) {
    exists m, f :: f in SYNC_FIELDS && Differs(local, c, m, f) && Real(Supplied(c, m, f).value)
  }

  predicate SomeDiffers(local: Data, channels: seq<Channel>, m: string, f: string) {
    exists i :: 0 <= i < |channels| && Differs(local, channels[i], m, f)
  }

  lemma DifferenceIsIncluded(local: Data, channels: seq<Channel>, m: string, f: string)
    requires SomeDiffers(local, channels, m, f)
    ensures Included(local, channels, m, f)
  {
    var i :| 0 <= i < |channels| && Differs(local, channels[i], m, f);
    if LocalValue(local, m, f).Null? {
      assert Supplied(channels[i], m, f).Some?;
    } else {
      assert Flags(LocalValue(local, m, f), Supplied(channels[i], m, f));
    }
  }

  lemma DifferingIffReally(local: Data, channels: seq<Channel>, i: nat)
    requires i < |channels| && DistinctNames(channels)
    ensures Differing(local, channels, channels[i].name) <==> ReallyDiffers(local, channels[i])
  {
    var c, n := channels[i], channels[i].name;
    if Differing(local, channels, n) {
      var m, f :| First(local, channels, m, f).Some? && RealColumn(First(local, channels, m, f).value, n);
      ColumnOf(local, channels, m, f, i);
      assert f in SYNC_FIELDS && Differs(local, c, m, f) && Real(Supplied(c, m, f).value);
    }
    if ReallyDiffers(local, c) {
      var m, f :| f in SYNC_FIELDS && Differs(local, c, m, f) && Real(Supplied(c, m, f).value);
      DifferenceIsIncluded(local, channels, m, f);
      ColumnOf(local, channels, m, f, i);
      assert RealColumn(First(local, channels, m, f).value, n);
    }
  }

  lemma InDifferingNames(local: Data, channels: seq<Channel>, i: nat)
    requires i < |channels| && DistinctNames(channels)
    ensures channels[i].name in DifferingNames(local, channels) <==> ReallyDiffers(local, channels[i])
  {
    DifferingIffReally(local, channels, i);
    assert channels[i] in channels;
  }

  /** The i-th channel keeps its column, and its cell there is not "same". */
  ghost predicate KeepsRow(local: Data, channels: seq<Channel>, m: string, f: string, i: nat)
    requires i < |channels|
  {
    ReallyDiffers(local, channels[i]) && CellOf(local, channels[i], m, f) != SAME
  }

  /** An included row survives exactly when some really differing channel has a cell there that is
      not "same". */
  lemma SurvivesIff(local: Data, channels: seq<Channel>, m: string, f: string)
    requires DistinctNames(channels) && First(local, channels, m, f).Some?
    ensures Final(local, channels, m, f).Some? <==> exists i :: 0 <= i < |channels| && KeepsRow(local, channels, m, f, i)
  {
    var names := DifferingNames(local, channels);
    var kept := Restricted(First(local, channels, m, f).value, names);
    if Survives(kept) {
      var n :| n in kept.upstreams && kept.upstreams[n] != SAME;
      ColumnNames(local, channels, m, f, n);
      var i :| 0 <= i < |channels| && channels[i].name == n;
      ColumnOf(local, channels, m, f, i);
      InDifferingNames(local, channels, i);
      assert KeepsRow(local, channels, m, f, i);
    }
    if exists i :: 0 <= i < |channels| && KeepsRow(local, channels, m, f, i) {
      var i :| 0 <= i < |channels| && KeepsRow(local, channels, m, f, i);
      ColumnOf(local, channels, m, f, i);
      InDifferingNames(local, channels, i);
      assert channels[i].name in kept.upstreams && kept.upstreams[channels[i].name] != SAME;
    }
  }

  /** An entry for (m, f) exists exactly when some channel differs there and some really differing
      channel has a cell there that is not "same". In particular no row is kept without a
      difference, and a difference that is not null or "same" is never dropped. */
  lemma EntryIffDifference(local: Data, channels: seq<Channel>, m: string, f: string)
    requires DistinctNames(channels)
    ensures Final(local, channels, m, f).Some?
       <==> f in SYNC_FIELDS && SomeDiffers(local, channels, m, f)
            && exists i :: 0 <= i < |channels| && KeepsRow(local, channels, m, f, i)
  {
    if First(local, channels, m, f).Some? {
      SurvivesIff(local, channels, m, f);
      if exists i :: 0 <= i < |channels| && KeepsRow(local, channels, m, f, i) {
        var i :| 0 <= i < |channels| && KeepsRow(local, channels, m, f, i);
        IncludedRowDiffers(local, channels, m, f, i);
      }
    } else if f in SYNC_FIELDS && SomeDiffers(local, channels, m, f) {
      DifferenceIsIncluded(local, channels, m, f);
    }
  }

  lemma IncludedRowDiffers(local: Data, channels: seq<Channel>, m: string, f: string, i: nat)
    requires Included(local, channels, m, f) && i < |channels| && CellOf(local, channels[i], m, f) != SAME
    ensures SomeDiffers(local, channels, m, f)
  {
    if LocalValue(local, m, f).Null? {
      assert Differs(local, channels[i], m, f);
    } else {
      var j :| 0 <= j < |channels| && Flags(LocalValue(local, m, f), Supplied(channels[j], m, f));
      assert Differs(local, channels[j], m, f);
    }
  }

  /** Every surviving row has as columns exactly the channels that really differ somewhere. */
  lemma ColumnsAreDifferingChannels(local: Data, channels: seq<Channel>, m: string, f: string, n: string)
    requires DistinctNames(channels) && Final(local, channels, m, f).Some?
    ensures n in Final(local, channels, m, f).value.upstreams
       <==> exists i :: 0 <= i < |channels| && channels[i].name == n && ReallyDiffers(local, channels[i])
  {
    ColumnNames(local, channels, m, f, n);
    if Named(channels, n) {
      var i :| 0 <= i < |channels| && channels[i].name == n;
      InDifferingNames(local, channels, i);
      assert forall j :: 0 <= j < |channels| && channels[j].name == n ==> j == i;
    }
  }

  /** The channel's value is in its cell of the final table, and can be told from "same". */
  ghost predicate Shown(local: Data, channels: seq<Channel>, m: string, f: string, i: nat)
    requires i < |channels|
  {
    var entry, n := Final(local, channels, m, f), channels[i].name;
    entry.Some? && n in entry.value.upstreams && entry.value.upstreams[n] != SAME
    && Supplied(channels[i], m, f) == Some(entry.value.upstreams[n])
  }

  /** Which differences are lost: a difference is shown exactly when its value is not the literal
      "same" and its channel really differs somewhere. So a value that is neither null nor "same"
      is always shown, a null only beside a real difference of the same channel, "same" never. */
  lemma DifferenceShownExactly(local: Data, channels: seq<Channel>, m: string, f: string, i: nat)
    requires DistinctNames(channels) && i < |channels| && f in SYNC_FIELDS && Differs(local, channels[i], m, f)
    ensures Shown(local, channels, m, f, i)
       <==> Supplied(channels[i], m, f).value != SAME && ReallyDiffers(local, channels[i])
    ensures Real(Supplied(channels[i], m, f).value) ==> Shown(local, channels, m, f, i)
  {
    assert SomeDiffers(local, channels, m, f);
    DifferenceIsIncluded(local, channels, m, f);
    InDifferingNames(local, channels, i);
    ColumnOf(local, channels, m, f, i);
    if Supplied(channels[i], m, f).value != SAME && ReallyDiffers(local, channels[i]) {
      assert KeepsRow(local, channels, m, f, i);
      SurvivesIff(local, channels, m, f);
    }
  }

  /** With values that are neither null nor "same", an entry exists exactly when a channel differs. */
  lemma PlainEntryIffDifference(local: Data, channels: seq<Channel>, m: string, f: string)
    requires DistinctNames(channels)
    requires forall i :: 0 <= i < |channels| && Supplied(channels[i], m, f).Some? ==> Real(Supplied(channels[i], m, f).value)
    ensures Final(local, channels, m, f).Some? <==> f in SYNC_FIELDS && SomeDiffers(local, channels, m, f)
  {
    EntryIffDifference(local, channels, m, f);
    if f in SYNC_FIELDS && SomeDiffers(local, channels, m, f) {
      var i :| 0 <= i < |channels| && Differs(local, channels[i], m, f);
      DifferenceShownExactly(local, channels, m, f, i);
    }
  }

  // ----- the table against the raw prices -----

  predicate NumericField(f: string) {
    f == "model_ratio" || f == "completion_ratio" || f == "cache_ratio" || f == "create_cache_ratio"
    || f == "image_ratio" || f == "audio_ratio" || f == "audio_completion_ratio" || f == "model_price"
  }

  predicate PlainField(f: string) {
    f == "billing_mode" || f == "billing_expr"
  }

  lemma FieldKinds(f: string)
    ensures NumericField(f) ==> f in NUMERIC_FIELDS
    ensures PlainField(f) ==> f !in NUMERIC_FIELDS
    ensures f in SYNC_FIELDS <==> NumericField(f) || PlainField(f)
  {
  }

  predicate Numeric(v: Value) {
    v.Num? || v.Int?
  }

  function Amount(v: Value): real
    requires Numeric(v)
  {
    if v.Num? then v.n else v.i as real
  }

  /** The i-th channel's column of the final entry for (m, f) is there and holds v. */
  ghost predicate Reports(local: Data, channels: seq<Channel>, m: string, f: string, i: nat, v: Value)
    requires i < |channels|
  {
    var entry, n := Final(local, channels, m, f), channels[i].name;
    entry.Some? && n in entry.value.upstreams && entry.value.upstreams[n] == v
  }

  /** The i-th channel's column holds v if there is such a column. */
  ghost predicate ReportsAtMost(local: Data, channels: seq<Channel>, m: string, f: string, i: nat, v: Value)
    requires i < |channels|
  {
    var entry, n := Final(local, channels, m, f), channels[i].name;
    entry.Some? && n in entry.value.upstreams ==> entry.value.upstreams[n] == v
  }

  /** A numeric price that is 0.000000001 or more away from the local one always makes an entry with
      the channel's price as a float; a closer one is never shown as anything but "same". */
  lemma NumericPrices(local: Data, channels: seq<Channel>, m: string, f: string, i: nat, x: Value, y: Value)
    requires DistinctNames(channels) && i < |channels| && NumericField(f) && Numeric(x) && Numeric(y)
    requires f in local && m in local[f] && local[f][m] == x
    requires f in channels[i].data && m in channels[i].data[f] && channels[i].data[f][m] == y
    ensures Amount(x) - Amount(y) >= 0.000000001 || Amount(y) - Amount(x) >= 0.000000001 ==>
              Reports(local, channels, m, f, i, Num(Amount(y)))
    ensures -0.000000001 < Amount(x) - Amount(y) < 0.000000001 ==>
              ReportsAtMost(local, channels, m, f, i, Str("same"))
    ensures Final(local, channels, m, f).Some? ==> Final(local, channels, m, f).value.current == Num(Amount(x))
  {
    var c, a, b := channels[i], Amount(x), Amount(y);
    assert f in SYNC_FIELDS && LocalValue(local, m, f) == Num(a) && Supplied(c, m, f) == Some(Num(b)) by {
      FieldKinds(f);
    }
    assert Differs(local, c, m, f) <==> a - b >= 0.000000001 || b - a >= 0.000000001;
    assert CellOf(local, c, m, f) == if Differs(local, c, m, f) then Num(b) else Str("same");
    ShownCell(local, channels, m, f, i, Num(b));
  }

  lemma ShownCell(local: Data, channels: seq<Channel>, m: string, f: string, i: nat, v: Value)
    requires DistinctNames(channels) && i < |channels| && f in SYNC_FIELDS && v.Num? && Supplied(channels[i], m, f) == Some(v)
    requires CellOf(local, channels[i], m, f) == if Differs(local, channels[i], m, f) then v else Str("same")
    ensures Differs(local, channels[i], m, f) ==> Reports(local, channels, m, f, i, v)
    ensures !Differs(local, channels[i], m, f) ==> ReportsAtMost(local, channels, m, f, i, Str("same"))
    ensures Final(local, channels, m, f).Some? ==> Final(local, channels, m, f).value.current == LocalValue(local, m, f)
  {
    PriceCell(local, channels, m, f, i);
  }

  /** The values of the other two fields are compared as they are: a different one that is neither
      null nor "same" always makes an entry, an equal one is never shown as anything but "same".
      Only two floats are compared with a tolerance. */
  lemma PlainValues(local: Data, channels: seq<Channel>, m: string, f: string, i: nat, x: Value, y: Value)
    requires DistinctNames(channels) && i < |channels| && PlainField(f) && !(x.Num? && y.Num?)
    requires f in local && m in local[f] && local[f][m] == x
    requires f in channels[i].data && m in channels[i].data[f] && channels[i].data[f][m] == y
    ensures x != y && y != Null && y != Str("same") ==> Reports(local, channels, m, f, i, y)
    ensures x == y ==> ReportsAtMost(local, channels, m, f, i, Str("same"))
    ensures Final(local, channels, m, f).Some? ==> Final(local, channels, m, f).value.current == x
  {
    FieldKinds(f);
    PriceCell(local, channels, m, f, i);
  }

  /** A price that is not set locally is always reported, with no current value. */
  lemma NewPrices(local: Data, channels: seq<Channel>, m: string, f: string, i: nat, y: Value)
    requires DistinctNames(channels) && i < |channels| && (f in local ==> m !in local[f])
    requires f in channels[i].data && m in channels[i].data[f] && channels[i].data[f][m] == y
    ensures NumericField(f) && Numeric(y) ==> Reports(local, channels, m, f, i, Num(Amount(y)))
    ensures PlainField(f) && y != Null && y != Str("same") ==> Reports(local, channels, m, f, i, y)
    ensures Final(local, channels, m, f).Some? ==> Final(local, channels, m, f).value.current.Null?
  {
    FieldKinds(f);
    PriceCell(local, channels, m, f, i);
  }

  /** A channel that does not price the model shows as missing where there is a local value, and as
      "same" where there is none. */
  lemma MissingPrices(local: Data, channels: seq<Channel>, m: string, f: string, i: nat)
    requires DistinctNames(channels) && i < |channels|
    requires f in channels[i].data ==> m !in channels[i].data[f]
    ensures f in local && m in local[f] && !local[f][m].Null? ==> ReportsAtMost(local, channels, m, f, i, Null)
    ensures (f in local ==> m !in local[f]) ==> ReportsAtMost(local, channels, m, f, i, Str("same"))
  {
    FieldKinds(f);
    PriceCell(local, channels, m, f, i);
  }

  lemma PriceCell(local: Data, channels: seq<Channel>, m: string, f: string, i: nat)
    requires DistinctNames(channels) && i < |channels|
    ensures var c := channels[i];
            f in SYNC_FIELDS && Differs(local, c, m, f) && Real(Supplied(c, m, f).value) ==>
              Reports(local, channels, m, f, i, Supplied(c, m, f).value)
    ensures ReportsAtMost(local, channels, m, f, i, CellOf(local, channels[i], m, f))
    ensures Final(local, channels, m, f).Some? ==> Final(local, channels, m, f).value.current == LocalValue(local, m, f)
  {
    if f in SYNC_FIELDS && Differs(local, channels[i], m, f) { DifferenceShownExactly(local, channels, m, f, i); }
    if Final(local, channels, m, f).Some? && channels[i].name in Final(local, channels, m, f).value.upstreams {
      CellsAreOwn(local, channels, m, f, i);
    }
  }

  /** A surviving cell is the channel's own: "same", missing, or the value it supplies, with the
      channel's confidence. */
  lemma CellsAreOwn(local: Data, channels: seq<Channel>, m: string, f: string, i: nat)
    requires DistinctNames(channels) && i < |channels| && Final(local, channels, m, f).Some?
    requires channels[i].name in Final(local, channels, m, f).value.upstreams
    ensures var item, n := Final(local, channels, m, f).value, channels[i].name;
            item.current == LocalValue(local, m, f)
            && item.upstreams[n] == Cell(item.current, Supplied(channels[i], m, f))
            && n in item.confidence && item.confidence[n] == !Untrusted(channels[i], m)
  {
    ColumnOf(local, channels, m, f, i);
    ConfidenceOf(channels, m, i);
  }

  lemma {:induction false} ConfidenceOf(channels: seq<Channel>, m: string, i: nat)
    requires DistinctNames(channels) && i < |channels|
    ensures var n, confidence := channels[i].name, Confidence(channels, m);
            n in confidence && confidence[n] == !Untrusted(channels[i], m)
  {
    if i < |channels| - 1 { ConfidenceOf(channels[..|channels| - 1], m, i); }
  }

  /** A lost difference: the only channel supplies the literal "same" where there is no local
      value, and no entry is made, whatever real differences the channel has elsewhere. */
  lemma SameLiteralIsLost(local: Data, c: Channel, m: string, f: string)
    requires f in SYNC_FIELDS && LocalValue(local, m, f).Null? && Supplied(c, m, f) == Some(SAME)
    ensures Differs(local, c, m, f) && Final(local, [c], m, f).None?
  {
    EntryIffDifference(local, [c], m, f);
    assert forall i :: 0 <= i < |[c]| ==> [c][i] == c;
  }

  /** Another one: the only channel supplies nothing but null, and its explicit null against a
      local value makes no entry. */
  lemma LonelyNullIsLost(local: Data, c: Channel, m: string, f: string)
    requires f in SYNC_FIELDS && !LocalValue(local, m, f).Null? && Supplied(c, m, f) == Some(Null)
    requires !ReallyDiffers(local, c)
    ensures Differs(local, c, m, f) && Final(local, [c], m, f).None?
  {
    EntryIffDifference(local, [c], m, f);
    assert forall i :: 0 <= i < |[c]| ==> [c][i] == c;
  }
}
