/** What reconciliation keeps over whole runs: the stored pending lists stay equal to a fresh
    detection, applying conserves the pending lists, and no redirect source is ever lost. */
module UpstreamSync {
  import opened Common
  import opened Text
  import opened Lists
  import opened ModelNames
  import opened UpstreamUpdate

  // ----- the comma-joined models column -----

  lemma LocalFree(models: string)
    ensures AllFree(Local(models), ',') && Normal(Local(models))
  {
    NormalizeNormal(Fields(models, ','));
    FieldsFree(models, ',');
    TrimNonBlankFree(Fields(models, ','), ',');
    UniqMembers(TrimNonBlank(Fields(models, ',')));
  }

  /** Storing a comma-free list and reading it back is the identity. */
  lemma StoreRoundTrip(names: seq<string>)
    requires Normal(names) && AllFree(names, ',')
    ensures Local(Join(names, ',')) == names
  {
    NormalizeNormal(names);
    if names != [] {
      assert names[0] in names && names[|names| - 1] in names;
      FieldsJoin(names, ',');
    }
  }

  /** A comma-free name survives storing, whatever else is in the list. */
  lemma StoreKeeps(names: seq<string>, n: string)
    requires Normal(names) && n in names && Free(n, ',')
    ensures n in Local(Join(names, ','))
  {
    var j := Join(names, ',');
    JoinKeepsFreePart(names, n, ',');
    TrimSepSplit(j, ',');
    var front: seq<string>, back: seq<string> :| (forall b :: b in front + back ==> b == "")
                && Split(j, ',') == front + Split(TrimSep(j, ','), ',') + back;
    assert n !in front + back;
    TrimNonBlankKeeps(Fields(j, ','), n);
    UniqMembers(TrimNonBlank(Fields(j, ',')));
  }

  lemma BlankEnds(front: seq<string>, middle: seq<string>, back: seq<string>)
    requires forall b :: b in front + back ==> b == ""
    ensures TrimNonBlank(front + middle + back) == TrimNonBlank(middle)
  {
    assert TrimNonBlank(front) == [] by { BlankPart(front, front + back); }
    assert TrimNonBlank(back) == [] by { BlankPart(back, front + back); }
    TrimNonBlankAppend(front + middle, back);
    TrimNonBlankAppend(front, middle);
  }

  lemma BlankPart(part: seq<string>, all: seq<string>)
    requires (forall b :: b in part ==> b in all) && forall b :: b in all ==> b == ""
    ensures TrimNonBlank(part) == []
  {
    TrimNonBlankBlanks(part);
  }

  /** Reading the column ignores the commas at its ends. */
  lemma LocalIsSplit(models: string)
    ensures Local(models) == Normalize(Split(models, ','))
  {
    if models == "" {
      TrimNonBlankBlanks([""]);
    } else {
      TrimSepSplit(models, ',');
      var front: seq<string>, back: seq<string> :| (forall b :: b in front + back ==> b == "")
                  && Split(models, ',') == front + Split(TrimSep(models, ','), ',') + back;
      BlankEnds(front, Split(TrimSep(models, ','), ','), back);
    }
  }

  /** The names between the commas of each name. */
  function Pieces(names: seq<string>): seq<string> {
    if names == [] then [] else Split(names[0], ',') + Pieces(names[1..])
  }

  /** A joined list splits into the pieces of its names. */
  lemma {:induction false} SplitJoinPieces(names: seq<string>)
    requires names != []
    ensures Split(Join(names, ','), ',') == Pieces(names)
  {
    if |names| > 1 {
      SplitJoinPieces(names[1..]);
      SplitAppend(names[0], Join(names[1..], ','), ',');
    } else {
      assert Pieces(names[1..]) == [];
    }
  }

  lemma {:induction false} PiecesFront(keep: seq<string>, rest: seq<string>)
    requires AllFree(keep, ',')
    ensures Pieces(keep + rest) == keep + Pieces(rest)
  {
    if keep == [] {
      assert keep + rest == rest;
    } else {
      assert Free(keep[0], ',') && AllFree(keep[1..], ',');
      assert (keep + rest)[1..] == keep[1..] + rest;
      PiecesFront(keep[1..], rest);
      SplitFree(keep[0], ',');
    }
  }

  /** A comma-free front of a stored list is read back as the front, in order. */
  lemma StoreKeepsFront(keep: seq<string>, rest: seq<string>)
    requires Normal(keep) && AllFree(keep, ',')
    ensures keep <= Local(Join(keep + rest, ','))
  {
    if rest == [] {
      assert keep + rest == keep;
      StoreRoundTrip(keep);
    } else {
      var j := Join(keep + rest, ',');
      LocalIsSplit(j);
      SplitJoinPieces(keep + rest);
      PiecesFront(keep, rest);
      var more := Pieces(rest);
      TrimNonBlankAppend(keep, more);
      TrimNonBlankFixes(keep);
      UniqPrefix(keep, TrimNonBlank(more));
    }
  }

  // ----- stored lists as a cache of detection -----

  lemma NextIgnoredMembers(row: Row, sel: Selection)
    ensures forall n :: n in NextIgnored(row, sel) <==>
              (n in Normalize(row.ignored) || n in NewlyIgnored(row, sel)) && n !in Added(row, sel)
  {
    var a, g, i := Added(row, sel), NewlyIgnored(row, sel), Normalize(row.ignored);
    FilterMembers(g, n => n !in i);
    FilterMembers(i + Filter(g, n => n !in i), n => n !in a);
  }

  lemma RemainingAddMembers(row: Row, sel: Selection)
    ensures forall n :: n in RemainingAdd(row, sel) <==>
              n in Normalize(row.detected) && n !in Added(row, sel) && n !in NewlyIgnored(row, sel)
  {
    var a, g := Added(row, sel), NewlyIgnored(row, sel);
    FilterMembers(Normalize(row.detected), n => n !in a && n !in g);
  }

  lemma NextIgnoredNormal(row: Row, sel: Selection)
    ensures Normalize(NextIgnored(row, sel)) == NextIgnored(row, sel)
  {
    var a, g := Added(row, sel), NewlyIgnored(row, sel);
    SelectionNormal(row, sel);
    NormalizeNormal(g);
    MergeNormal(row.ignored, g);
    NormalFilter(Merge(row.ignored, g), n => n !in a);
  }

  ghost function Survivors(row: Row, sel: Selection): seq<string> {
    var r := Removed(row, sel);
    Filter(Local(row.models), n => n !in r)
  }

  /** The surviving names, then the trimmed pieces of the additions that are new. */
  ghost function StoredList(row: Row, sel: Selection): seq<string> {
    var l := Local(row.models);
    Normalize(Survivors(row, sel) + Pieces(Filter(Added(row, sel), n => n !in l)))
  }

  /** That is how the model list reads after the application. */
  lemma StoredListIs(row: Row, sel: Selection, now: int)
    ensures Local(Applied(row, sel, now).models) == StoredList(row, sel)
  {
    var l, r, a, next := Local(row.models), Removed(row, sel), Added(row, sel), NextModels(row, sel);
    var keep, rest := Survivors(row, sel), Filter(a, n => n !in l);
    LocalFree(row.models);
    FilterMembers(l, n => n !in r);
    FilterMembers(a, n => n !in l);
    assert next == keep + rest;
    if next == l {
      assert forall n :: n in rest ==> n in keep + rest;
      FilterNone(a, n => n !in l);
      assert keep == l && keep + Pieces(rest) == l;
      NormalizeNormal(l);
    } else if next == [] {
      assert keep + Pieces(rest) == [];
    } else {
      LocalIsSplit(Join(next, ','));
      SplitJoinPieces(next);
      PiecesFront(keep, rest);
    }
  }

  /** The stored list starts with the survivors and holds every comma-free addition. */
  lemma StoredListFacts(row: Row, sel: Selection)
    ensures Normal(StoredList(row, sel)) && AllFree(StoredList(row, sel), ',')
    ensures Survivors(row, sel) <= StoredList(row, sel)
    ensures forall n :: n in Added(row, sel) ==> (n in StoredList(row, sel) <==> Free(n, ','))
    ensures AllFree(Added(row, sel), ',') ==> StoredList(row, sel) == NextModels(row, sel)
  {
    var l, r, a, next := Local(row.models), Removed(row, sel), Added(row, sel), NextModels(row, sel);
    var keep, rest := Survivors(row, sel), Filter(a, n => n !in l);
    LocalFree(row.models);
    LocalFree(Applied(row, sel, 0).models);
    StoredListIs(row, sel, 0);
    NextModelsIsApplySelected(row, sel);
    NormalFilter(l, n => n !in r);
    FilterMembers(l, n => n !in r);
    FilterMembers(a, n => n !in l);
    assert next == keep + rest;
    StoreKeepsFront(keep, rest);
    forall n | n in a && Free(n, ',') ensures n in StoredList(row, sel) {
      if next != l { StoreKeeps(next, n); }
    }
    if AllFree(a, ',') { StoreRoundTrip(next); }
  }

  // What the agreement needs of one application, in terms of the selected names, their pieces and
  // the rules that are left.

  /** Every added name with a comma is hidden by some rule. */
  ghost predicate AdditionsLand(row: Row, sel: Selection, env: Env) {
    forall n :: n in Added(row, sel) && !Free(n, ',') ==> Ignored(NextIgnored(row, sel), n, env.rx)
  }

  /** Every name that was newly ignored and not added is hidden by some rule, or a piece of an
      added name after all. */
  ghost predicate IgnoredNamesHide(row: Row, sel: Selection, env: Env) {
    forall n :: n in NewlyIgnored(row, sel) && n !in Added(row, sel) ==>
      n in StoredList(row, sel) || Ignored(NextIgnored(row, sel), n, env.rx)
  }

  /** No remaining name is a piece of an added name or hidden by what was selected. */
  ghost predicate RemainingOffered(row: Row, sel: Selection, env: Env) {
    forall n :: n in RemainingAdd(row, sel) ==> n !in StoredList(row, sel) && !Ignored(NextIgnored(row, sel), n, env.rx)
  }

  /** What the old rules hid, the new rules hide. */
  ghost predicate HiddenStays(row: Row, sel: Selection, upstream: seq<string>, env: Env) {
    forall n :: (n in Normalize(upstream) && n !in StoredList(row, sel) && n !in env.mapping.Values
                 && Ignored(Normalize(row.ignored), n, env.rx)) ==> Ignored(NextIgnored(row, sel), n, env.rx)
  }

  /** The stored list has no new name that upstream does not have and that is no redirect source. */
  ghost predicate NoStrays(row: Row, sel: Selection, upstream: seq<string>, env: Env) {
    forall n :: n in StoredList(row, sel) ==>
      n in Survivors(row, sel) || n in Normalize(upstream) || n in env.mapping.Keys
  }

  ghost predicate Agreeable(row: Row, sel: Selection, upstream: seq<string>, env: Env) {
    AdditionsLand(row, sel, env) && IgnoredNamesHide(row, sel, env) && RemainingOffered(row, sel, env)
    && HiddenStays(row, sel, upstream, env) && NoStrays(row, sel, upstream, env)
  }

  /** What is pending before, and where it goes. */
  lemma SyncedFacts(row: Row, sel: Selection, upstream: seq<string>, env: Env)
    requires Synced(row, upstream, env)
    ensures forall n :: n in row.detected <==>
              n in Normalize(upstream) && n !in Local(row.models) && n !in env.mapping.Values
              && !Ignored(Normalize(row.ignored), n, env.rx)
    ensures forall n :: n in Removed(row, sel) ==> n in Local(row.models) && n !in Normalize(upstream)
    ensures forall n :: n in Added(row, sel) || n in NewlyIgnored(row, sel) ==> n in row.detected
    ensures forall n :: n in RemainingAdd(row, sel) <==>
              n in row.detected && n !in Added(row, sel) && n !in NewlyIgnored(row, sel)
  {
    LocalFree(row.models);
    PendingFacts(Local(row.models), upstream, row.ignored, env);
    NormalizeNormal(row.detected);
    NormalizeNormal(row.removed);
    SelectionNormal(row, sel);
    RemainingAddMembers(row, sel);
  }

  ghost predicate OfferedAfter(row: Row, sel: Selection, env: Env, n: string) {
    n !in StoredList(row, sel) && n !in env.mapping.Values && !Ignored(NextIgnored(row, sel), n, env.rx)
  }

  /** Name by name: a fresh detection offers exactly the remaining names, if and only if the four
      conditions on names and rules hold. */
  lemma OfferedIffRemaining(row: Row, sel: Selection, upstream: seq<string>, env: Env)
    requires Synced(row, upstream, env)
    ensures (forall n :: n in Normalize(upstream) ==> (OfferedAfter(row, sel, env, n) <==> n in RemainingAdd(row, sel)))
       <==> AdditionsLand(row, sel, env) && IgnoredNamesHide(row, sel, env) && RemainingOffered(row, sel, env)
            && HiddenStays(row, sel, upstream, env)
  {
    var u, m := Normalize(upstream), StoredList(row, sel);
    SyncedFacts(row, sel, upstream, env);
    SurvivorsStored(row, sel, upstream, env);
    StoredListFacts(row, sel);
    if forall n :: n in u ==> (OfferedAfter(row, sel, env, n) <==> n in RemainingAdd(row, sel)) {
      forall n | n in Added(row, sel) || n in NewlyIgnored(row, sel) ensures n in m || Ignored(NextIgnored(row, sel), n, env.rx) {
        assert n in u && !OfferedAfter(row, sel, env, n);
      }
      forall n | n in RemainingAdd(row, sel) ensures n !in m && !Ignored(NextIgnored(row, sel), n, env.rx) {
        assert OfferedAfter(row, sel, env, n);
      }
      forall n | n in u && n !in m && n !in env.mapping.Values && Ignored(Normalize(row.ignored), n, env.rx)
        ensures Ignored(NextIgnored(row, sel), n, env.rx)
      {
        assert !OfferedAfter(row, sel, env, n);
      }
    }
  }

  /** A name upstream has and the stored list lacks was not in the old list either. */
  lemma SurvivorsStored(row: Row, sel: Selection, upstream: seq<string>, env: Env)
    requires Synced(row, upstream, env)
    ensures forall n :: n in Normalize(upstream) && n !in StoredList(row, sel) ==> n !in Local(row.models)
  {
    var r, l := Removed(row, sel), Local(row.models);
    SyncedFacts(row, sel, upstream, env);
    FilterMembers(l, n => n !in r);
    assert Survivors(row, sel) <= StoredList(row, sel) by { StoredListFacts(row, sel); }
    forall n | n in Normalize(upstream) && n in l ensures n in StoredList(row, sel) {
      assert n in Survivors(row, sel);
    }
  }

  /** Detection after the application offers exactly the remaining additions, if and only if the
      conditions on names and rules hold. */
  lemma AdditionsAgree(row: Row, sel: Selection, upstream: seq<string>, env: Env)
    requires Synced(row, upstream, env)
    ensures PendingAdd(StoredList(row, sel), upstream, NextIgnored(row, sel), env) == RemainingAdd(row, sel)
       <==> AdditionsLand(row, sel, env) && IgnoredNamesHide(row, sel, env) && RemainingOffered(row, sel, env)
            && HiddenStays(row, sel, upstream, env)
  {
    var u, m, rules := Normalize(upstream), StoredList(row, sel), NextIgnored(row, sel);
    StoredListFacts(row, sel);
    NextIgnoredNormal(row, sel);
    PendingFacts(m, upstream, rules, env);
    var offered := n => OfferedAfter(row, sel, env, n);
    var remains := n => n in RemainingAdd(row, sel);
    FilterSame(u, offered, n => n !in m && n !in env.mapping.Values && !Ignored(rules, n, env.rx));
    RemainingIsFilter(row, sel, upstream, env);
    FiltersEqual(u, offered, remains);
    OfferedIffRemaining(row, sel, upstream, env);
  }

  lemma FiltersEqual(xs: seq<string>, p: string -> bool, q: string -> bool)
    ensures Filter(xs, p) == Filter(xs, q) <==> forall x :: x in xs ==> (p(x) <==> q(x))
  {
    if Filter(xs, p) == Filter(xs, q) {
      FilterMembers(xs, p);
      FilterMembers(xs, q);
    } else if forall x :: x in xs ==> (p(x) <==> q(x)) {
      FilterSame(xs, p, q);
    }
  }

  lemma RemainingIsFilter(row: Row, sel: Selection, upstream: seq<string>, env: Env)
    requires Synced(row, upstream, env)
    ensures Filter(Normalize(upstream), n => n in RemainingAdd(row, sel)) == RemainingAdd(row, sel)
  {
    var u, l, rules := Normalize(upstream), Local(row.models), Normalize(row.ignored);
    var a, g := Added(row, sel), NewlyIgnored(row, sel);
    LocalFree(row.models);
    PendingFacts(l, upstream, row.ignored, env);
    NormalizeNormal(row.detected);
    SyncedFacts(row, sel, upstream, env);
    var before := n => n !in l && n !in env.mapping.Values && !Ignored(rules, n, env.rx);
    var unselected := n => n !in a && n !in g;
    FilterSame(u, before, n => n !in l && n !in env.mapping.Values && !Ignored(rules, n, env.rx));
    FilterSame(row.detected, unselected, n => n !in a && n !in g);
    FilterFilter(u, before, unselected, n => n in RemainingAdd(row, sel));
  }

  /** Detection after the application finds exactly the remaining removals, if and only if the
      stored list has no stray name. */
  lemma RemovalsAgree(row: Row, sel: Selection, upstream: seq<string>, env: Env)
    requires Synced(row, upstream, env)
    ensures PendingRemove(StoredList(row, sel), upstream, env) == RemainingRemove(row, sel) <==> NoStrays(row, sel, upstream, env)
  {
    StoredListFacts(row, sel);
    RemainingRemoveIsGone(row, sel, upstream, env);
    RemovalsOf(StoredList(row, sel), Survivors(row, sel), upstream, env);
  }

  lemma RemovalsOf(m: seq<string>, keep: seq<string>, upstream: seq<string>, env: Env)
    requires Normal(m) && keep <= m
    ensures var u := Normalize(upstream);
            PendingRemove(m, upstream, env) == Filter(keep, n => n !in env.mapping.Keys && n !in u)
            <==> forall n :: n in m ==> n in keep || n in u || n in env.mapping.Keys
  {
    var u := Normalize(upstream);
    var gone := n => n !in env.mapping.Keys && n !in u;
    assert PendingRemove(m, upstream, env) == Filter(m, gone) by {
      PendingFacts(m, upstream, [], env);
      FilterSame(m, gone, n => n !in env.mapping.Keys && n !in u);
    }
    FilterSame(keep, gone, n => n !in env.mapping.Keys && n !in u);
    assert m == keep + m[|keep|..];
    ExtraGone(keep, m[|keep|..], gone);
  }

  lemma ExtraGone(keep: seq<string>, extra: seq<string>, gone: string -> bool)
    requires NoDup(keep + extra)
    ensures Filter(keep + extra, gone) == Filter(keep, gone) <==> forall n :: n in keep + extra ==> n in keep || !gone(n)
  {
    FilterAppend(keep, extra, gone);
    FilterMembers(extra, gone);
    if forall n :: n in keep + extra ==> n in keep || !gone(n) {
      forall n | n in extra ensures !gone(n) { ExtraIsNew(keep, extra, n); }
      FilterNone(extra, gone);
    } else {
      var n :| n in keep + extra && n !in keep && gone(n);
      assert n in Filter(extra, gone);
    }
  }

  lemma ExtraIsNew(keep: seq<string>, extra: seq<string>, n: string)
    requires NoDup(keep + extra) && n in extra
    ensures n !in keep && n in keep + extra
  {
    var j :| 0 <= j < |extra| && extra[j] == n;
    forall i | 0 <= i < |keep| ensures keep[i] != n {
      assert (keep + extra)[i] != (keep + extra)[|keep| + j];
    }
  }

  lemma RemainingRemoveIsGone(row: Row, sel: Selection, upstream: seq<string>, env: Env)
    requires Synced(row, upstream, env)
    ensures var u := Normalize(upstream);
            RemainingRemove(row, sel) == Filter(Survivors(row, sel), n => n !in env.mapping.Keys && n !in u)
  {
    var l, u, r := Local(row.models), Normalize(upstream), Removed(row, sel);
    LocalFree(row.models);
    PendingFacts(l, upstream, row.ignored, env);
    NormalizeNormal(row.removed);
    var gone := n => n !in env.mapping.Keys && n !in u;
    var kept := n => n !in r;
    var both := n => gone(n) && kept(n);
    FilterFilter(l, kept, gone, both);
    FilterFilter(l, gone, kept, both);
  }

  /** Applying any selection to a row whose stored lists are up to date keeps them up to date, in
      order, exactly when the selection is agreeable: no condition on the names is assumed. */
  lemma ApplyKeepsSynced(row: Row, sel: Selection, now: int, upstream: seq<string>, env: Env)
    requires Synced(row, upstream, env)
    ensures Synced(Applied(row, sel, now), upstream, env) <==> Agreeable(row, sel, upstream, env)
  {
    StoredListIs(row, sel, now);
    AdditionsAgree(row, sel, upstream, env);
    RemovalsAgree(row, sel, upstream, env);
  }

  /** The list after a check added everything pending by itself. */
  lemma AutoAddSyncs(row: Row, upstream: seq<string>, env: Env)
    ensures var l := Local(row.models); var add := PendingAdd(l, upstream, row.ignored, env);
            PendingAdd(l + add, upstream, row.ignored, env) == []
            && PendingRemove(l + add, upstream, env) == PendingRemove(l, upstream, env)
  {
    var l := Local(row.models);
    var add := PendingAdd(l, upstream, row.ignored, env);
    LocalFree(row.models);
    MergePending(row, upstream, env);
    PendingFacts(l, upstream, row.ignored, env);
    PendingFacts(l + add, upstream, row.ignored, env);
    var again := PendingAdd(l + add, upstream, row.ignored, env);
    assert again == [] by { if again != [] { SomeMember(again); } }
    AutoAddKeepsRemovals(l, add, upstream, env);
  }

  lemma AutoAddKeepsRemovals(l: seq<string>, add: seq<string>, upstream: seq<string>, env: Env)
    requires Normal(l) && Normal(l + add) && forall n :: n in add ==> n in Normalize(upstream)
    ensures PendingRemove(l + add, upstream, env) == PendingRemove(l, upstream, env)
  {
    PendingFacts(l, upstream, [], env);
    PendingFacts(l + add, upstream, [], env);
    var u := Normalize(upstream);
    var gone := n => n !in env.mapping.Keys && n !in u;
    FilterAppend(l, add, gone);
    FilterNone(add, gone);
  }

  /** A check that stores its result leaves the stored lists up to date, exactly when it did not
      add a name with a comma by itself. */
  lemma CheckSyncs(row: Row, c: Check, env: Env)
    requires CheckResult(row, c, env).Checked?
    ensures var add := PendingAdd(Local(row.models), c.fetched.value, row.ignored, env);
            Synced(CheckedRow(row, c, env), c.fetched.value, env)
            <==> !(c.allowAuto && row.autoSync) || AllFree(add, ',')
  {
    var up, l := c.fetched.value, Local(row.models);
    var add := PendingAdd(l, up, row.ignored, env);
    if c.allowAuto && row.autoSync && add != [] {
      LocalFree(row.models);
      if AllFree(add, ',') {
        MergePending(row, up, env);
        StoreRoundTrip(l + add);
        AutoAddSyncs(row, up, env);
      } else {
        var n :| n in add && !Free(n, ',');
        var m := CheckedRow(row, c, env).models;
        PendingFacts(l, up, row.ignored, env);
        LocalFree(m);
        PendingFacts(Local(m), up, row.ignored, env);
        assert n in PendingAdd(Local(m), up, row.ignored, env);
      }
    }
  }

  // ----- whole runs against one upstream list -----

  /** Every row along a sequence of applications has up-to-date lists. */
  ghost predicate SyncedRun(row: Row, sels: seq<Selection>, now: int, upstream: seq<string>, env: Env)
    decreases |sels|
  {
    Synced(row, upstream, env) && (sels != [] ==> SyncedRun(Applied(row, sels[0], now), sels[1..], now, upstream, env))
  }

  /** Every selection is agreeable where it is applied. */
  ghost predicate AgreeableRun(row: Row, sels: seq<Selection>, now: int, upstream: seq<string>, env: Env)
    decreases |sels|
  {
    sels != [] ==> Agreeable(row, sels[0], upstream, env)
                   && AgreeableRun(Applied(row, sels[0], now), sels[1..], now, upstream, env)
  }

  /** Along every sequence of applications the stored lists are always equal to a fresh detection,
      exactly when every selection is agreeable where it is applied. */
  lemma {:induction false} RunKeepsSynced(row: Row, sels: seq<Selection>, now: int, upstream: seq<string>, env: Env)
    requires Synced(row, upstream, env)
    ensures SyncedRun(row, sels, now, upstream, env) <==> AgreeableRun(row, sels, now, upstream, env)
    decreases |sels|
  {
    if sels != [] {
      var after := Applied(row, sels[0], now);
      ApplyKeepsSynced(row, sels[0], now, upstream, env);
      if Synced(after, upstream, env) { RunKeepsSynced(after, sels[1..], now, upstream, env); }
    }
  }

  // ----- the condition for the common kinds of names -----

  predicate NoRegexName(names: seq<string>) {
    forall n :: n in names ==> !(REGEX_PREFIX <= n)
  }

  /** No name that was newly ignored and not added matches a remaining name as a rule. */
  ghost predicate NoNewRuleHides(row: Row, sel: Selection, env: Env) {
    forall rule, n :: rule in NewlyIgnored(row, sel) && rule !in Added(row, sel) && n in RemainingAdd(row, sel) ==>
      !RuleMatches(rule, n, env.rx)
  }

  /** Each name that was newly ignored and not added is hidden by some rule. */
  ghost predicate NewlyIgnoredHidden(row: Row, sel: Selection, env: Env) {
    forall n :: n in NewlyIgnored(row, sel) && n !in Added(row, sel) ==> Ignored(NextIgnored(row, sel), n, env.rx)
  }

  /** Without commas in the additions the condition is about rules alone: each name ignored and not
      added is hidden, no newly ignored name matches a remaining name as a rule, and no uncovered
      upstream name was hidden only by rules that were added as models. */
  lemma CommaFreeAgreeable(row: Row, sel: Selection, upstream: seq<string>, env: Env)
    requires Synced(row, upstream, env) && AllFree(Added(row, sel), ',')
    ensures Agreeable(row, sel, upstream, env)
       <==> NewlyIgnoredHidden(row, sel, env) && NoNewRuleHides(row, sel, env) && HiddenStays(row, sel, upstream, env)
  {
    assert AdditionsLand(row, sel, env) && NoStrays(row, sel, upstream, env) by { CommaFreeStores(row, sel, upstream, env); }
    assert RemainingOffered(row, sel, env) <==> NoNewRuleHides(row, sel, env) by { RemainingOfferedIff(row, sel, upstream, env); }
    assert IgnoredNamesHide(row, sel, env) <==> NewlyIgnoredHidden(row, sel, env) by {
      SyncedFacts(row, sel, upstream, env);
      CommaFreeStores(row, sel, upstream, env);
    }
  }

  lemma CommaFreeStores(row: Row, sel: Selection, upstream: seq<string>, env: Env)
    requires Synced(row, upstream, env) && AllFree(Added(row, sel), ',')
    ensures StoredList(row, sel) == NextModels(row, sel)
    ensures NoStrays(row, sel, upstream, env) && AdditionsLand(row, sel, env)
    ensures forall n :: n in row.detected ==> (n in StoredList(row, sel) <==> n in Added(row, sel))
  {
    var r := Removed(row, sel);
    SyncedFacts(row, sel, upstream, env);
    StoredListFacts(row, sel);
    NextModelsIsApplySelected(row, sel);
    FilterMembers(Local(row.models), n => n !in r);
  }

  lemma RemainingOfferedIff(row: Row, sel: Selection, upstream: seq<string>, env: Env)
    requires Synced(row, upstream, env) && AllFree(Added(row, sel), ',')
    ensures RemainingOffered(row, sel, env) <==> NoNewRuleHides(row, sel, env)
  {
    SyncedFacts(row, sel, upstream, env);
    CommaFreeStores(row, sel, upstream, env);
    NextIgnoredMembers(row, sel);
    if RemainingOffered(row, sel, env) {
      forall rule, n | rule in NewlyIgnored(row, sel) && rule !in Added(row, sel) && n in RemainingAdd(row, sel)
        ensures !RuleMatches(rule, n, env.rx)
      {
        assert rule in NextIgnored(row, sel);
      }
    }
  }

  /** When no selected name reads as a regex rule, the condition is that no added name contains a
      comma. */
  lemma PlainAgreeable(row: Row, sel: Selection, upstream: seq<string>, env: Env)
    requires Synced(row, upstream, env) && NoRegexName(Added(row, sel)) && NoRegexName(NewlyIgnored(row, sel))
    ensures Agreeable(row, sel, upstream, env) <==> AllFree(Added(row, sel), ',')
  {
    SyncedFacts(row, sel, upstream, env);
    NextIgnoredMembers(row, sel);
    if AllFree(Added(row, sel), ',') {
      CommaFreeAgreeable(row, sel, upstream, env);
      PlainRules(row, sel, env);
    } else {
      var n :| n in Added(row, sel) && !Free(n, ',');
      StoredListFacts(row, sel);
      assert n !in StoredList(row, sel) && !Ignored(NextIgnored(row, sel), n, env.rx);
    }
  }

  lemma PlainRules(row: Row, sel: Selection, env: Env)
    requires NoRegexName(Added(row, sel)) && NoRegexName(NewlyIgnored(row, sel))
    ensures forall n :: n in NewlyIgnored(row, sel) && n !in Added(row, sel) ==> Ignored(NextIgnored(row, sel), n, env.rx)
    ensures forall n :: n !in Added(row, sel) && Ignored(Normalize(row.ignored), n, env.rx) ==>
              Ignored(NextIgnored(row, sel), n, env.rx)
  {
    NextIgnoredMembers(row, sel);
    forall n | n in NewlyIgnored(row, sel) && n !in Added(row, sel) ensures Ignored(NextIgnored(row, sel), n, env.rx) {
      assert n in NextIgnored(row, sel) && RuleMatches(n, n, env.rx);
    }
    forall n | n !in Added(row, sel) && Ignored(Normalize(row.ignored), n, env.rx)
      ensures Ignored(NextIgnored(row, sel), n, env.rx)
    {
      var rule :| rule in Normalize(row.ignored) && RuleMatches(rule, n, env.rx);
      assert rule in NextIgnored(row, sel);
    }
  }

  /** Against an upstream list without commas and regex names, every sequence of selections keeps
      the stored lists equal to a fresh detection. */
  lemma {:induction false} PlainRunKeepsSynced(row: Row, sels: seq<Selection>, now: int, upstream: seq<string>, env: Env)
    requires Synced(row, upstream, env)
    requires NoRegexName(Normalize(upstream)) && AllFree(Normalize(upstream), ',')
    ensures SyncedRun(row, sels, now, upstream, env)
    decreases |sels|
  {
    if sels != [] {
      SyncedFacts(row, sels[0], upstream, env);
      PlainAgreeable(row, sels[0], upstream, env);
      ApplyKeepsSynced(row, sels[0], now, upstream, env);
      PlainRunKeepsSynced(Applied(row, sels[0], now), sels[1..], now, upstream, env);
    }
  }

  /** Applying everything pending empties both lists, and a new detection finds nothing, exactly
      when no pending name has a comma and no upstream name was hidden only by rules that are
      pending names themselves. */
  lemma ApplyEverythingReachesFixpoint(row: Row, now: int, upstream: seq<string>, env: Env)
    requires Synced(row, upstream, env)
    ensures var sel := Selection(row.detected, [], row.removed);
            var after := Applied(row, sel, now);
            after.detected == [] && after.removed == []
            && (Synced(after, upstream, env) <==> AllFree(row.detected, ',') && HiddenStays(row, sel, upstream, env))
  {
    var sel := Selection(row.detected, [], row.removed);
    EverythingSelected(row, upstream, env);
    SyncedFacts(row, sel, upstream, env);
    NextIgnoredMembers(row, sel);
    ApplyKeepsSynced(row, sel, now, upstream, env);
    StoredListFacts(row, sel);
    if AllFree(row.detected, ',') {
      CommaFreeAgreeable(row, sel, upstream, env);
    } else {
      var n :| n in row.detected && !Free(n, ',');
      assert n !in StoredList(row, sel) && !Ignored(NextIgnored(row, sel), n, env.rx);
    }
  }

  lemma EverythingSelected(row: Row, upstream: seq<string>, env: Env)
    requires Synced(row, upstream, env)
    ensures var sel := Selection(row.detected, [], row.removed);
            (forall n :: n in Added(row, sel) <==> n in row.detected) && NewlyIgnored(row, sel) == []
            && RemainingAdd(row, sel) == [] && RemainingRemove(row, sel) == []
  {
    var sel := Selection(row.detected, [], row.removed);
    SelectionNormal(row, sel);
    LocalFree(row.models);
    PendingFacts(Local(row.models), upstream, row.ignored, env);
    NormalizeNormal(row.detected);
    NormalizeNormal(row.removed);
    var a, g, r := Added(row, sel), NewlyIgnored(row, sel), Removed(row, sel);
    FilterNone(Normalize(row.detected), n => n !in a && n !in g);
    FilterNone(Normalize(row.removed), n => n !in r);
  }

  // ----- the ways a name can break the agreement -----

  /** An added name with a comma falls apart when stored: detection offers it again, unless a rule
      that was just added hides it. */
  lemma CommaAdditionReturns(row: Row, sel: Selection, upstream: seq<string>, env: Env, n: string)
    requires Synced(row, upstream, env) && n in Added(row, sel) && !Free(n, ',')
    ensures n in PendingAdd(StoredList(row, sel), upstream, NextIgnored(row, sel), env)
       <==> !Ignored(NextIgnored(row, sel), n, env.rx)
    ensures n !in RemainingAdd(row, sel)
  {
    SyncedFacts(row, sel, upstream, env);
    StoredListFacts(row, sel);
    NextIgnoredNormal(row, sel);
    PendingFacts(StoredList(row, sel), upstream, NextIgnored(row, sel), env);
  }

  /** Ignoring one name that reads as a regex rule keeps the agreement exactly when the pattern
      matches the name itself and no other pending name. */
  lemma IgnoringRegexName(row: Row, rule: string, now: int, upstream: seq<string>, env: Env)
    requires Synced(row, upstream, env) && rule in row.detected && REGEX_PREFIX <= rule
    ensures Synced(Applied(row, Selection([], [rule], []), now), upstream, env)
       <==> RuleMatches(rule, rule, env.rx) && forall n :: n in row.detected && n != rule ==> !RuleMatches(rule, n, env.rx)
  {
    var sel := Selection([], [rule], []);
    OneIgnored(row, rule, upstream, env);
    SyncedFacts(row, sel, upstream, env);
    NextIgnoredMembers(row, sel);
    ApplyKeepsSynced(row, sel, now, upstream, env);
    CommaFreeAgreeable(row, sel, upstream, env);
    assert forall n :: Ignored(Normalize(row.ignored), n, env.rx) ==> Ignored(NextIgnored(row, sel), n, env.rx);
    assert Ignored(NextIgnored(row, sel), rule, env.rx) <==> RuleMatches(rule, rule, env.rx);
  }

  lemma OneIgnored(row: Row, rule: string, upstream: seq<string>, env: Env)
    requires Synced(row, upstream, env) && rule in row.detected
    ensures var sel := Selection([], [rule], []);
            Added(row, sel) == [] && Removed(row, sel) == [] && forall n :: n in NewlyIgnored(row, sel) <==> n == rule
  {
    var sel := Selection([], [rule], []);
    PendingNormal(row, upstream, env);
    NormalizeOne(rule);
    NoneSelected(row.detected);
    NoneSelected(row.removed);
    assert forall n :: n in NewlyIgnored(row, sel) <==> n in [rule] && n in row.detected by { SelectionNormal(row, sel); }
  }

  /** Every uncovered upstream name that the rules hide is hidden by a rule other than this one. */
  ghost predicate HiddenByOthers(row: Row, name: string, upstream: seq<string>, env: Env) {
    forall n :: (n in Normalize(upstream) && n !in Local(row.models) && n !in env.mapping.Values && n != name
                 && Ignored(Normalize(row.ignored), n, env.rx)) ==> HiddenByOther(row, name, env, n)
  }

  ghost predicate HiddenByOther(row: Row, name: string, env: Env, n: string) {
    exists rule :: rule in Normalize(row.ignored) && rule != name && RuleMatches(rule, n, env.rx)
  }

  /** Adding one pending name keeps the agreement exactly when the name has no comma and, where it
      also sits in the ignore list as a rule, no uncovered upstream name was hidden by it alone. */
  lemma AddingOneName(row: Row, name: string, now: int, upstream: seq<string>, env: Env)
    requires Synced(row, upstream, env) && name in row.detected
    ensures Synced(Applied(row, Selection([name], [], []), now), upstream, env)
       <==> Free(name, ',') && HiddenByOthers(row, name, upstream, env)
  {
    var sel := Selection([name], [], []);
    ApplyKeepsSynced(row, sel, now, upstream, env);
    OneAdded(row, name, upstream, env);
    if Free(name, ',') {
      assert AllFree(Added(row, sel), ',');
      CommaFreeAgreeable(row, sel, upstream, env);
      assert NewlyIgnoredHidden(row, sel, env) && NoNewRuleHides(row, sel, env);
      HiddenStaysByOthers(row, name, upstream, env);
    } else {
      CommaNameUnhidden(row, name, upstream, env);
    }
  }

  lemma HiddenStaysByOthers(row: Row, name: string, upstream: seq<string>, env: Env)
    requires Synced(row, upstream, env) && name in row.detected && Free(name, ',')
    ensures HiddenStays(row, Selection([name], [], []), upstream, env) <==> HiddenByOthers(row, name, upstream, env)
  {
    var sel := Selection([name], [], []);
    OneAdded(row, name, upstream, env);
    NextIgnoredMembers(row, sel);
    forall n ensures Ignored(NextIgnored(row, sel), n, env.rx) <==> HiddenByOther(row, name, env, n) {
      if Ignored(NextIgnored(row, sel), n, env.rx) {
        var rule :| rule in NextIgnored(row, sel) && RuleMatches(rule, n, env.rx);
      }
      if HiddenByOther(row, name, env, n) {
        var rule :| rule in Normalize(row.ignored) && rule != name && RuleMatches(rule, n, env.rx);
        assert rule in NextIgnored(row, sel);
      }
    }
    assert forall n :: n in StoredList(row, sel) <==> n in Local(row.models) || n == name by {
      assert AllFree(Added(row, sel), ',');
      CommaFreeStores(row, sel, upstream, env);
      NextModelsIsApplySelected(row, sel);
    }
  }

  lemma CommaNameUnhidden(row: Row, name: string, upstream: seq<string>, env: Env)
    requires Synced(row, upstream, env) && name in row.detected && !Free(name, ',')
    ensures !Agreeable(row, Selection([name], [], []), upstream, env)
  {
    var sel := Selection([name], [], []);
    OneAdded(row, name, upstream, env);
    SyncedFacts(row, sel, upstream, env);
    StoredListFacts(row, sel);
    NextIgnoredMembers(row, sel);
    assert name in Added(row, sel) && name !in StoredList(row, sel) && !Ignored(NextIgnored(row, sel), name, env.rx);
  }

  lemma PendingNormal(row: Row, upstream: seq<string>, env: Env)
    requires Synced(row, upstream, env)
    ensures Normal(row.detected) && Normalize(row.detected) == row.detected
  {
    LocalFree(row.models);
    PendingFacts(Local(row.models), upstream, row.ignored, env);
    NormalizeNormal(row.detected);
  }

  lemma NormalizeOne(name: string)
    requires name != "" && Trimmed(name)
    ensures Normalize([name]) == [name]
  {
    NormalizeNormal([name]);
  }

  lemma NoneSelected(pending: seq<string>)
    ensures Normalize([]) == [] && Intersect([], pending) == []
  {
  }

  lemma OneAdded(row: Row, rule: string, upstream: seq<string>, env: Env)
    requires Synced(row, upstream, env) && rule in row.detected
    ensures var sel := Selection([rule], [], []);
            NewlyIgnored(row, sel) == [] && Removed(row, sel) == [] && forall n :: n in Added(row, sel) <==> n == rule
  {
    var sel := Selection([rule], [], []);
    PendingNormal(row, upstream, env);
    NormalizeOne(rule);
    NoneSelected(row.detected);
    NoneSelected(row.removed);
    assert forall n :: n in Added(row, sel) <==> n in [rule] && n in row.detected by { SelectionNormal(row, sel); }
  }

  // ----- conservation of one application -----

  /** Pending additions split into added, ignored but not added, and remaining; pending removals
      into removed and remaining; the new list has no duplicates. */
  lemma ApplyConserves(row: Row, sel: Selection)
    ensures var a, g := Added(row, sel), NewlyIgnored(row, sel);
            multiset(Normalize(row.detected))
            == multiset(a) + multiset(Filter(g, n => n !in a)) + multiset(RemainingAdd(row, sel))
    ensures multiset(Normalize(row.removed)) == multiset(Removed(row, sel)) + multiset(RemainingRemove(row, sel))
    ensures NoDup(NextModels(row, sel))
  {
    NextModelsIsApplySelected(row, sel);
    SelectionNormal(row, sel);
    NormalizeNormal(row.detected);
    NormalizeNormal(row.removed);
    SplitInThree(Normalize(row.detected), Added(row, sel), NewlyIgnored(row, sel));
    SplitInTwo(Normalize(row.removed), Removed(row, sel));
  }

  lemma SplitInTwo(d: seq<string>, a: seq<string>)
    requires NoDup(d) && NoDup(a) && forall n :: n in a ==> n in d
    ensures multiset(d) == multiset(a) + multiset(Filter(d, n => n !in a))
  {
    var rest := Filter(d, n => n !in a);
    FilterNoDup(d, n => n !in a);
    FilterMembers(d, n => n !in a);
    NoDupAppend(a, rest);
    NoDupSameMembers(d, a + rest);
  }

  lemma SplitInThree(d: seq<string>, a: seq<string>, g: seq<string>)
    requires NoDup(d) && NoDup(a) && NoDup(g)
    requires forall n :: n in a || n in g ==> n in d
    ensures multiset(d) == multiset(a) + multiset(Filter(g, n => n !in a))
                           + multiset(Filter(d, n => n !in a && n !in g))
  {
    var only := Filter(g, n => n !in a);
    FilterNoDup(g, n => n !in a);
    FilterMembers(g, n => n !in a);
    NoDupAppend(a, only);
    SplitInTwo(d, a + only);
    FilterSame(d, n => n !in a + only, n => n !in a && n !in g);
  }

  // ----- redirect sources over every run -----

  datatype Op = DoApply(sel: Selection, now: int) | DoCheck(check: Check)

  ghost function Step(row: Row, op: Op, env: Env): Row {
    match op
    case DoApply(sel, now) => Applied(row, sel, now)
    case DoCheck(c) => CheckedRow(row, c, env)
  }

  ghost function Run(row: Row, ops: seq<Op>, env: Env): Row
    decreases |ops|
  {
    if ops == [] then row else Run(Step(row, ops[0], env), ops[1..], env)
  }

  /** No redirect source is staged for removal. */
  ghost predicate SourcesSafe(row: Row, env: Env) {
    forall n :: n in Normalize(row.removed) ==> n !in env.mapping.Keys
  }

  lemma StepKeepsSources(row: Row, op: Op, env: Env)
    requires SourcesSafe(row, env)
    ensures var after := Step(row, op, env);
            SourcesSafe(after, env)
            && forall s :: s in env.mapping.Keys && s in Local(row.models) ==> s in Local(after.models)
  {
    var after := Step(row, op, env);
    var l := Local(row.models);
    LocalFree(row.models);
    match op
    case DoApply(sel, now) =>
      SelectionNormal(row, sel);
      NextModelsIsApplySelected(row, sel);
      var r := Removed(row, sel);
      NormalizeNormal(row.removed);
      NormalFilter(Normalize(row.removed), n => n !in r);
      FilterMembers(Normalize(row.removed), n => n !in r);
      forall s | s in env.mapping.Keys && s in l ensures s in Local(after.models) {
        assert Free(s, ',');
        if NextModels(row, sel) != l { StoreKeeps(NextModels(row, sel), s); }
      }
    case DoCheck(c) =>
      if !TooSoon(row, c) && c.storeOk && c.fetched.Some? {
        PendingFacts(l, c.fetched.value, row.ignored, env);
        NormalizeNormal(after.removed);
        MergePending(row, c.fetched.value, env);
        var add := PendingAdd(l, c.fetched.value, row.ignored, env);
        forall s | s in env.mapping.Keys && s in l ensures s in Local(after.models) {
          assert Free(s, ',');
          if after.models != row.models { StoreKeeps(l + add, s); }
        }
      }
  }

  /** Over every run of checks (against any upstream lists) and applications, with a fixed
      mapping, a redirect source in the model list stays in it. */
  lemma {:induction false} RunKeepsRedirectSources(row: Row, ops: seq<Op>, env: Env, s: string)
    requires SourcesSafe(row, env)
    requires s in env.mapping.Keys && s in Local(row.models)
    ensures s in Local(Run(row, ops, env).models)
    decreases |ops|
  {
    if ops != [] {
      StepKeepsSources(row, ops[0], env);
      RunKeepsRedirectSources(Step(row, ops[0], env), ops[1..], env, s);
    }
  }

  // ----- what a run reports -----

  /** One channel of a scheduled run: its row, environment and check. */
  datatype Job = Job(row: Row, env: Env, check: Check)

  /** The additions and removals the run counts for a channel, if it counts it. */
  ghost function Counted(job: Job): (int, int) {
    var after := CheckedRow(job.row, job.check, job.env);
    var out := CheckResult(job.row, job.check, job.env);
    if out.Skipped? || out.Checked? then
      (|Normalize(after.detected)| + (if out.Checked? then out.autoAdded else 0), |Normalize(after.removed)|)
    else (0, 0)
  }

  ghost function Sum(counts: seq<(int, int)>): (int, int) {
    if counts == [] then (0, 0)
    else var t := Sum(counts[1..]); (counts[0].0 + t.0, counts[0].1 + t.1)
  }

  ghost function Totals(jobs: seq<Job>): (int, int) {
    Sum(seq(|jobs|, i requires 0 <= i < |jobs| => Counted(jobs[i])))
  }

  /** Auto-added plus staged additions is the number of pending additions, however they split. */
  lemma CheckCountsPending(job: Job)
    requires CheckResult(job.row, job.check, job.env).Checked?
    ensures var l := Local(job.row.models);
            Counted(job) == (|PendingAdd(l, job.check.fetched.value, job.row.ignored, job.env)|,
                             |PendingRemove(l, job.check.fetched.value, job.env)|)
  {
    var l, up := Local(job.row.models), job.check.fetched.value;
    PendingFixed(l, up, job.row.ignored, job.env);
    CountedStored(job, PendingAdd(l, up, job.row.ignored, job.env), PendingRemove(l, up, job.env));
  }

  lemma CountedStored(job: Job, add: seq<string>, remove: seq<string>)
    requires CheckedRow(job.row, job.check, job.env) == StoredRow(job.row, job.check, add, remove)
    requires CheckResult(job.row, job.check, job.env) == StoredResult(job.row, job.check, add)
    requires CheckResult(job.row, job.check, job.env).Checked? && Normalize(add) == add && Normalize(remove) == remove
    ensures Counted(job) == (|add|, |remove|)
  {
  }

  lemma PendingFixed(local: seq<string>, upstream: seq<string>, ignored: seq<string>, env: Env)
    ensures var add := PendingAdd(local, upstream, ignored, env); Normalize(add) == add
    ensures var remove := PendingRemove(local, upstream, env); Normalize(remove) == remove
  {
    NormalizeNormal(PendingAdd(local, upstream, ignored, env));
    NormalizeNormal(PendingRemove(local, upstream, env));
    var l, rules, u := Normalize(local), Normalize(ignored), Normalize(upstream);
    NormalizeNormal(Filter(u, n => n !in l && n !in env.mapping.Values && !Ignored(rules, n, env.rx)));
    NormalizeNormal(Filter(l, n => n !in env.mapping.Keys && n !in u));
  }

  /** A skipped channel counts with the lists stored before, a failed one not at all. */
  lemma CountedOtherwise(job: Job)
    ensures CheckResult(job.row, job.check, job.env).Skipped? ==>
              Counted(job) == (|Normalize(job.row.detected)|, |Normalize(job.row.removed)|)
    ensures !CheckResult(job.row, job.check, job.env).Skipped? && !CheckResult(job.row, job.check, job.env).Checked? ==>
              Counted(job) == (0, 0)
  {
  }

  /** The totals add up the channels, one by one. */
  lemma TotalsAddUp(jobs: seq<Job>, job: Job)
    ensures Totals([]) == (0, 0)
    ensures Totals([job] + jobs) == (Counted(job).0 + Totals(jobs).0, Counted(job).1 + Totals(jobs).1)
  {
    var all := [job] + jobs;
    var counts := seq(|all|, i requires 0 <= i < |all| => Counted(all[i]));
    assert counts[1..] == seq(|jobs|, i requires 0 <= i < |jobs| => Counted(jobs[i]));
  }

  function WithAuto(job: Job, allowAuto: bool, autoSync: bool): Job {
    job.(row := job.row.(autoSync := autoSync), check := job.check.(allowAuto := allowAuto))
  }

  function WithAutoAll(jobs: seq<Job>, allowAuto: bool, autoSync: seq<bool>): seq<Job>
    requires |jobs| == |autoSync|
  {
    seq(|jobs|, i requires 0 <= i < |jobs| => WithAuto(jobs[i], allowAuto, autoSync[i]))
  }

  lemma CountedIgnoresAutoSync(job: Job, allowAuto: bool, autoSync: bool)
    requires job.check.abilitiesOk
    ensures Counted(WithAuto(job, allowAuto, autoSync)) == Counted(job)
  {
    var other := WithAuto(job, allowAuto, autoSync);
    if CheckResult(job.row, job.check, job.env).Checked? {
      CheckCountsPending(job);
      CheckCountsPending(other);
    }
  }

  /** A run's totals do not depend on whether auto-sync was allowed or switched on anywhere. */
  lemma TotalsIgnoreAutoSync(jobs: seq<Job>, allowAuto: bool, autoSync: seq<bool>)
    requires |jobs| == |autoSync|
    requires forall i :: 0 <= i < |jobs| ==> jobs[i].check.abilitiesOk
    ensures Totals(WithAutoAll(jobs, allowAuto, autoSync)) == Totals(jobs)
  {
    var other := WithAutoAll(jobs, allowAuto, autoSync);
    forall i | 0 <= i < |jobs| ensures Counted(other[i]) == Counted(jobs[i]) {
      CountedIgnoresAutoSync(jobs[i], allowAuto, autoSync[i]);
    }
    assert seq(|other|, i requires 0 <= i < |other| => Counted(other[i]))
        == seq(|jobs|, i requires 0 <= i < |jobs| => Counted(jobs[i]));
  }
}
