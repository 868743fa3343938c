/** Upstream model reconciliation (controller/channel_upstream_update.go): detection computes the
    pending additions and removals of a channel, applying a selection stores what remains of them,
    and the stored lists have to agree with a fresh detection. */
module UpstreamUpdate {
  import opened Common
  import opened Text
  import opened Lists
  import opened ModelNames

  /** What detection reads besides the channel row: the normalized redirect mapping and the
      regular-expression matcher, which answers false for a pattern that does not compile. */
  datatype Env = Env(mapping: map<string, string>, rx: (string, string) -> bool)

  /** The columns of a channel row that reconciliation reads or writes. */
  datatype Row = Row(models: string, ignored: seq<string>, detected: seq<string>,
                     removed: seq<string>, lastCheck: int, autoSync: bool)

  const REGEX_PREFIX := "regex:"

  /** channel.GetModels followed by normalization. */
  function Local(models: string): seq<string> {
    Normalize(Fields(models, ','))
  }

  // ----- detection -----

  predicate RuleMatches(rule: string, name: string, rx: (string, string) -> bool) {
    if REGEX_PREFIX <= rule then rx(TrimSpace(rule[|REGEX_PREFIX|..]), name) else rule == name
  }

  /** A rule written as "regex:" and a pattern asks the matcher about the trimmed pattern; any other
      rule hides the name it is, and no other. */
  lemma RuleMeaning(rule: string, pattern: string, name: string, rx: (string, string) -> bool)
    ensures RuleMatches("regex:" + pattern, name, rx) <==> rx(TrimSpace(pattern), name)
    ensures (forall p :: rule != "regex:" + p) ==> (RuleMatches(rule, name, rx) <==> rule == name)
  {
    assert ("regex:" + pattern)[6..] == pattern;
    if REGEX_PREFIX <= rule { assert rule == "regex:" + rule[6..]; }
  }

  predicate Ignored(rules: seq<string>, name: string, rx: (string, string) -> bool) {
    exists rule :: rule in rules && RuleMatches(rule, name, rx)
  }

  function PendingAdd(local: seq<string>, upstream: seq<string>, ignored: seq<string>, env: Env): seq<string> {
    var l := Normalize(local);
    var rules := Normalize(ignored);
    Normalize(Filter(Normalize(upstream),
                     n => n !in l && n !in env.mapping.Values && !Ignored(rules, n, env.rx)))
  }

  function PendingRemove(local: seq<string>, upstream: seq<string>, env: Env): seq<string> {
    var u := Normalize(upstream);
    Normalize(Filter(Normalize(local), n => n !in env.mapping.Keys && n !in u))
  }

  /** The stored lists are exactly what detection would compute now. */
  ghost predicate Synced(row: Row, upstream: seq<string>, env: Env) {
    row.detected == PendingAdd(Local(row.models), upstream, row.ignored, env)
    && row.removed == PendingRemove(Local(row.models), upstream, env)
  }

  // ----- what applying a selection means -----

  datatype Selection = Selection(add: seq<string>, ignore: seq<string>, remove: seq<string>)

  function Added(row: Row, sel: Selection): seq<string> {
    Intersect(sel.add, row.detected)
  }

  function NewlyIgnored(row: Row, sel: Selection): seq<string> {
    Intersect(sel.ignore, row.detected)
  }

  function Removed(row: Row, sel: Selection): seq<string> {
    Subtract(Intersect(sel.remove, row.removed), Added(row, sel))
  }

  /** Surviving originals in order, then the additions that were not there yet. */
  ghost function NextModels(row: Row, sel: Selection): seq<string> {
    var a, r, l := Added(row, sel), Removed(row, sel), Local(row.models);
    Filter(l, n => n !in r) + Filter(a, n => n !in l)
  }

  ghost function NextIgnored(row: Row, sel: Selection): seq<string> {
    var a, g, i := Added(row, sel), NewlyIgnored(row, sel), Normalize(row.ignored);
    Filter(i + Filter(g, n => n !in i), n => n !in a)
  }

  ghost function RemainingAdd(row: Row, sel: Selection): seq<string> {
    var a, g := Added(row, sel), NewlyIgnored(row, sel);
    Filter(Normalize(row.detected), n => n !in a && n !in g)
  }

  ghost function RemainingRemove(row: Row, sel: Selection): seq<string> {
    var r := Removed(row, sel);
    Filter(Normalize(row.removed), n => n !in r)
  }

  ghost function Applied(row: Row, sel: Selection, now: int): Row {
    WithLists(row, NextModels(row, sel), NextIgnored(row, sel), RemainingAdd(row, sel), RemainingRemove(row, sel), now)
  }

  /** The row with new lists; an unchanged model list keeps its text. */
  function WithLists(row: Row, next: seq<string>, ignored: seq<string>, add: seq<string>, remove: seq<string>, now: int): Row {
    Row(if next == Local(row.models) then row.models else Join(next, ','), ignored, add, remove, now, row.autoSync)
  }

  // ----- what a check means -----

  datatype Check = Check(force: bool, allowAuto: bool, minInterval: int, now: int,
                         fetched: Option<seq<string>>, storeOk: bool, abilitiesOk: bool)

  datatype CheckOutcome =
    | Skipped
    | FetchFailed
    | StoreFailed
    | Checked(modelsChanged: bool, autoAdded: nat)
    | AbilitiesFailed(autoAddedBefore: nat)

  predicate TooSoon(row: Row, c: Check) {
    !c.force && row.lastCheck > 0 && c.now - row.lastCheck < c.minInterval
  }

  /** An unforced check is skipped exactly while the last one is younger than the interval; a row
      never checked, and a forced check, never are. */
  lemma SkippedExactly(row: Row, c: Check, env: Env)
    ensures CheckResult(row, c, env).Skipped?
       <==> !c.force && row.lastCheck >= 1 && c.now < row.lastCheck + c.minInterval
  {
  }

  predicate AutoAdds(row: Row, c: Check, add: seq<string>) {
    c.allowAuto && row.autoSync && add != []
  }

  /** The row a check stores when it found these pending lists. */
  function StoredRow(row: Row, c: Check, add: seq<string>, remove: seq<string>): Row {
    var auto := AutoAdds(row, c, add);
    row.(models := if auto then Join(Local(row.models) + add, ',') else row.models,
         detected := if auto then [] else add, removed := remove, lastCheck := c.now)
  }

  function StoredResult(row: Row, c: Check, add: seq<string>): CheckOutcome {
    if !AutoAdds(row, c, add) then Checked(false, 0)
    else if c.abilitiesOk then Checked(true, |add|)
    else AbilitiesFailed(|add|)
  }

  /** The row after a check: as it was when the check is skipped or cannot be stored. */
  function CheckedRow(row: Row, c: Check, env: Env): Row {
    if TooSoon(row, c) || !c.storeOk then row
    else if c.fetched.None? then row.(lastCheck := c.now)
    else
      var l, up := Local(row.models), c.fetched.value;
      StoredRow(row, c, PendingAdd(l, up, row.ignored, env), PendingRemove(l, up, env))
  }

  function CheckResult(row: Row, c: Check, env: Env): CheckOutcome {
    if TooSoon(row, c) then Skipped
    else if !c.storeOk then StoreFailed
    else if c.fetched.None? then FetchFailed
    else StoredResult(row, c, PendingAdd(Local(row.models), c.fetched.value, row.ignored, env))
  }

  datatype ApplyOutcome =
    | NotStored
    | Stored(added: seq<string>, removed: seq<string>, remaining: seq<string>,
             remainingRemove: seq<string>, modelsChanged: bool, abilitiesFailed: bool)

  /** A stored channel row. A database failure leaves it as it was. */
  class Channel {
    var models: string
    var ignored: seq<string>
    var detected: seq<string>
    var removed: seq<string>
    var lastCheck: int
    var autoSync: bool

    function State(): Row
      reads this
    {
      Row(models, ignored, detected, removed, lastCheck, autoSync)
    }

    /** applyChannelUpstreamModelUpdates. */
    method Apply(sel: Selection, now: int, storeOk: bool, abilitiesOk: bool) returns (out: ApplyOutcome)
      modifies this
      ensures !storeOk ==> out == NotStored && State() == old(State())
      ensures storeOk ==> State() == Applied(old(State()), sel, now)
      ensures storeOk ==>
                var row := old(State()); var changed := NextModels(row, sel) != Local(row.models);
                out == Stored(Added(row, sel), Removed(row, sel), RemainingAdd(row, sel),
                              RemainingRemove(row, sel), changed, changed && !abilitiesOk)
    {
      var add, remove, next, merged, remaining, remainingRemove := Resolve(sel);
      if !storeOk { return NotStored; }
      var changed := Write(next, merged, remaining, remainingRemove, now);
      out := Stored(add, remove, remaining, remainingRemove, changed, changed && !abilitiesOk);
    }

    method Write(next: seq<string>, merged: seq<string>, remaining: seq<string>, remainingRemove: seq<string>, now: int)
      returns (changed: bool)
      modifies this
      ensures State() == WithLists(old(State()), next, merged, remaining, remainingRemove, now)
      ensures changed == (next != Local(old(models)))
    {
      changed := Local(models) != next;
      if changed { models := Join(next, ','); }
      ignored, detected, removed, lastCheck := merged, remaining, remainingRemove, now;
    }

    /** The new lists, computed step by step before anything is written. */
    method Resolve(sel: Selection)
      returns (add: seq<string>, remove: seq<string>, next: seq<string>, merged: seq<string>,
               remaining: seq<string>, remainingRemove: seq<string>)
      ensures add == Added(State(), sel) && remove == Removed(State(), sel) && next == NextModels(State(), sel)
      ensures merged == NextIgnored(State(), sel)
      ensures remaining == RemainingAdd(State(), sel) && remainingRemove == RemainingRemove(State(), sel)
    {
      ghost var row := State();
      PendingTwiceNormal(row, sel);
      var pendingAdd := Normalize(detected);
      var pendingRemove := Normalize(removed);
      add := Intersect(sel.add, pendingAdd);
      var ignore := Intersect(sel.ignore, pendingAdd);
      remove := Intersect(sel.remove, pendingRemove);
      remove := Subtract(remove, add);

      next := ApplySelected(Local(models), add, remove);
      NextModelsIsApplySelected(row, sel);
      merged := MergeModelNames(ignored, ignore);
      if |add| > 0 {
        merged := Subtract(merged, add);
      }
      NextIgnoredSteps(row, sel);
      remaining := Subtract(pendingAdd, add + ignore);
      remainingRemove := Subtract(pendingRemove, remove);
      RemainingSteps(row, sel);
    }

    /** checkAndPersistChannelUpstreamModelUpdates. */
    method CheckAndPersist(c: Check, env: Env) returns (out: CheckOutcome)
      modifies this
      ensures State() == CheckedRow(old(State()), c, env)
      ensures out == CheckResult(old(State()), c, env)
    {
      if !c.force {
        if lastCheck > 0 && c.now - lastCheck < c.minInterval { return Skipped; }
      }
      if c.fetched.None? {
        if !c.storeOk { return StoreFailed; }
        lastCheck := c.now;
        return FetchFailed;
      }
      var l, up := Local(models), c.fetched.value;
      var pendingAdd, pendingRemove := PendingAdd(l, up, ignored, env), PendingRemove(l, up, env);
      assert Merge(l, pendingAdd) == l + pendingAdd by { MergePending(State(), up, env); }
      if !c.storeOk { return StoreFailed; }
      out := StoreLists(c, pendingAdd, pendingRemove);
    }

    /** The second half of the check: add by itself what it may, stage the rest. */
    method StoreLists(c: Check, pendingAdd: seq<string>, pendingRemove: seq<string>) returns (out: CheckOutcome)
      requires Merge(Local(models), pendingAdd) == Local(models) + pendingAdd
      modifies this
      ensures State() == StoredRow(old(State()), c, pendingAdd, pendingRemove)
      ensures out == StoredResult(old(State()), c, pendingAdd)
    {
      var autoAdded: nat, modelsChanged := 0, false;
      detected := pendingAdd;
      if c.allowAuto && autoSync && |pendingAdd| > 0 {
        var origin := Local(models);
        var merged := MergeModelNames(origin, pendingAdd);
        if |merged| > |origin| {
          models := Join(merged, ',');
          autoAdded := |merged| - |origin|;
          modelsChanged := true;
        }
        detected := [];
      }
      removed, lastCheck := pendingRemove, c.now;
      if modelsChanged && !c.abilitiesOk { return AbilitiesFailed(autoAdded); }
      out := Checked(modelsChanged, autoAdded);
    }
  }

  // ----- the source's steps against the meanings above -----

  lemma SelectionNormal(row: Row, sel: Selection)
    ensures Normal(Added(row, sel)) && Normal(NewlyIgnored(row, sel)) && Normal(Removed(row, sel))
    ensures forall n :: n in Added(row, sel) <==> n in Normalize(sel.add) && n in Normalize(row.detected)
    ensures forall n :: n in NewlyIgnored(row, sel) <==> n in Normalize(sel.ignore) && n in Normalize(row.detected)
    ensures forall n :: n in Removed(row, sel) <==>
              n in Normalize(sel.remove) && n in Normalize(row.removed) && n !in Added(row, sel)
  {
    var d, q := Normalize(row.detected), Normalize(row.removed);
    NormalizeNormal(sel.add);
    NormalizeNormal(sel.ignore);
    NormalizeNormal(sel.remove);
    NormalFilter(Normalize(sel.add), n => n in d);
    FilterMembers(Normalize(sel.add), n => n in d);
    NormalFilter(Normalize(sel.ignore), n => n in d);
    FilterMembers(Normalize(sel.ignore), n => n in d);
    NormalFilter(Normalize(sel.remove), n => n in q);
    FilterMembers(Normalize(sel.remove), n => n in q);
    var both := Intersect(sel.remove, row.removed);
    var a := Added(row, sel);
    NormalizeNormal(a);
    NormalFilter(both, n => n !in a);
    FilterMembers(both, n => n !in a);
  }

  lemma PendingTwiceNormal(row: Row, sel: Selection)
    ensures Intersect(sel.add, Normalize(row.detected)) == Added(row, sel)
    ensures Intersect(sel.ignore, Normalize(row.detected)) == NewlyIgnored(row, sel)
    ensures Intersect(sel.remove, Normalize(row.removed)) == Intersect(sel.remove, row.removed)
  {
    NormalizeNormal(row.detected);
    NormalizeNormal(row.removed);
    NormalizeNormal(Normalize(row.detected));
    NormalizeNormal(Normalize(row.removed));
  }

  lemma NextModelsIsApplySelected(row: Row, sel: Selection)
    ensures ApplySelected(Local(row.models), Added(row, sel), Removed(row, sel)) == NextModels(row, sel)
    ensures Normal(NextModels(row, sel))
    ensures forall n :: n in NextModels(row, sel) <==>
              (n in Local(row.models) && n !in Removed(row, sel)) || n in Added(row, sel)
  {
    var a, r, l := Added(row, sel), Removed(row, sel), Local(row.models);
    SelectionNormal(row, sel);
    NormalizeNormal(Fields(row.models, ','));
    ApplySelectedMeaning(l, a, r);
    FilterSame(l, n => n in a || n !in r, n => n !in r);
    NormalFilter(l, n => n !in r);
    NormalFilter(a, n => n !in l);
    FilterMembers(l, n => n !in r);
    FilterMembers(a, n => n !in l);
    NoDupAppend(Filter(l, n => n !in r), Filter(a, n => n !in l));
  }

  lemma NextIgnoredSteps(row: Row, sel: Selection)
    ensures var merged := Merge(row.ignored, NewlyIgnored(row, sel)); var a := Added(row, sel);
            NextIgnored(row, sel) == if |a| > 0 then Subtract(merged, a) else merged
  {
    var a, g := Added(row, sel), NewlyIgnored(row, sel);
    SelectionNormal(row, sel);
    NormalizeNormal(a);
    NormalizeNormal(g);
    MergeNormal(row.ignored, g);
    NormalizeNormal(Merge(row.ignored, g));
    if |a| == 0 { FilterAll(Merge(row.ignored, g), n => n !in a); }
  }

  lemma RemainingSteps(row: Row, sel: Selection)
    ensures Subtract(Normalize(row.detected), Added(row, sel) + NewlyIgnored(row, sel)) == RemainingAdd(row, sel)
    ensures Subtract(Normalize(row.removed), Removed(row, sel)) == RemainingRemove(row, sel)
  {
    var a, g, r := Added(row, sel), NewlyIgnored(row, sel), Removed(row, sel);
    SelectionNormal(row, sel);
    NormalizeNormal(row.detected);
    NormalizeNormal(row.removed);
    NormalizeNormal(Normalize(row.detected));
    NormalizeNormal(Normalize(row.removed));
    NormalizeNormal(r);
    var both := Normalize(a + g);
    TrimNonBlankFixes(a + g);
    UniqMembers(a + g);
    FilterSame(Normalize(row.detected), n => n !in both, n => n !in a && n !in g);
  }

  lemma PendingFacts(local: seq<string>, upstream: seq<string>, ignored: seq<string>, env: Env)
    requires Normal(local)
    ensures Normal(PendingAdd(local, upstream, ignored, env)) && Normal(PendingRemove(local, upstream, env))
    ensures var rules := Normalize(ignored);
            PendingAdd(local, upstream, ignored, env)
            == Filter(Normalize(upstream),
                      n => n !in local && n !in env.mapping.Values && !Ignored(rules, n, env.rx))
    ensures var u := Normalize(upstream);
            PendingRemove(local, upstream, env) == Filter(local, n => n !in env.mapping.Keys && n !in u)
    ensures forall n :: n in PendingAdd(local, upstream, ignored, env) <==>
              n in Normalize(upstream) && n !in local && n !in env.mapping.Values
              && !Ignored(Normalize(ignored), n, env.rx)
    ensures forall n :: n in PendingRemove(local, upstream, env) <==>
              n in local && n !in env.mapping.Keys && n !in Normalize(upstream)
  {
    var rules, u := Normalize(ignored), Normalize(upstream);
    NormalizeNormal(local);
    NormalizeNormal(upstream);
    var p := n => n !in local && n !in env.mapping.Values && !Ignored(rules, n, env.rx);
    var q := n => n !in env.mapping.Keys && n !in u;
    NormalFilter(u, p);
    NormalFilter(local, q);
    FilterMembers(u, p);
    FilterMembers(local, q);
    FilterSame(u, p, n => n !in local && n !in env.mapping.Values && !Ignored(rules, n, env.rx));
    FilterSame(local, q, n => n !in env.mapping.Keys && n !in u);
  }

  lemma MergePending(row: Row, upstream: seq<string>, env: Env)
    ensures var l := Local(row.models); var add := PendingAdd(l, upstream, row.ignored, env);
            Merge(l, add) == l + add && Normal(l + add)
  {
    var l := Local(row.models);
    NormalizeNormal(Fields(row.models, ','));
    NormalizeNormal(l);
    PendingFacts(l, upstream, row.ignored, env);
    var add := PendingAdd(l, upstream, row.ignored, env);
    NormalizeNormal(add);
    FilterAll(add, n => n !in l);
    MergeNormal(l, add);
  }
}
