/** Multi-key channels (ManageMultiKeys and the append branch of UpdateChannel in
    controller/channel.go, Channel.Update and handlerMultiKeyUpdate in model/channel.go): a
    newline-joined key column plus three index-keyed maps, refining a list of key records.
    A nil map and an empty map behave the same and are not told apart. */
module MultiKey {
  import opened Common
  import opened Text
  import opened Lists
  import opened ModelNames

  const ENABLED := 1
  const MANUALLY_DISABLED := 2
  const AUTO_DISABLED := 3

  datatype Record = Record(key: string, status: int, time: Option<int>, reason: Option<string>)

  function Lookup<T>(m: map<int, T>, i: int): Option<T> {
    if i in m then Some(m[i]) else None
  }

  function Put<T>(m: map<int, T>, i: int, v: Option<T>): map<int, T> {
    if v.Some? then m[i := v.value] else m
  }

  function StatusAt(m: map<int, int>, i: int): int {
    if i in m then m[i] else ENABLED
  }

  /** The records that a key list and the three maps stand for. */
  function View(keys: seq<string>, status: map<int, int>, time: map<int, int>, reason: map<int, string>): seq<Record> {
    seq(|keys|, i => if 0 <= i < |keys| then Record(keys[i], StatusAt(status, i), Lookup(time, i), Lookup(reason, i))
                     else Record("", 0, None, None))
  }

  predicate Below<T>(m: map<int, T>, n: int) {
    forall i :: i in m ==> 0 <= i < n
  }

  /** A key list and maps under construction. */
  datatype Columns = Columns(keys: seq<string>, status: map<int, int>, time: map<int, int>, reason: map<int, string>)

  predicate Indexed(c: Columns) {
    Below(c.status, |c.keys|) && Below(c.time, |c.keys|) && Below(c.reason, |c.keys|)
  }

  function ViewOf(c: Columns): seq<Record> {
    View(c.keys, c.status, c.time, c.reason)
  }

  /** Appends one key at the next index, with what is known of it. */
  function Appended(c: Columns, key: string, s: Option<int>, t: Option<int>, r: Option<string>): Columns {
    var newIndex := |c.keys|;
    Columns(c.keys + [key], Put(c.status, newIndex, s), Put(c.time, newIndex, t), Put(c.reason, newIndex, r))
  }

  lemma AppendedView(c: Columns, key: string, s: Option<int>, t: Option<int>, r: Option<string>)
    requires Indexed(c)
    ensures Indexed(Appended(c, key, s, t, r))
    ensures ViewOf(Appended(c, key, s, t, r)) == ViewOf(c) + [Record(key, if s.Some? then s.value else ENABLED, t, r)]
  {
  }

  lemma ViewReset(keys: seq<string>, status: map<int, int>, time: map<int, int>, reason: map<int, string>)
    ensures View(keys, map[], map[], map[]) == Map(View(keys, status, time, reason), Reset)
  {
    var was, now := View(keys, status, time, reason), View(keys, map[], map[], map[]);
    forall i | 0 <= i < |keys| ensures now[i] == Map(was, Reset)[i] {
      assert now[i] == Reset(was[i]);
    }
  }

  lemma ViewResetAt(c: Columns, i: int)
    requires 0 <= i
    ensures View(c.keys, c.status - {i}, c.time - {i}, c.reason - {i})
         == if i < |c.keys| then ViewOf(c)[i := Reset(ViewOf(c)[i])] else ViewOf(c)
  {
  }

  /** Entries past the keys do not show. */
  lemma ViewPruned(c: Columns)
    ensures ViewOf(c.(status := Pruned(c.status, |c.keys|))) == ViewOf(c)
  {
  }

  // ----- the operations on records -----

  function Kept(r: Record): Record {
    if r.status == ENABLED then r.(time := None, reason := None) else r
  }

  function Reset(r: Record): Record {
    r.(status := ENABLED, time := None, reason := None)
  }

  function Disabled(r: Record): Record {
    if r.status == ENABLED then r.(status := MANUALLY_DISABLED) else r
  }

  function Map(records: seq<Record>, f: Record -> Record): (r: seq<Record>)
    ensures |r| == |records|
  {
    seq(|records|, i requires 0 <= i < |records| => f(records[i]))
  }

  function WithoutAutoDisabled(records: seq<Record>): seq<Record> {
    if records == [] then []
    else
      var r := records[0];
      (if r.status == AUTO_DISABLED then [] else [Kept(r)]) + WithoutAutoDisabled(records[1..])
  }

  predicate Has(records: seq<Record>, status: int) {
    exists i :: 0 <= i < |records| && records[i].status == status
  }

  function NewRecords(keys: seq<string>): seq<Record> {
    View(keys, map[], map[], map[])
  }

  /** New keys start in status 1, without details. */
  lemma NewRecordsEnabled(keys: seq<string>, i: nat)
    requires i < |keys|
    ensures NewRecords(keys)[i] == Record(keys[i], 1, None, None)
  {
  }

  function Keys(records: seq<Record>): seq<string> {
    seq(|records|, i requires 0 <= i < |records| => records[i].key)
  }

  /** The keys of an append request that are not there yet. */
  function Novel(existing: seq<string>, input: string): seq<string> {
    var e := Normalize(existing);
    Filter(Normalize(Split(input, '\n')), k => k !in e)
  }

  /** Neither the first nor the last key is blank. */
  predicate EndsFilled(keys: seq<string>) {
    keys != [] ==> keys[0] != "" && keys[|keys| - 1] != ""
  }

  /** The keys AddChannel counts and joins. */
  function CleanKeys(lines: seq<string>): seq<string> {
    if lines == [] then []
    else
      var last := lines[|lines| - 1];
      CleanKeys(lines[..|lines| - 1]) + if last == "" then [] else [TrimSpace(last)]
  }

  method Clean(input: string) returns (cleanKeys: seq<string>)
    ensures cleanKeys == CleanKeys(Split(input, '\n'))
  {
    var lines := Split(input, '\n');
    cleanKeys := [];
    for i := 0 to |lines|
      invariant cleanKeys == CleanKeys(lines[..i])
    {
      CleanKeysStep(lines, i);
      if lines[i] == "" { continue; }
      cleanKeys := cleanKeys + [TrimSpace(lines[i])];
    }
    assert lines[..|lines|] == lines;
  }

  lemma CleanKeysStep(lines: seq<string>, i: nat)
    requires i < |lines|
    ensures CleanKeys(lines[..i + 1]) == CleanKeys(lines[..i]) + if lines[i] == "" then [] else [TrimSpace(lines[i])]
  {
    assert lines[..i + 1][..i] == lines[..i];
  }

  lemma {:induction false} CleanKeysFree(lines: seq<string>)
    requires AllFree(lines, '\n')
    ensures AllFree(CleanKeys(lines), '\n')
  {
    if lines != [] {
      var front, last := lines[..|lines| - 1], lines[|lines| - 1];
      assert last in lines && forall l :: l in front ==> l in lines;
      CleanKeysFree(front);
      TrimSpaceLeftPart(last, '\n');
      TrimSpaceRightStops(TrimSpaceLeft(last));
    }
  }

  lemma AddedKeys(keys: seq<string>)
    requires AllFree(keys, '\n')
    ensures var r := Fields(Join(keys, '\n'), '\n');
            |r| <= |keys| && (|r| == |keys| <==> EndsFilled(keys)) && (r == keys <==> EndsFilled(keys))
  {
    if keys != [] {
      FieldsCount(keys, '\n');
      FieldsJoin(keys, '\n');
    }
  }

  /** What the columns read as after a deletion stored them: an empty key column is not written, so
      the stored one comes back, and status entries past the key count are pruned. */
  function AfterStore(stored: string, rest: Columns): Columns {
    var joined := Join(rest.keys, '\n');
    var keys := Fields(if joined == "" then stored else joined, '\n');
    Columns(keys, Pruned(rest.status, |keys|), rest.time, rest.reason)
  }

  /** Channel.Update drops the status entries past the key count. */
  function Pruned(status: map<int, int>, size: int): map<int, int> {
    map i | i in status && i < size :: status[i]
  }

  class Channel {
    var key: string
    var size: int
    var status: map<int, int>
    var time: map<int, int>
    var reason: map<int, string>
    var channelStatus: int

    function GetKeys(): seq<string>
      reads this
    {
      Fields(key, '\n')
    }

    function Stored(): Columns
      reads this
    {
      Columns(GetKeys(), status, time, reason)
    }

    ghost function Records(): seq<Record>
      reads this
    {
      ViewOf(Stored())
    }

    /** The size is at least the key count, and status entries stay below the latter. */
    ghost predicate Valid()
      reads this
    {
      size >= |GetKeys()| && Below(status, |GetKeys()|)
    }

    /** The size is the key count, so that index checks are right. */
    ghost predicate Exact()
      reads this
    {
      size == |GetKeys()|
    }

    /** Disable details stay below the key count too. */
    ghost predicate Tidy()
      reads this
    {
      Below(time, |GetKeys()|) && Below(reason, |GetKeys()|)
    }

    /** The multi-key branch of AddChannel: blank lines are dropped before trimming, so a line of
        spaces becomes a blank key. The size and the stored keys are right if and only if no such
        key comes first or last; otherwise the size counts keys that are not read back. */
    constructor Add(input: string, channelStatus: int)
      ensures Valid() && Tidy() && this.channelStatus == channelStatus
      ensures var keys := CleanKeys(Split(input, '\n'));
              size == |keys| && (Exact() <==> EndsFilled(keys)) && (Records() == NewRecords(keys) <==> EndsFilled(keys))
    {
      var cleanKeys := Clean(input);
      key, size := Join(cleanKeys, '\n'), |cleanKeys|;
      status, time, reason := map[], map[], map[];
      this.channelStatus := channelStatus;
      new;
      SplitPiecesFree(input, '\n');
      CleanKeysFree(Split(input, '\n'));
      AddedKeys(cleanKeys);
      KeysOfView(Stored());
      KeysOfView(Columns(cleanKeys, map[], map[], map[]));
    }

    /** Channel.Update: an empty key column is not written, so the stored one comes back. */
    method Update(storedKey: string)
      modifies this`key, this`size, this`status
      ensures key == if old(key) == "" then storedKey else old(key)
      ensures size == |GetKeys()|
      ensures status == Pruned(old(status), size)
    {
      if key == "" { key := storedKey; }
      size := |GetKeys()|;
      status := Pruned(status, size);
    }

    /** disable_key: ok is about the size, so it is right for every index exactly while the size is. */
    method DisableKey(keyIndex: Option<int>) returns (ok: bool)
      requires Valid()
      modifies this`key, this`size, this`status
      ensures Valid() && ok == InRange(keyIndex, old(size)) && (if ok then Exact() else unchanged(this))
      ensures key == old(key)
      ensures var was := old(Records());
              Records() == if InRange(keyIndex, |was|)
                           then was[keyIndex.value := was[keyIndex.value].(status := 2)] else was
    {
      if keyIndex.None? || keyIndex.value < 0 || keyIndex.value >= size { return false; }
      ghost var disabled := Columns(GetKeys(), status[keyIndex.value := MANUALLY_DISABLED], time, reason);
      ViewPruned(disabled);
      status := status[keyIndex.value := MANUALLY_DISABLED];
      Update(key);
      return true;
    }

    method EnableKey(keyIndex: Option<int>) returns (ok: bool)
      requires Valid()
      modifies this`key, this`size, this`status, this`time, this`reason
      ensures Valid() && ok == InRange(keyIndex, old(size)) && (if ok then Exact() else unchanged(this))
      ensures key == old(key) && (old(Tidy()) ==> Tidy())
      ensures var was := old(Records());
              Records() == if InRange(keyIndex, |was|) then was[keyIndex.value := Reset(was[keyIndex.value])] else was
    {
      if keyIndex.None? || keyIndex.value < 0 || keyIndex.value >= size { return false; }
      ViewResetAt(Stored(), keyIndex.value);
      status := status - {keyIndex.value};
      time := time - {keyIndex.value};
      reason := reason - {keyIndex.value};
      Update(key);
      assert status == old(status) - {keyIndex.value};
      return true;
    }

    method EnableAllKeys()
      requires Valid()
      modifies this`key, this`size, this`status, this`time, this`reason
      ensures Valid() && Exact() && Tidy() && Records() == Map(old(Records()), Reset)
    {
      status, time, reason := map[], map[], map[];
      Update(key);
      ViewReset(GetKeys(), old(status), old(time), old(reason));
    }

    /** disable_all_keys: it reports a key to disable also when only the size counts one. */
    method DisableAllKeys() returns (ok: bool)
      requires Valid()
      modifies this`key, this`size, this`status
      ensures Valid() && key == old(key) && (if ok then Exact() else unchanged(this))
      ensures ok == (Has(old(Records()), ENABLED) || !old(Exact()))
      ensures Records() == Map(old(Records()), Disabled)
    {
      var newStatus, disabledCount := DisableEach(size, status);
      ViewDisabled(GetKeys(), status, newStatus, time, reason);
      ViewPruned(Columns(GetKeys(), newStatus, time, reason));
      assert size > |GetKeys()| ==> StatusAt(status, |GetKeys()|) == ENABLED;
      if disabledCount == 0 { return false; }
      status := newStatus;
      Update(key);
      return true;
    }

    /** delete_key: the other keys move up, each with its own state, if and only if the first and
        last of them are not blank; otherwise a blank line is swallowed and entries shift. An index
        that only the size counts deletes nothing, although it is reported as done. */
    method DeleteKey(keyIndex: Option<int>) returns (ok: bool)
      requires Valid()
      modifies this`key, this`size, this`status, this`time, this`reason
      ensures Valid() && (if ok then Exact() else unchanged(this))
      ensures ok == (InRange(keyIndex, old(size)) && Without(old(Records()), keyIndex.value) != [])
      ensures ok ==> var was, intended := old(Records()), Without(old(Records()), keyIndex.value);
                     (Records() == intended <==> keyIndex.value >= |was| || EndsFilled(Keys(intended)))
                     && (Records() == intended ==> Tidy())
    {
      if keyIndex.None? || keyIndex.value < 0 || keyIndex.value >= size { return false; }
      var rest := RebuildWithout(Stored(), keyIndex.value);
      if |rest.keys| == 0 { return false; }
      FieldsFree(key, '\n');
      KeysOfView(rest);
      KeysOfView(Stored());
      if keyIndex.value >= |GetKeys()| {
        StoreUnchanged(key, rest);
      } else {
        StoreExactly(key, rest);
      }
      StoreRemaining(rest);
      return true;
    }

    /** delete_disabled_keys: only automatically disabled keys go, again if and only if the first and
        last of the others are not blank. When there is no other, the empty key column is not
        written and all of them come back enabled. */
    method DeleteDisabledKeys() returns (deletedCount: nat)
      requires Valid()
      modifies this`key, this`size, this`status, this`time, this`reason
      ensures Valid() && deletedCount == |old(Records())| - |WithoutAutoDisabled(old(Records()))|
      ensures if deletedCount == 0 then unchanged(this) else Exact()
      ensures deletedCount > 0 ==>
                var was, kept := old(Records()), WithoutAutoDisabled(old(Records()));
                (kept == [] ==> Records() == Map(was, Reset))
                && (Records() == kept <==> kept != [] && EndsFilled(Keys(kept)))
                && (EndsFilled(Keys(kept)) ==> Tidy())
    {
      var rest;
      rest, deletedCount := RebuildKept(Stored());
      if deletedCount == 0 { return 0; }
      FieldsFree(key, '\n');
      KeysOfView(rest);
      StoreExactly(key, rest);
      if rest.keys == [] {
        EmptyStore(key, rest);
        ViewReset(GetKeys(), status, time, reason);
      }
      StoreRemaining(rest);
    }

    /** The common tail of the two deletions: write the columns and call Update. */
    method StoreRemaining(rest: Columns)
      requires Indexed(rest)
      modifies this`key, this`size, this`status, this`time, this`reason
      ensures Valid() && Exact() && Stored() == AfterStore(old(key), rest) && (size >= |rest.keys| ==> Tidy())
    {
      var stored := key;
      key, size := Join(rest.keys, '\n'), |rest.keys|;
      status, time, reason := rest.status, rest.time, rest.reason;
      Update(stored);
    }

    /** handlerMultiKeyUpdate: the relay marks the first record of the key it used, and the channel
        itself goes to automatically disabled when no key is left enabled. */
    method MarkKey(usingKey: string, newStatus: int, why: string, now: int)
      requires Valid()
      modifies this`status, this`time, this`reason, this`channelStatus
      ensures Valid() && (old(Tidy()) ==> Tidy())
      ensures Records() == Marked(old(Records()), usingKey, newStatus, why, now)
      ensures channelStatus ==
              if old(Records()) == [] then newStatus
              else if usingKey !in Keys(old(Records())) then (if usingKey == "" then newStatus else old(channelStatus))
              else if !Has(Records(), ENABLED) then AUTO_DISABLED
              else if newStatus == ENABLED then ENABLED
              else old(channelStatus)
    {
      ghost var was := Records();
      assert Keys(was) == GetKeys();
      if |GetKeys()| == 0 {
        channelStatus := newStatus;
        return;
      }
      var keyIndex := IndexOfKey(usingKey);
      if keyIndex < 0 {
        MarkedNowhere(was, usingKey, newStatus, why, now);
        if usingKey != "" { return; }
        channelStatus := newStatus;
        return;
      }
      MarkedFirst(was, keyIndex, usingKey, newStatus, why, now);
      SetKeyStatus(keyIndex, newStatus, why, now);
      var hasEnabled := HasEnabledKey();
      if !hasEnabled {
        channelStatus := AUTO_DISABLED;
      } else if newStatus == ENABLED {
        channelStatus := ENABLED;
      }
    }

    method SetKeyStatus(keyIndex: int, newStatus: int, why: string, now: int)
      requires Valid() && 0 <= keyIndex < |GetKeys()|
      modifies this`status, this`time, this`reason
      ensures Valid() && (old(Tidy()) ==> Tidy())
      ensures Records() == old(Records())[keyIndex := MarkedRecord(old(Records())[keyIndex], newStatus, why, now)]
    {
      ViewMarkedAt(Stored(), keyIndex, newStatus, why, now);
      if newStatus == ENABLED {
        status := status - {keyIndex};
      } else {
        status := status[keyIndex := newStatus];
        reason := reason[keyIndex := why];
        time := time[keyIndex := now];
      }
    }

    method IndexOfKey(usingKey: string) returns (keyIndex: int)
      ensures -1 <= keyIndex < |GetKeys()|
      ensures if keyIndex < 0 then usingKey !in GetKeys()
              else GetKeys()[keyIndex] == usingKey && usingKey !in GetKeys()[..keyIndex]
    {
      var keys := GetKeys();
      for i := 0 to |keys|
        invariant usingKey !in keys[..i]
      {
        if keys[i] == usingKey { return i; }
      }
      assert keys[..|keys|] == keys;
      return -1;
    }

    method HasEnabledKey() returns (found: bool)
      ensures found == Has(Records(), ENABLED)
    {
      var keys := GetKeys();
      for i := 0 to |keys|
        invariant forall j :: 0 <= j < i ==> Records()[j].status != ENABLED
      {
        if i !in status || status[i] == ENABLED {
          assert Records()[i].status == ENABLED;
          return true;
        }
      }
      return false;
    }

    /** The append branch of UpdateChannel, then Update: existing keys keep their place and state and
        the new ones follow, if and only if the column is not just one blank key and no details are
        left over at the new places. */
    method AppendKeys(input: string)
      requires Valid()
      modifies this`key, this`size, this`status
      ensures Valid() && Exact() && (old(Tidy()) ==> Tidy())
      ensures AppendsExactly(old(Records()), input, Stored())
    {
      var stored := key;
      if key == "" {
        key := input;
      } else {
        var existing := GetKeys();
        var deduped := Dedupe(existing, input);
        key := Join(existing + deduped, '\n');
      }
      assert key == AppendedColumn(stored, input);
      Update(stored);
      AppendRefines(stored, input, old(Stored()), Stored());
    }
  }

  /** The keys an append request adds: with no stored key, every line of the request. */
  function Added(records: seq<Record>, input: string): seq<string> {
    if records == [] then Fields(input, '\n') else Novel(Keys(records), input)
  }

  /** The new records follow the old ones if and only if there are none, or the column was not one
      blank key and no details are left over at their places. */
  predicate AppendsExactly(was: seq<Record>, input: string, now: Columns) {
    var added := Added(was, input);
    ViewOf(now) == was + NewRecords(added)
    <==> added == [] || (Keys(was) != [""] && Unused(now, |was|, |was| + |added|))
  }

  function AppendedColumn(key: string, input: string): string {
    if key == "" then input else Join(Fields(key, '\n') + Novel(Fields(key, '\n'), input), '\n')
  }

  lemma AppendRefines(key: string, input: string, was: Columns, now: Columns)
    requires was.keys == Fields(key, '\n') && Below(was.status, |was.keys|)
    requires var column := AppendedColumn(key, input); now.keys == Fields(if column == "" then key else column, '\n')
    requires now == Columns(now.keys, Pruned(was.status, |now.keys|), was.time, was.reason)
    ensures |now.keys| >= |was.keys| && Below(now.status, |now.keys|)
    ensures AppendsExactly(ViewOf(was), input, now)
  {
    KeysOfView(was);
    var added := Added(ViewOf(was), input);
    assert now.keys == if added == [] || was.keys != [""] then was.keys + added else added by {
      AppendReadsBack(key, input);
    }
    assert now.status == was.status;
    AppendExactly(was.keys, added, now);
  }

  /** No details are kept for the indices from lo up to hi. */
  predicate Unused(c: Columns, lo: int, hi: int) {
    forall i :: lo <= i < hi ==> i !in c.time && i !in c.reason
  }

  /** The re-indexing loop of delete_key. */
  method RebuildWithout(was: Columns, skip: int) returns (rest: Columns)
    requires 0 <= skip
    ensures Indexed(rest) && ViewOf(rest) == Without(ViewOf(was), skip)
    ensures forall k :: k in rest.keys ==> k in was.keys
  {
    ghost var records := ViewOf(was);
    rest := Columns([], map[], map[], map[]);
    for i := 0 to |was.keys|
      invariant Indexed(rest) && ViewOf(rest) == Without(records[..i], skip)
      invariant forall k :: k in rest.keys ==> k in was.keys
    {
      WithoutRound(was, skip, i, rest);
      if i == skip { continue; }
      rest := Carried(rest, was, i, true);
    }
    assert records[..|was.keys|] == records;
  }

  /** Copies one key to the next index, with its status when that is not the default and its
      details when they are wanted. */
  function Carried(rest: Columns, was: Columns, i: nat, details: bool): Columns
    requires i < |was.keys|
  {
    Appended(rest, was.keys[i], NonDefault(was.status, i),
             if details then Lookup(was.time, i) else None, if details then Lookup(was.reason, i) else None)
  }

  lemma WithoutRound(was: Columns, skip: int, i: nat, rest: Columns)
    requires i < |was.keys| && 0 <= skip && Indexed(rest) && ViewOf(rest) == Without(ViewOf(was)[..i], skip)
    ensures var next := if i == skip then rest else Carried(rest, was, i, true);
            Indexed(next) && ViewOf(next) == Without(ViewOf(was)[..i + 1], skip)
  {
    WithoutStep(ViewOf(was), i, skip);
    AppendedView(rest, was.keys[i], NonDefault(was.status, i), Lookup(was.time, i), Lookup(was.reason, i));
  }

  /** The re-indexing loop of delete_disabled_keys. */
  method RebuildKept(was: Columns) returns (rest: Columns, deletedCount: nat)
    ensures Indexed(rest) && ViewOf(rest) == WithoutAutoDisabled(ViewOf(was))
    ensures deletedCount == |was.keys| - |rest.keys|
    ensures forall k :: k in rest.keys ==> k in was.keys
  {
    ghost var records := ViewOf(was);
    rest, deletedCount := Columns([], map[], map[], map[]), 0;
    for i := 0 to |was.keys|
      invariant Indexed(rest) && deletedCount == i - |rest.keys| && ViewOf(rest) == WithoutAutoDisabled(records[..i])
      invariant forall k :: k in rest.keys ==> k in was.keys
    {
      KeptRound(was, i, rest);
      var status := StatusAt(was.status, i);
      if status == AUTO_DISABLED {
        deletedCount := deletedCount + 1;
      } else {
        rest := Carried(rest, was, i, status != ENABLED);
      }
    }
    assert records[..|was.keys|] == records;
  }

  lemma KeptRound(was: Columns, i: nat, rest: Columns)
    requires i < |was.keys| && Indexed(rest) && ViewOf(rest) == WithoutAutoDisabled(ViewOf(was)[..i])
    ensures var status := StatusAt(was.status, i);
            var next := if status == AUTO_DISABLED then rest else Carried(rest, was, i, status != ENABLED);
            Indexed(next) && ViewOf(next) == WithoutAutoDisabled(ViewOf(was)[..i + 1])
  {
    var records := ViewOf(was);
    assert records[..i + 1] == records[..i] + [records[i]];
    WithoutAutoDisabledExtends(records[..i], records[i]);
    var time, reason := None, None;
    if StatusAt(was.status, i) != ENABLED {
      time, reason := Lookup(was.time, i), Lookup(was.reason, i);
    }
    AppendedView(rest, was.keys[i], NonDefault(was.status, i), time, reason);
  }

  /** The loop of disable_all_keys over the status map. */
  method DisableEach(size: int, status: map<int, int>) returns (newStatus: map<int, int>, disabledCount: nat)
    requires size >= 0 && Below(status, size)
    ensures Below(newStatus, size) && forall j :: 0 <= j < size ==> StatusAt(newStatus, j) == IfEnabled(StatusAt(status, j))
    ensures disabledCount > 0 <==> exists j :: 0 <= j < size && StatusAt(status, j) == ENABLED
    ensures disabledCount == 0 ==> newStatus == status
  {
    newStatus, disabledCount := status, 0;
    for i := 0 to size
      invariant Below(newStatus, size)
      invariant forall j :: 0 <= j < i ==> StatusAt(newStatus, j) == IfEnabled(StatusAt(status, j))
      invariant forall j :: i <= j < size ==> StatusAt(newStatus, j) == StatusAt(status, j)
      invariant disabledCount > 0 <==> exists j :: 0 <= j < i && StatusAt(status, j) == ENABLED
      invariant disabledCount == 0 ==> newStatus == status
    {
      if StatusAt(newStatus, i) == ENABLED {
        newStatus := newStatus[i := MANUALLY_DISABLED];
        disabledCount := disabledCount + 1;
      }
    }
  }

  function IfEnabled(status: int): int {
    if status == ENABLED then MANUALLY_DISABLED else status
  }

  lemma ViewDisabled(keys: seq<string>, before: map<int, int>, after: map<int, int>, time: map<int, int>, reason: map<int, string>)
    requires forall j :: 0 <= j < |keys| ==> StatusAt(after, j) == IfEnabled(StatusAt(before, j))
    ensures View(keys, after, time, reason) == Map(View(keys, before, time, reason), Disabled)
    ensures Has(View(keys, before, time, reason), ENABLED) <==> exists j :: 0 <= j < |keys| && StatusAt(before, j) == ENABLED
  {
    var was, now := View(keys, before, time, reason), View(keys, after, time, reason);
    forall i | 0 <= i < |keys| ensures now[i] == Map(was, Disabled)[i] && was[i].status == StatusAt(before, i) {
      assert now[i] == Disabled(was[i]);
    }
  }

  /** The deduplication of the append branch. */
  method Dedupe(existing: seq<string>, input: string) returns (deduped: seq<string>)
    ensures deduped == Novel(existing, input)
  {
    deduped := DedupeEach(Normalize(existing), TrimNonBlank(Split(input, '\n')));
  }

  /** Its loop over the trimmed keys. */
  method DedupeEach(known: seq<string>, newKeys: seq<string>) returns (deduped: seq<string>)
    ensures deduped == Beyond(Uniq(newKeys), known)
  {
    var seen := set k | k in known;
    deduped := [];
    for i := 0 to |newKeys|
      invariant deduped == Beyond(Uniq(newKeys[..i]), known)
      invariant forall k :: k in seen <==> k in known || k in deduped
    {
      var normalized := newKeys[i];
      NovelOneMore(newKeys, i, known);
      if normalized in seen { continue; }
      seen := seen + {normalized};
      deduped := deduped + [normalized];
    }
    assert newKeys[..|newKeys|] == newKeys;
  }

  lemma NovelOneMore(keys: seq<string>, i: nat, known: seq<string>)
    requires i < |keys|
    ensures var before := Beyond(Uniq(keys[..i]), known);
            Beyond(Uniq(keys[..i + 1]), known)
            == if keys[i] in known || keys[i] in before then before else before + [keys[i]]
  {
    var novel := k => k !in known;
    assert keys[..i + 1][..i] == keys[..i];
    FilterAppend(Uniq(keys[..i]), [keys[i]], novel);
    FilterMember(Uniq(keys[..i]), novel, keys[i]);
    FilterSame(Uniq(keys[..i]), novel, k => k !in known);
    FilterSame(Uniq(keys[..i + 1]), novel, k => k !in known);
  }

  /** After an append was stored: the columns read as the old records followed by new ones exactly
      when the keys read back and the new places were unused. */
  lemma AppendExactly(existing: seq<string>, more: seq<string>, now: Columns)
    requires Below(now.status, |existing|)
    requires now.keys == existing + more || (more != [] && existing == [""] && now.keys == more)
    ensures ViewOf(now) == View(existing, now.status, now.time, now.reason) + NewRecords(more)
       <==> now.keys == existing + more && Unused(now, |existing|, |existing| + |more|)
  {
    var was, intended := View(existing, now.status, now.time, now.reason), NewRecords(more);
    var n := |existing|;
    if now.keys == existing + more {
      forall i | n <= i < n + |more|
        ensures ViewOf(now)[i] == intended[i - n] <==> i !in now.time && i !in now.reason
      {
        assert ViewOf(now)[i] == Record(more[i - n], ENABLED, Lookup(now.time, i), Lookup(now.reason, i));
      }
      if Unused(now, n, n + |more|) {
        assert ViewOf(now) == was + intended;
      }
      if ViewOf(now) == was + intended {
        forall i | n <= i < n + |more| ensures i !in now.time && i !in now.reason {
          assert (was + intended)[i] == intended[i - n];
        }
      }
    } else {
      assert |ViewOf(now)| != |was + intended|;
    }
  }

  function Without(records: seq<Record>, i: int): seq<Record> {
    if 0 <= i < |records| then records[..i] + records[i + 1..] else records
  }

  function NonDefault(status: map<int, int>, i: int): Option<int> {
    if i in status && status[i] != ENABLED then Some(status[i]) else None
  }

  function MarkedRecord(r: Record, status: int, why: string, now: int): Record {
    if status == ENABLED then r.(status := ENABLED) else Record(r.key, status, Some(now), Some(why))
  }

  /** The first record of the key changes; no other does. */
  function Marked(records: seq<Record>, key: string, status: int, why: string, now: int): seq<Record> {
    if records == [] then []
    else if records[0].key == key then [MarkedRecord(records[0], status, why, now)] + records[1..]
    else [records[0]] + Marked(records[1..], key, status, why, now)
  }

  lemma ViewMarkedAt(c: Columns, i: int, status: int, why: string, now: int)
    requires 0 <= i < |c.keys|
    ensures var marked := if status == ENABLED then Columns(c.keys, c.status - {i}, c.time, c.reason)
                          else Columns(c.keys, c.status[i := status], c.time[i := now], c.reason[i := why]);
            ViewOf(marked) == ViewOf(c)[i := MarkedRecord(ViewOf(c)[i], status, why, now)]
  {
  }

  lemma WithoutStep(records: seq<Record>, i: nat, skip: int)
    requires i < |records| && 0 <= skip
    ensures Without(records[..i + 1], skip)
         == if i == skip then Without(records[..i], skip) else Without(records[..i], skip) + [records[i]]
  {
    var front := records[..i];
    assert records[..i + 1] == front + [records[i]];
    if i == skip {
      assert Without(front + [records[i]], skip) == front + [];
    } else if skip < i {
      assert (front + [records[i]])[skip + 1..] == front[skip + 1..] + [records[i]];
    }
  }

  lemma {:induction false} WithoutAutoDisabledExtends(records: seq<Record>, r: Record)
    ensures WithoutAutoDisabled(records + [r])
         == WithoutAutoDisabled(records) + if r.status == AUTO_DISABLED then [] else [Kept(r)]
  {
    if records != [] {
      assert (records + [r])[1..] == records[1..] + [r];
      WithoutAutoDisabledExtends(records[1..], r);
    }
  }

  lemma {:induction false} MarkedNowhere(records: seq<Record>, key: string, status: int, why: string, now: int)
    requires key !in Keys(records)
    ensures Marked(records, key, status, why, now) == records
  {
    if records != [] {
      assert Keys(records)[0] == records[0].key;
      assert Keys(records[1..]) == Keys(records)[1..];
      MarkedNowhere(records[1..], key, status, why, now);
    }
  }

  lemma {:induction false} MarkedFirst(records: seq<Record>, i: nat, key: string, status: int, why: string, now: int)
    requires i < |records| && records[i].key == key && key !in Keys(records)[..i]
    ensures Marked(records, key, status, why, now) == records[i := MarkedRecord(records[i], status, why, now)]
  {
    if i > 0 {
      assert Keys(records)[..i][0] == records[0].key;
      assert Keys(records[1..])[..i - 1] == Keys(records)[..i][1..];
      MarkedFirst(records[1..], i - 1, key, status, why, now);
    }
  }

  lemma KeysOfView(c: Columns)
    ensures Keys(ViewOf(c)) == c.keys
  {
  }

  /** A stored remainder reads back as itself exactly when neither of its end keys is blank. */
  lemma StoreExactly(stored: string, rest: Columns)
    requires Indexed(rest) && AllFree(rest.keys, '\n') && |Fields(stored, '\n')| > |rest.keys|
    ensures var now := AfterStore(stored, rest);
            (ViewOf(now) == ViewOf(rest) <==> rest.keys != [] && EndsFilled(rest.keys))
            && (now.keys == rest.keys <==> rest.keys != [] && EndsFilled(rest.keys))
    ensures rest.keys != [] && EndsFilled(rest.keys) ==> AfterStore(stored, rest) == rest
  {
    var now := AfterStore(stored, rest);
    KeysOfView(now);
    KeysOfView(rest);
    StoreKeys(stored, rest.keys);
    if now.keys == rest.keys { assert now.status == rest.status; }
  }

  lemma StoreKeys(stored: string, keys: seq<string>)
    requires AllFree(keys, '\n') && |Fields(stored, '\n')| > |keys|
    ensures var joined := Join(keys, '\n');
            Fields(if joined == "" then stored else joined, '\n') == keys <==> keys != [] && EndsFilled(keys)
  {
    if keys != [] { JoinReadsBack(keys, Join(keys, '\n')); }
  }

  lemma JoinReadsBack(keys: seq<string>, joined: string)
    requires keys != [] && AllFree(keys, '\n') && joined == Join(keys, '\n')
    ensures Fields(joined, '\n') == keys <==> EndsFilled(keys)
    ensures joined == "" ==> !EndsFilled(keys)
  {
    FieldsJoin(keys, '\n');
  }

  /** Storing the keys that are there changes nothing. */
  lemma StoreUnchanged(stored: string, rest: Columns)
    requires Indexed(rest) && rest.keys == Fields(stored, '\n') && rest.keys != []
    ensures AfterStore(stored, rest) == rest
  {
    FieldsFree(stored, '\n');
    FieldsEnds(stored, '\n');
    if rest.keys != [""] { FieldsJoin(rest.keys, '\n'); }
    assert AfterStore(stored, rest).status == rest.status;
  }

  lemma EmptyStore(stored: string, rest: Columns)
    requires Indexed(rest) && rest.keys == []
    ensures AfterStore(stored, rest) == Columns(Fields(stored, '\n'), map[], map[], map[])
  {
    BelowZero(rest.status);
    BelowZero(rest.time);
    BelowZero(rest.reason);
  }

  lemma BelowZero<T>(m: map<int, T>)
    requires Below(m, 0)
    ensures m == map[]
  {
    assert forall i :: i !in m;
  }

  lemma BlankBetween(a: string, b: string)
    requires a != "" && b != "" && Free(a, '\n') && Free(b, '\n')
    ensures Fields(Join([a, "", b], '\n'), '\n') == [a, "", b]
  {
    FieldsJoin([a, "", b], '\n');
  }

  /** A blank line becomes the first one: deleting key a of a, blank, b makes the disabled b read as
      enabled, because its entry stays at the index the blank line had moved it to. */
  lemma BlankLineShifts(a: string, b: string)
    requires a != "" && b != "" && Free(a, '\n') && Free(b, '\n')
    ensures Fields(Join([a, "", b], '\n'), '\n') == [a, "", b]
    ensures var was := Columns([a, "", b], map[2 := AUTO_DISABLED], map[], map[]);
            var rest := Columns(["", b], map[1 := AUTO_DISABLED], map[], map[]);
            ViewOf(rest) == Without(ViewOf(was), 0)
            && ViewOf(rest) == [Record("", ENABLED, None, None), Record(b, AUTO_DISABLED, None, None)]
            && ViewOf(AfterStore(Join(was.keys, '\n'), rest)) == [Record(b, ENABLED, None, None)]
  {
    BlankBetween(a, b);
    LeadingBlankDropped([b]);
    assert ["", b] == [""] + [b];
  }

  /** The key column after an append: it reads as the old keys and the new ones, unless the column
      was one blank key. */
  lemma AppendReadsBack(key: string, input: string)
    ensures var existing, novel := Fields(key, '\n'), Novel(Fields(key, '\n'), input);
            var joined := Join(existing + novel, '\n');
            (key == "" <==> existing == [])
            && (key != "" ==>
                  Fields(if joined == "" then key else joined, '\n')
                  == if novel == [] || existing != [""] then existing + novel else novel)
  {
    NovelPieces(Fields(key, '\n'), input);
    ColumnReadsBack(key, Novel(Fields(key, '\n'), input));
  }

  lemma ColumnReadsBack(key: string, novel: seq<string>)
    requires AllFree(novel, '\n') && forall k :: k in novel ==> k != ""
    ensures var existing := Fields(key, '\n'); var joined := Join(existing + novel, '\n');
            (key == "" <==> existing == [])
            && (key != "" ==>
                  Fields(if joined == "" then key else joined, '\n')
                  == if novel == [] || existing != [""] then existing + novel else novel)
  {
    var existing := Fields(key, '\n');
    if key != "" {
      FieldsFree(key, '\n');
      FieldsEnds(key, '\n');
      AppendedFields(existing, novel);
    }
  }

  lemma NovelPieces(existing: seq<string>, input: string)
    ensures AllFree(Novel(existing, input), '\n') && forall k :: k in Novel(existing, input) ==> k != ""
  {
    var e := Normalize(existing);
    SplitPiecesFree(input, '\n');
    TrimNonBlankFree(Split(input, '\n'), '\n');
    UniqMembers(TrimNonBlank(Split(input, '\n')));
    NormalizeNormal(Split(input, '\n'));
    FilterMembers(Normalize(Split(input, '\n')), k => k !in e);
  }

  lemma AppendedFields(existing: seq<string>, novel: seq<string>)
    requires existing != [] && AllFree(existing, '\n') && AllFree(novel, '\n')
    requires (existing != [""] ==> EndsFilled(existing)) && forall k :: k in novel ==> k != ""
    ensures existing != [""] ==> Fields(Join(existing + novel, '\n'), '\n') == existing + novel
    ensures existing == [""] && novel != [] ==>
              Join(existing + novel, '\n') != "" && Fields(Join(existing + novel, '\n'), '\n') == novel
    ensures existing == [""] && novel == [] ==> Join(existing + novel, '\n') == ""
  {
    var all := existing + novel;
    if novel != [] { assert novel[0] in novel && novel[|novel| - 1] in novel; }
    if existing != [""] {
      assert EndsFilled(all);
      JoinReadsBack(all, Join(all, '\n'));
    } else if novel != [] {
      LeadingBlankDropped(novel);
      assert all == [""] + novel;
    } else {
      assert all == [""];
    }
  }

  lemma LeadingBlankDropped(keys: seq<string>)
    requires keys != [] && AllFree(keys, '\n') && EndsFilled(keys)
    ensures Join([""] + keys, '\n') != "" && Fields(Join([""] + keys, '\n'), '\n') == keys
  {
    var j := Join(keys, '\n');
    assert ([""] + keys)[1..] == keys && "" + ['\n'] + j == ['\n'] + j;
    JoinEnds(keys, '\n');
    var last := keys[|keys| - 1];
    assert keys[0][0] in keys[0] && last[|last| - 1] in last;
    assert keys[0] in keys && last in keys;
    assert (['\n'] + j)[1..] == j && j[0] != '\n' && j[|j| - 1] != '\n';
    assert TrimSepLeft(['\n'] + j, '\n') == TrimSepLeft(j, '\n') == j;
    assert TrimSepRight(j, '\n') == j;
    SplitJoin(keys, '\n');
  }

  // ----- whole runs -----

  datatype Action =
    | Disable(index: Option<int>)
    | Enable(index: Option<int>)
    | EnableAll
    | DisableAll
    | Delete(index: Option<int>)
    | DeleteDisabled
    | Mark(key: string, status: int, why: string, now: int)
    | Append(input: string)

  predicate InRange(index: Option<int>, n: nat) {
    index.Some? && 0 <= index.value < n
  }

  /** Each action on the plain list of records. */
  function Act(records: seq<Record>, a: Action): seq<Record> {
    match a
    case Disable(i) => if InRange(i, |records|) then records[i.value := records[i.value].(status := MANUALLY_DISABLED)] else records
    case Enable(i) => if InRange(i, |records|) then records[i.value := Reset(records[i.value])] else records
    case EnableAll => Map(records, Reset)
    case DisableAll => Map(records, Disabled)
    case Delete(i) => if InRange(i, |records|) && |records| > 1 then Without(records, i.value) else records
    case DeleteDisabled =>
      var kept := WithoutAutoDisabled(records);
      if |kept| == |records| then records else if kept == [] then Map(records, Reset) else kept
    case Mark(key, status, why, now) => Marked(records, key, status, why, now)
    case Append(input) => records + NewRecords(Added(records, input))
  }

  /** The action leaves no blank key at an end of the column that is then stored. */
  predicate Safe(records: seq<Record>, a: Action) {
    match a
    case Delete(i) => InRange(i, |records|) && |records| > 1 ==> EndsFilled(Keys(Without(records, i.value)))
    case DeleteDisabled =>
      var kept := WithoutAutoDisabled(records);
      |kept| < |records| ==> EndsFilled(Keys(kept))
    case Append(input) => Keys(records) != [""] || Added(records, input) == []
    case _ => true
  }

  predicate SafeRun(records: seq<Record>, actions: seq<Action>)
    decreases |actions|
  {
    actions != [] ==> Safe(records, actions[0]) && SafeRun(Act(records, actions[0]), actions[1..])
  }

  lemma {:induction false} MarkedLength(records: seq<Record>, key: string, status: int, why: string, now: int)
    ensures |Marked(records, key, status, why, now)| == |records|
  {
    if records != [] { MarkedLength(records[1..], key, status, why, now); }
  }

  /** No action removes the last key. */
  lemma ActKeepsAKey(records: seq<Record>, a: Action)
    requires records != []
    ensures Act(records, a) != []
  {
    if a.Mark? { MarkedLength(records, a.key, a.status, a.why, a.now); }
  }

  function ActAll(records: seq<Record>, actions: seq<Action>): seq<Record>
    decreases |actions|
  {
    if actions == [] then records else ActAll(Act(records, actions[0]), actions[1..])
  }

  /** Actions that write the size anew whatever it was. */
  predicate Recounts(a: Action) {
    a.EnableAll? || a.DisableAll? || a.Append?
  }

  /** One safe action on the stored columns is the same action on the records they stand for; a
      size that is the key count stays so, and the actions on all keys make it so. */
  method Perform(c: Channel, a: Action)
    requires c.Valid() && c.Tidy() && Safe(c.Records(), a)
    modifies c
    ensures c.Valid() && c.Tidy() && c.Records() == Act(old(c.Records()), a)
    ensures old(c.Exact()) || Recounts(a) ==> c.Exact()
  {
    KeysOfView(c.Stored());
    match a
    case Disable(i) => var _ := c.DisableKey(i);
    case Enable(i) => var _ := c.EnableKey(i);
    case EnableAll => c.EnableAllKeys();
    case DisableAll => var _ := c.DisableAllKeys();
    case Delete(i) => var _ := c.DeleteKey(i);
    case DeleteDisabled => var _ := c.DeleteDisabledKeys();
    case Mark(key, status, why, now) => c.MarkKey(key, status, why, now);
    case Append(input) => c.AppendKeys(input);
  }

  /** Over every sequence of safe actions the key column and the index-keyed maps refine the plain
      list of records. Valid and Tidy keep the map domains below the key count; the size is the key
      count at the end if it was at the start or any action wrote it anew. */
  method PerformAll(c: Channel, actions: seq<Action>)
    requires c.Valid() && c.Tidy() && SafeRun(c.Records(), actions)
    modifies c
    ensures c.Valid() && c.Tidy() && c.Records() == ActAll(old(c.Records()), actions)
    ensures old(c.Exact()) || (exists i :: 0 <= i < |actions| && Recounts(actions[i])) ==> c.Exact()
  {
    ghost var was := c.Records();
    for i := 0 to |actions|
      invariant c.Valid() && c.Tidy() && SafeRun(c.Records(), actions[i..])
      invariant ActAll(was, actions) == ActAll(c.Records(), actions[i..])
      invariant old(c.Exact()) || (exists j :: 0 <= j < i && Recounts(actions[j])) ==> c.Exact()
    {
      assert actions[i..][0] == actions[i] && actions[i..][1..] == actions[i + 1..];
      Perform(c, actions[i]);
    }
  }

  predicate AllFilled(records: seq<Record>) {
    forall i :: 0 <= i < |records| ==> records[i].key != ""
  }

  /** With at least one key and no blank one, every action is safe and keeps it so. */
  lemma FilledIsSafe(records: seq<Record>, a: Action)
    requires records != [] && AllFilled(records)
    ensures Safe(records, a) && Act(records, a) != [] && AllFilled(Act(records, a))
  {
    ActKeepsAKey(records, a);
    assert Keys(records)[0] == records[0].key;
    match a
    case Delete(i) => if InRange(i, |records|) { EndsOfFilled(Without(records, i.value)); }
    case DeleteDisabled => DeleteDisabledFilled(records);
    case Mark(key, status, why, now) => MarkedFilled(records, key, status, why, now);
    case Append(input) => NovelFilled(Keys(records), input);
    case EnableAll => MappedFilled(records);
    case DisableAll => MappedFilled(records);
    case _ =>
  }

  lemma DeleteDisabledFilled(records: seq<Record>)
    requires AllFilled(records)
    ensures Safe(records, DeleteDisabled) && AllFilled(Act(records, DeleteDisabled))
  {
    KeptFilled(records);
    EndsOfFilled(WithoutAutoDisabled(records));
    MappedFilled(records);
  }

  lemma MappedFilled(records: seq<Record>)
    requires AllFilled(records)
    ensures AllFilled(Map(records, Reset)) && AllFilled(Map(records, Disabled))
  {
    forall i | 0 <= i < |records|
      ensures Map(records, Reset)[i].key == records[i].key && Map(records, Disabled)[i].key == records[i].key
    {
      assert Map(records, Reset)[i] == Reset(records[i]);
      assert Map(records, Disabled)[i] == Disabled(records[i]);
    }
  }

  lemma EndsOfFilled(records: seq<Record>)
    requires AllFilled(records)
    ensures EndsFilled(Keys(records))
  {
  }

  lemma {:induction false} KeptFilled(records: seq<Record>)
    requires AllFilled(records)
    ensures AllFilled(WithoutAutoDisabled(records))
  {
    if records != [] { KeptFilled(records[1..]); }
  }

  lemma {:induction false} MarkedFilled(records: seq<Record>, key: string, status: int, why: string, now: int)
    requires AllFilled(records)
    ensures AllFilled(Marked(records, key, status, why, now))
  {
    if records != [] && records[0].key != key { MarkedFilled(records[1..], key, status, why, now); }
  }

  lemma NovelFilled(existing: seq<string>, input: string)
    ensures AllFilled(NewRecords(Novel(existing, input)))
  {
    var novel := Novel(existing, input);
    NovelPieces(existing, input);
    forall i | 0 <= i < |novel| ensures novel[i] != "" { assert novel[i] in novel; }
  }

  /** So for a channel without blank keys every sequence of actions is safe. */
  lemma {:induction false} FilledRunIsSafe(records: seq<Record>, actions: seq<Action>)
    requires records != [] && AllFilled(records)
    ensures SafeRun(records, actions)
    decreases |actions|
  {
    if actions != [] {
      FilledIsSafe(records, actions[0]);
      FilledRunIsSafe(Act(records, actions[0]), actions[1..]);
    }
  }

  /** What the status listing shows of a record: disable details only while it is disabled. */
  function Shown(records: seq<Record>): seq<Record> {
    Map(records, Kept)
  }

  lemma {:induction false} WithoutAutoDisabledIsFilter(records: seq<Record>)
    ensures WithoutAutoDisabled(records) == Shown(Filter(records, (r: Record) => r.status != AUTO_DISABLED))
  {
    if records != [] {
      WithoutAutoDisabledIsFilter(records[1..]);
      var rest := Filter(records[1..], (r: Record) => r.status != AUTO_DISABLED);
      assert Shown([records[0]] + rest) == [Kept(records[0])] + Shown(rest);
    }
  }

  predicate OnlyAutoDisabled(records: seq<Record>) {
    forall r :: r in records ==> r.status == AUTO_DISABLED
  }

  /** The records that are not in status 3. */
  function NotAutoDisabled(records: seq<Record>): seq<Record> {
    Filter(records, (r: Record) => r.status != 3)
  }

  /** Deleting the automatically disabled keys from the columns stored as key leaves exactly the
      other records, in order and with what is shown of them, if and only if there is another key
      and neither the first nor the last other key is blank. */
  lemma DeleteDisabledExactly(key: string, was: Columns, rest: Columns)
    requires was.keys == Fields(key, '\n') && Has(ViewOf(was), AUTO_DISABLED)
    requires Indexed(rest) && ViewOf(rest) == WithoutAutoDisabled(ViewOf(was))
    ensures var others := NotAutoDisabled(ViewOf(was));
            Shown(ViewOf(AfterStore(key, rest))) == Shown(others) <==> others != [] && EndsFilled(Keys(others))
  {
    var records, others, now := ViewOf(was), NotAutoDisabled(ViewOf(was)), AfterStore(key, rest);
    WithoutAutoDisabledIsFilter(records);
    ShownKeys(others);
    KeysOfView(rest);
    assert |rest.keys| == |others| && rest.keys == Keys(others);
    FewerKept(records);
    RestIsFree(key, was, others);
    StoreExactly(key, rest);
    if others != [] && EndsFilled(Keys(others)) {
      ShownTwice(others);
    } else {
      ShownKeys(ViewOf(now));
      KeysOfView(now);
    }
  }

  lemma ShownKeys(records: seq<Record>)
    ensures Keys(Shown(records)) == Keys(records)
  {
    forall i | 0 <= i < |records| ensures Shown(records)[i].key == records[i].key {
      assert Shown(records)[i] == Kept(records[i]);
    }
  }

  lemma FewerKept(records: seq<Record>)
    requires Has(records, AUTO_DISABLED)
    ensures |NotAutoDisabled(records)| < |records|
  {
    var p := (r: Record) => r.status != AUTO_DISABLED;
    var i :| 0 <= i < |records| && records[i].status == AUTO_DISABLED;
    FilterMember(records, p, records[i]);
    assert records[i] in records && records[i] !in Filter(records, p);
    if |Filter(records, p)| == |records| { FilterFull(records, p); }
  }

  lemma RestIsFree(key: string, was: Columns, others: seq<Record>)
    requires was.keys == Fields(key, '\n') && others == NotAutoDisabled(ViewOf(was))
    ensures AllFree(Keys(others), '\n')
  {
    FieldsFree(key, '\n');
    KeysOfView(was);
    FilterMembers(ViewOf(was), (r: Record) => r.status != AUTO_DISABLED);
    forall k | k in Keys(others) ensures Free(k, '\n') {
      var i :| 0 <= i < |others| && others[i].key == k;
      assert others[i] in ViewOf(was);
      var j :| 0 <= j < |was.keys| && ViewOf(was)[j] == others[i];
      assert was.keys[j] in was.keys;
    }
  }

  lemma ShownTwice(records: seq<Record>)
    ensures Shown(Shown(records)) == Shown(records)
  {
    var once := Shown(records);
    forall i | 0 <= i < |records| ensures Shown(once)[i] == once[i] {
      assert once[i] == Kept(records[i]);
      assert Shown(once)[i] == Kept(once[i]);
    }
  }

  /** When every key is automatically disabled, deleting them enables all of them instead. */
  lemma DeleteAllDisabledEnables(records: seq<Record>)
    requires records != [] && OnlyAutoDisabled(records)
    ensures Act(records, DeleteDisabled) == Map(records, Reset)
  {
    FilterNone(records, (r: Record) => r.status != AUTO_DISABLED);
    WithoutAutoDisabledIsFilter(records);
  }

  lemma {:induction false} FilterFull(records: seq<Record>, p: Record -> bool)
    requires |Filter(records, p)| == |records|
    ensures Filter(records, p) == records
  {
    if records != [] { FilterFull(records[1..], p); }
  }

  // ----- the paged status listing -----

  function TotalPages(total: nat, pageSize: nat): nat
    requires pageSize >= 1
  {
    var n := (total + pageSize - 1) / pageSize;
    if n == 0 then 1 else n
  }

  function Slice<T>(items: seq<T>, start: nat, length: nat): seq<T> {
    var end := if start + length > |items| then |items| else start + length;
    if start < |items| then items[start..end] else []
  }

  /** The page shown for a request; pages past the end show the last one. */
  function PageOf<T>(items: seq<T>, page: nat, pageSize: nat): seq<T>
    requires page >= 1 && pageSize >= 1
  {
    var last := TotalPages(|items|, pageSize);
    var p := if page > last then last else page;
    Slice(items, (p - 1) * pageSize, pageSize)
  }

  function PagesUpTo<T>(items: seq<T>, n: nat, pageSize: nat): seq<T>
    requires pageSize >= 1
  {
    if n == 0 then [] else PagesUpTo(items, n - 1, pageSize) + PageOf(items, n, pageSize)
  }

  function Upto<T>(items: seq<T>, n: nat): seq<T> {
    if n > |items| then items else items[..n]
  }

  lemma SliceExtends<T>(items: seq<T>, start: nat, length: nat)
    requires start < |items| || |items| == 0
    ensures Upto(items, start) + Slice(items, start, length) == Upto(items, start + length)
  {
  }

  lemma PageIsSlice<T>(items: seq<T>, n: nat, pageSize: nat, start: nat)
    requires pageSize >= 1 && 1 <= n <= TotalPages(|items|, pageSize) && start == (n - 1) * pageSize
    ensures PageOf(items, n, pageSize) == Slice(items, start, pageSize)
    ensures PagesUpTo(items, n, pageSize) == PagesUpTo(items, n - 1, pageSize) + Slice(items, start, pageSize)
    ensures start < |items| || |items| == 0
  {
    if |items| > 0 { PageStartInside(|items|, n, pageSize); }
  }

  lemma {:induction false} PagesArePrefix<T>(items: seq<T>, n: nat, pageSize: nat, start: nat)
    requires pageSize >= 1 && n <= TotalPages(|items|, pageSize) && start == n * pageSize
    ensures PagesUpTo(items, n, pageSize) == Upto(items, start)
  {
    if n > 0 {
      var before := (n - 1) * pageSize;
      assert start == before + pageSize;
      PagesArePrefix(items, n - 1, pageSize, before);
      PageIsSlice(items, n, pageSize, before);
      SliceExtends(items, before, pageSize);
    }
  }

  lemma PageStartInside(total: nat, n: nat, pageSize: nat)
    requires pageSize >= 1 && total > 0 && 1 <= n <= TotalPages(total, pageSize)
    ensures (n - 1) * pageSize < total
  {
    var q := (total + pageSize - 1) / pageSize;
    assert q * pageSize <= total + pageSize - 1;
    assert (n - 1) * pageSize <= (q - 1) * pageSize;
  }

  lemma EnoughPages(total: nat, pageSize: nat)
    requires pageSize >= 1
    ensures TotalPages(total, pageSize) * pageSize >= total
  {
    var t := total + pageSize - 1;
    var q := t / pageSize;
    assert t == q * pageSize + t % pageSize;
    if q == 0 { assert t < pageSize; }
  }

  /** The pages, put one after the other, are the whole filtered list: nothing lost or repeated. */
  lemma PagesPartition<T>(items: seq<T>, pageSize: nat)
    requires pageSize >= 1
    ensures PagesUpTo(items, TotalPages(|items|, pageSize), pageSize) == items
  {
    var n := TotalPages(|items|, pageSize);
    PagesArePrefix(items, n, pageSize, n * pageSize);
    EnoughPages(|items|, pageSize);
  }

  /** A page past the last one shows the last one, which holds something unless nothing is listed. */
  lemma PastTheEnd<T>(items: seq<T>, page: nat, pageSize: nat)
    requires pageSize >= 1 && page >= TotalPages(|items|, pageSize)
    ensures PageOf(items, page, pageSize) == PageOf(items, TotalPages(|items|, pageSize), pageSize)
    ensures items != [] ==> PageOf(items, page, pageSize) != []
  {
    var n := TotalPages(|items|, pageSize);
    if items != [] { PageStartInside(|items|, n, pageSize); }
  }
}
