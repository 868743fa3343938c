/** The keyset scan that walks the enabled channels in batches ordered by id
    (controller/channel_upstream_update.go). */
module ChannelScan {
  import opened Lists

  datatype Channel = Channel(id: int, enabled: bool)

  const BATCH_SIZE: nat := 100

  /** A table in primary-key order: ids are unique and ascending. */
  predicate Ascending(table: seq<Channel>) {
    forall i, j :: 0 <= i < j < |table| ==> table[i].id < table[j].id
  }

  function EnabledChannels(table: seq<Channel>): seq<Channel> {
    Filter(table, (c: Channel) => c.enabled)
  }

  /** findEnabledChannelsAfterID: at most batch enabled rows in id order, past lastID if it is positive. */
  function FindEnabledAfter(table: seq<Channel>, lastID: int, batch: nat): seq<Channel> {
    var found := Filter(table, (c: Channel) => c.enabled && (lastID > 0 ==> c.id > lastID));
    if |found| > batch then found[..batch] else found
  }

  lemma {:induction false} FilterAscending(table: seq<Channel>, p: Channel -> bool)
    requires Ascending(table)
    ensures Ascending(Filter(table, p))
  {
    if table != [] {
      FilterAscending(table[1..], p);
      FilterMembers(table[1..], p);
      assert forall c :: c in table[1..] ==> table[0].id < c.id;
    }
  }

  predicate Past(c: Channel, lastID: int) {
    lastID > 0 ==> c.id > lastID
  }

  /** In an ascending list, being past the i-th element selects exactly the rest. */
  lemma RestIsPast(all: seq<Channel>, i: nat, lastID: int)
    requires Ascending(all) && (forall c :: c in all ==> c.id > 0) && i <= |all|
    requires lastID == if i == 0 then 0 else all[i - 1].id
    ensures Filter(all, (c: Channel) => Past(c, lastID)) == all[i..]
  {
    var past := (c: Channel) => Past(c, lastID);
    assert all == all[..i] + all[i..];
    FilterAppend(all[..i], all[i..], past);
    PastOrNot(all, i, lastID);
    FilterNone(all[..i], past);
    FilterAll(all[i..], past);
  }

  lemma PastOrNot(all: seq<Channel>, i: nat, lastID: int)
    requires Ascending(all) && (forall c :: c in all ==> c.id > 0) && i <= |all|
    requires lastID == if i == 0 then 0 else all[i - 1].id
    ensures forall c :: c in all[..i] ==> !Past(c, lastID)
    ensures forall c :: c in all[i..] ==> Past(c, lastID)
  {
    forall c | c in all[..i] ensures !Past(c, lastID) {
      var k :| 0 <= k < i && all[k] == c;
      assert all[i - 1] in all;
    }
    forall c | c in all[i..] ensures Past(c, lastID) {
      var k :| i <= k < |all| && all[k] == c;
    }
  }

  /** Past the i-th enabled channel, the query sees exactly the enabled channels not yet visited. */
  lemma QueryResumes(table: seq<Channel>, i: nat, lastID: int, batch: nat)
    requires Ascending(table) && forall c :: c in table ==> c.id > 0
    requires var all := EnabledChannels(table);
             i <= |all| && lastID == if i == 0 then 0 else all[i - 1].id
    ensures var left := EnabledChannels(table)[i..];
            FindEnabledAfter(table, lastID, batch) == if |left| > batch then left[..batch] else left
  {
    var enabled := (c: Channel) => c.enabled;
    var past := (c: Channel) => Past(c, lastID);
    var both := (c: Channel) => c.enabled && (lastID > 0 ==> c.id > lastID);
    FilterAscending(table, enabled);
    FilterMembers(table, enabled);
    RestIsPast(EnabledChannels(table), i, lastID);
    FilterFilter(table, enabled, past, both);
  }

  /** The reference list holds each enabled channel of the table once, in ascending id order. */
  lemma EnabledChannelsMeaning(table: seq<Channel>)
    requires Ascending(table)
    ensures Ascending(EnabledChannels(table))
    ensures forall c :: c in EnabledChannels(table) <==> c in table && c.enabled
  {
    FilterAscending(table, (c: Channel) => c.enabled);
    FilterMembers(table, (c: Channel) => c.enabled);
  }

  method VisitBatch(visited: seq<Channel>, channels: seq<Channel>) returns (r: seq<Channel>)
    ensures r == visited + channels
  {
    r := visited;
    for i := 0 to |channels|
      invariant r == visited + channels[..i]
    {
      r := r + [channels[i]];
    }
  }

  /** The scan visits every enabled channel exactly once in ascending id order and terminates,
      whatever the table size, an exact multiple of the batch size included. */
  method ScanEnabled(table: seq<Channel>, batch: nat) returns (visited: seq<Channel>)
    requires batch >= 1
    requires Ascending(table) && forall c :: c in table ==> c.id > 0
    ensures visited == EnabledChannels(table)
  {
    ghost var all := EnabledChannels(table);
    ghost var i := 0;
    visited := [];
    var lastID := 0;
    while true
      invariant i <= |all| && visited == all[..i]
      invariant lastID == if i == 0 then 0 else all[i - 1].id
      decreases |all| - i
    {
      QueryResumes(table, i, lastID, batch);
      var channels := FindEnabledAfter(table, lastID, batch);
      if |channels| == 0 { break; }
      lastID := channels[|channels| - 1].id;
      visited := VisitBatch(visited, channels);
      i := i + |channels|;
      if |channels| < batch { break; }
    }
  }

  /** One pass of ApplyAllChannelUpstreamModelUpdates over the table. */
  method ScanAll(table: seq<Channel>) returns (visited: seq<Channel>)
    requires Ascending(table) && forall c :: c in table ==> c.id > 0
    ensures visited == EnabledChannels(table)
  {
    visited := ScanEnabled(table, BATCH_SIZE);
  }
}
