/** Verification codes with lazy purging (common/verification.go). Times are nanoseconds. */
module Verification {

  datatype Entry = Entry(code: string, time: int)

  type Table = map<string, Entry>

  const MAX_SIZE := 10
  const VALID_MINUTES := 10
  const SECOND := 1_000_000_000

  /** EmailVerificationPurpose and PasswordResetPurpose. */
  predicate IsPurpose(p: string) {
    p == "v" || p == "r"
  }

  /** The whole seconds elapsed reach the validity window. */
  predicate Expired(time: int, now: int) {
    (now - time) / SECOND >= VALID_MINUTES * 60
  }

  function Purged(table: Table, now: int): Table {
    map k | k in table && !Expired(table[k].time, now) :: table[k]
  }

  function Registered(table: Table, key: string, code: string, purpose: string, now: int): Table {
    var t := table[purpose + key := Entry(code, now)];
    if |t| > MAX_SIZE then Purged(t, now) else t
  }

  function Verified(table: Table, key: string, code: string, purpose: string, now: int): bool {
    purpose + key in table && !Expired(table[purpose + key].time, now) && code == table[purpose + key].code
  }

  class Codes {
    var table: Table

    constructor ()
      ensures table == map[]
    {
      table := map[];
    }

    method Register(key: string, code: string, purpose: string, now: int)
      modifies this
      ensures table == Registered(old(table), key, code, purpose, now)
      ensures var t := old(table)[purpose + key := Entry(code, now)];
              table == if |t| <= 10 then t else map k | k in t && now - t[k].time < 600_000_000_000 :: t[k]
    {
      table := table[purpose + key := Entry(code, now)];
      if |table| > MAX_SIZE {
        RemoveExpiredPairs(now);
      }
    }

    method Verify(key: string, code: string, purpose: string, now: int) returns (ok: bool)
      ensures ok == Verified(table, key, code, purpose, now)
    {
      if purpose + key !in table || Expired(table[purpose + key].time, now) {
        return false;
      }
      return code == table[purpose + key].code;
    }

    method DeleteKey(key: string, purpose: string)
      modifies this
      ensures table == old(table) - {purpose + key}
    {
      table := table - {purpose + key};
    }

    method RemoveExpiredPairs(now: int)
      modifies this
      ensures table == Purged(old(table), now)
    {
      var keys := table.Keys;
      while keys != {}
        invariant keys <= old(table).Keys
        invariant table == map k | k in old(table) && (k in keys || !Expired(old(table)[k].time, now)) :: old(table)[k]
        decreases keys
      {
        var key :| key in keys;
        if Expired(table[key].time, now) {
          table := table - {key};
        }
        keys := keys - {key};
      }
    }
  }

  // ----- a log that is never purged -----

  datatype Op =
    | Register(purpose: string, key: string, code: string, now: int)
    | Delete(purpose: string, key: string, now: int)

  function Run(log: seq<Op>): Table {
    if log == [] then map[]
    else
      var before := Run(log[..|log| - 1]);
      match log[|log| - 1]
      case Register(p, k, c, now) => Registered(before, k, c, p, now)
      case Delete(p, k, _) => before - {p + k}
  }

  datatype Latest = Nothing | Code(code: string, time: int)

  /** The latest registration for a key and purpose, unless a delete came after it. */
  function LatestCode(log: seq<Op>, purpose: string, key: string): Latest {
    if log == [] then Nothing
    else
      var op := log[|log| - 1];
      if op.purpose != purpose || op.key != key then LatestCode(log[..|log| - 1], purpose, key)
      else if op.Register? then Code(op.code, op.now) else Nothing
  }

  predicate Wellformed(log: seq<Op>) {
    (forall i, j :: 0 <= i < j < |log| ==> log[i].now <= log[j].now)
    && forall i :: 0 <= i < |log| ==> IsPurpose(log[i].purpose)
  }

  /** The table holds the latest code, or has purged it after it expired. */
  ghost predicate Agrees(table: Table, slot: string, latest: Latest, now: int) {
    if slot in table then latest == Code(table[slot].code, table[slot].time)
    else latest.Code? ==> Expired(latest.time, now)
  }

  lemma ExpiredStays(time: int, now: int, later: int)
    requires Expired(time, now) && now <= later
    ensures Expired(time, later)
  {
    assert (later - time) / SECOND >= (now - time) / SECOND;
  }

  lemma SlotsDiffer(p: string, k: string, p': string, k': string)
    requires IsPurpose(p) && IsPurpose(p')
    ensures p + k == p' + k' ==> p == p' && k == k'
  {
    if p + k == p' + k' {
      assert (p + k)[0] == p[0] && (p' + k')[0] == p'[0];
      assert (p + k)[1..] == k && (p' + k')[1..] == k';
    }
  }

  lemma {:induction false} RunAgrees(log: seq<Op>, purpose: string, key: string, now: int)
    requires Wellformed(log) && IsPurpose(purpose)
    requires log != [] ==> log[|log| - 1].now <= now
    ensures Agrees(Run(log), purpose + key, LatestCode(log, purpose, key), now)
  {
    if log != [] {
      var before, op := log[..|log| - 1], log[|log| - 1];
      RunAgrees(before, purpose, key, op.now);
      SlotsDiffer(op.purpose, op.key, purpose, key);
      var latest := LatestCode(log, purpose, key);
      assert Agrees(Run(log), purpose + key, latest, op.now);
      if latest.Code? && Expired(latest.time, op.now) { ExpiredStays(latest.time, op.now, now); }
    }
  }

  /** Verification answers exactly as the unpurged log would: purging is unobservable and the
      two purposes never collide. */
  lemma VerifyMatchesLog(log: seq<Op>, purpose: string, key: string, code: string, now: int)
    requires Wellformed(log) && IsPurpose(purpose)
    requires log != [] ==> log[|log| - 1].now <= now
    ensures var latest := LatestCode(log, purpose, key);
            Verified(Run(log), key, code, purpose, now)
            <==> latest.Code? && latest.code == code && now - latest.time < 600_000_000_000
  {
    RunAgrees(log, purpose, key, now);
  }
}
