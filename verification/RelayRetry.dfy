/** The retry loops of controller/relay.go over the channel selection of service/channel_select.go.
    What upstreams, selection and middleware answer is an arbitrary World. */
module RelayRetry {
  import opened Common
  import Billing

  /** What shouldRetry looks at in an error. */
  datatype Error = Error(status: int, channelError: bool, skipRetry: bool, alwaysSkip: bool, retryableStatus: bool,
                         local: bool)

  datatype Result = Success | Failure(error: Error)

  /** retryTimes is the configured limit. A locked channel is not selected again. */
  datatype Config = Config(isACU: bool, retryTimes: int, auto: bool, cross: bool, groups: nat, locked: bool,
                           affinitySkip: bool, specificChannel: bool, task: bool)

  /** Answers by attempt number: is a channel available in a group at a priority, does setting it up
      work, can the body be read, what does the attempt return. */
  datatype World = World(available: (nat, int, int) -> bool, setupOk: nat -> bool, bodyOk: nat -> bool,
                         result: nat -> Result)

  /** The loop's own limit: relayMaxRetries, or the configured one in RelayTask. */
  function MaxRetries(c: Config): int {
    if c.isACU && !c.task then 0 else c.retryTimes
  }

  predicate ShouldRetry(c: Config, e: Error, retriesLeft: int) {
    if c.affinitySkip then false
    else if e.channelError then true
    else if e.skipRetry then false
    else if retriesLeft <= 0 then false
    else if c.specificChannel then false
    else if 200 <= e.status < 300 then false
    else if e.status < 100 || e.status > 599 then true
    else if e.alwaysSkip then false
    else e.retryableStatus
  }

  predicate ShouldRetryTask(c: Config, e: Error, retriesLeft: int) {
    if c.affinitySkip then false
    else if retriesLeft <= 0 then false
    else if c.specificChannel then false
    else if e.status == 429 then true
    else if e.status == 307 then true
    else if 500 <= e.status < 600 then !e.alwaysSkip
    else if e.status == 400 then false
    else if e.status == 408 then false
    else if e.local then false
    else !(200 <= e.status < 300)
  }

  predicate Retries(c: Config, e: Error, retriesLeft: int) {
    if c.task then ShouldRetryTask(c, e, retriesLeft) else ShouldRetry(c, e, retriesLeft)
  }

  /** The general retry rule: never after an affinity failure; always for a channel error; otherwise
      only with retries left, no fixed channel, no skip mark, and a status that is no HTTP status at
      all, or no success and one configured for retrying. */
  lemma RetryRule(c: Config, e: Error, retriesLeft: int)
    requires !c.task
    ensures Retries(c, e, retriesLeft)
       <==> !c.affinitySkip
            && (e.channelError
                || (!e.skipRetry && retriesLeft >= 1 && !c.specificChannel
                    && (!(100 <= e.status <= 599) || (e.status / 100 != 2 && !e.alwaysSkip && e.retryableStatus))))
  {
  }

  /** The task retry rule: with retries left and neither affinity nor a fixed channel in the way,
      429 and 307 are retried, 400, 408 and successes are not, server errors unless always skipped,
      and anything else unless the error is local. */
  lemma TaskRetryRule(c: Config, e: Error, retriesLeft: int)
    requires c.task
    ensures Retries(c, e, retriesLeft) ==> !c.affinitySkip && !c.specificChannel && retriesLeft >= 1
    ensures !c.affinitySkip && !c.specificChannel && retriesLeft >= 1 ==>
              (e.status in {429, 307} ==> Retries(c, e, retriesLeft))
              && (e.status in {400, 408} || e.status / 100 == 2 ==> !Retries(c, e, retriesLeft))
              && (e.status / 100 == 5 ==> (Retries(c, e, retriesLeft) <==> !e.alwaysSkip))
              && (e.status !in {429, 307, 400, 408} && e.status / 100 !in {2, 5} ==> (Retries(c, e, retriesLeft) <==> !e.local))
  {
  }

  // ----- the retry counter and channel selection -----

  /** RetryParam and the context's auto-group index. */
  datatype Cursor = Cursor(retry: int, group: int, resetNext: bool)

  function Increased(p: Cursor): Cursor {
    if p.resetNext then p.(resetNext := false) else p.(retry := p.retry + 1)
  }

  function SelectFrom(c: Config, w: World, n: nat, p: Cursor, start: int, i: int): (Cursor, bool)
    decreases c.groups - i
  {
    if i >= c.groups then (p, false)
    else
      var priority := if i > start then 0 else p.retry;
      if !w.available(n, i, priority) then SelectFrom(c, w, n, p.(group := i + 1, retry := 0), start, i + 1)
      else if c.cross && priority >= c.retryTimes then (p.(group := i + 1, retry := 0, resetNext := true), true)
      else (p.(group := i), true)
  }

  /** CacheGetRandomSatisfiedChannel: group by group for auto tokens, one lookup otherwise. */
  function Selected(c: Config, w: World, n: nat, p: Cursor): (Cursor, bool) {
    if c.auto then SelectFrom(c, w, n, p, p.group, p.group) else (p, w.available(n, 0, p.retry))
  }

  /** getChannel: the first attempt uses the channel the request came in with. */
  function ChannelFor(c: Config, w: World, n: nat, p: Cursor): (Cursor, bool) {
    if c.locked then (p, n == 0 || w.setupOk(n))
    else if n == 0 then (p, true)
    else
      var r := Selected(c, w, n, p);
      (r.0, r.1 && w.setupOk(n))
  }

  method GetChannel(c: Config, w: World, n: nat, start: Cursor) returns (p: Cursor, ok: bool)
    ensures (p, ok) == ChannelFor(c, w, n, start)
  {
    p, ok := start, true;
    if c.locked {
      return p, n == 0 || w.setupOk(n);
    }
    if n == 0 { return; }
    if c.auto {
      p, ok := SelectChannel(c, w, n, start);
    } else {
      ok := w.available(n, 0, p.retry);
    }
    if !ok { return; }
    ok := w.setupOk(n);
  }

  method SelectChannel(c: Config, w: World, n: nat, start: Cursor) returns (p: Cursor, found: bool)
    requires c.auto
    ensures (p, found) == SelectFrom(c, w, n, start, start.group, start.group)
  {
    p := start;
    var i := start.group;
    while i < c.groups
      invariant i >= start.group && (i > start.group ==> p.retry == 0)
      invariant SelectFrom(c, w, n, start, start.group, start.group) == SelectFrom(c, w, n, p, start.group, i)
    {
      var priorityRetry := p.retry;
      if i > start.group { priorityRetry := 0; }
      if !w.available(n, i, priorityRetry) {
        p := p.(group := i + 1, retry := 0);
        i := i + 1;
        continue;
      }
      if c.cross && priorityRetry >= c.retryTimes {
        p := p.(group := i + 1, retry := 0, resetNext := true);
      } else {
        p := p.(group := i);
      }
      return p, true;
    }
    return p, false;
  }

  // ----- the loop -----

  /** Attempts a run may still make: the rest of this group's budget and all of the later groups'. */
  function Budget(c: Config, p: Cursor): int {
    (if c.auto && !c.locked then (c.groups - 1 - p.group) * (MaxRetries(c) + 1) else 0) + MaxRetries(c) + 1 - p.retry
  }

  predicate Proper(p: Cursor) {
    0 <= p.retry && 0 <= p.group && !p.resetNext
  }

  lemma {:induction false} SelectFromSpends(c: Config, w: World, n: nat, p: Cursor, start: int, i: int)
    requires c.auto && !c.locked && 0 <= start <= i && !p.resetNext
    requires 0 <= p.retry <= MaxRetries(c) && p.group == i && (i > start ==> p.retry == 0)
    ensures var r := SelectFrom(c, w, n, p, start, i);
            r.1 ==> 0 <= r.0.retry && 0 <= r.0.group && Budget(c, Increased(r.0)) < Budget(c, p) && Budget(c, p) > 0
    decreases c.groups - i
  {
    if i < c.groups {
      var priority := if i > start then 0 else p.retry;
      BudgetSteps(c, p);
      if !w.available(n, i, priority) {
        SelectFromSpends(c, w, n, p.(group := i + 1, retry := 0), start, i + 1);
      }
    }
  }

  lemma BudgetSteps(c: Config, p: Cursor)
    requires c.auto && !c.locked && 0 <= p.retry <= MaxRetries(c) && p.group < c.groups
    ensures Budget(c, p) > 0
    ensures Budget(c, p.(group := p.group + 1, retry := 0, resetNext := false)) == Budget(c, p) - (MaxRetries(c) + 1 - p.retry)
  {
    var m, g := MaxRetries(c) + 1, c.groups - 1 - p.group;
    assert g * m >= 0;
    assert (g - 1) * m == g * m - m;
  }

  lemma ChannelSpends(c: Config, w: World, n: nat, p: Cursor)
    requires Proper(p) && p.retry <= MaxRetries(c) && n > 0
    ensures var r := ChannelFor(c, w, n, p);
            r.1 ==> Proper(Increased(r.0)) && Budget(c, Increased(r.0)) < Budget(c, p) && Budget(c, p) > 0
  {
    if c.auto && !c.locked { SelectFromSpends(c, w, n, p, p.group, p.group); }
  }

  /** The results of the attempts made, and whether the run ends with an error set. */
  datatype Run = Run(log: seq<Result>, failed: bool)

  function Measure(c: Config, p: Cursor): nat {
    if Budget(c, p) > 0 then Budget(c, p) else 0
  }

  /** The loop from attempt n on. */
  function Loop(c: Config, w: World, n: nat, p: Cursor): Run
    requires Proper(p)
    decreases if n == 0 then 1 else 0, Measure(c, p)
  {
    if p.retry > MaxRetries(c) then Run([], n > 0)
    else
      var r := ChannelFor(c, w, n, p);
      if !r.1 || !w.bodyOk(n) then Run([], true)
      else
        match w.result(n)
        case Success => Run([Success], false)
        case Failure(e) =>
          if !Retries(c, e, MaxRetries(c) - r.0.retry) then Run([Failure(e)], true)
          else
            assert n > 0 ==> Budget(c, Increased(r.0)) < Budget(c, p) && Budget(c, p) > 0 by {
              if n > 0 { ChannelSpends(c, w, n, p); }
            }
            assert Proper(Increased(r.0)) by { if n > 0 { ChannelSpends(c, w, n, p); } }
            var rest := Loop(c, w, n + 1, Increased(r.0));
            Run([Failure(e)] + rest.log, rest.failed)
  }

  /** What an attempt does to billing if no session is open yet: it may fail before, need none, or
      try to open one. */
  datatype Opening = NotReached | Free | Opens(quota: nat, tokenOk: bool, fundOk: bool, rollbackOk: bool)

  /** What an opening takes: a subscription at least 1. */
  function Amount(o: Opening, source: Billing.Source): nat
    requires o.Opens?
  {
    if source.Subscription? && o.quota == 0 then 1 else o.quota
  }

  /** The opening succeeds: the writes it needs go through, the token's not for the playground. */
  predicate Succeeds(o: Opening, source: Billing.Source, playground: bool) {
    o.Opens? && (Amount(o, source) == 0 || ((playground || o.tokenOk) && o.fundOk))
  }

  /** What a failed opening leaves charged on the token: the funding write failed after the token's,
      and so did giving the token back. */
  function Loss(o: Opening, source: Billing.Source, playground: bool): nat {
    if o.Opens? && !playground && o.tokenOk && !o.fundOk && !o.rollbackOk then Amount(o, source) else 0
  }

  /** Opens a session if there is none: exactly when the opening succeeds, holding its amount. */
  method OpenBilling(session: Billing.Session?, o: Opening, source: Billing.Source, playground: bool)
    returns (s: Billing.Session?, lost: nat)
    requires session != null ==> Billing.Open(session.Now()) && session.playground == playground
    ensures s != null ==> Billing.Open(s.Now()) && s.playground == playground
    ensures s != session ==> fresh(s) && s != null && s.leaked == 0 && s.extraReserved == 0
    ensures session != null ==> s == session && lost == 0
    ensures session == null ==> (s != null <==> Succeeds(o, source, playground)) && lost == Loss(o, source, playground)
    ensures session == null && s != null ==> s.preConsumed == Amount(o, source) && s.source == source
  {
    s, lost := session, 0;
    if session == null && o.Opens? {
      var created := new Billing.Session(source, playground);
      var quota := if source.Subscription? && o.quota == 0 then 1 else o.quota;
      var ok := created.PreConsume(quota, false, o.tokenOk, o.fundOk, o.rollbackOk);
      if ok {
        Billing.OpenedIsOpen(source, playground, false, quota);
        s := created;
      } else {
        lost := created.tokens;
      }
    }
  }

  /** No opening of the first n attempts succeeds. */
  predicate NoneSucceeds(openings: nat -> Opening, source: Billing.Source, playground: bool, n: nat) {
    forall k :: 0 <= k < n ==> !Succeeds(openings(k), source, playground)
  }

  /** What the failed openings of the first n attempts left charged, up to the first that succeeds. */
  function Losses(openings: nat -> Opening, source: Billing.Source, playground: bool, n: nat): nat {
    if n == 0 then 0
    else
      Losses(openings, source, playground, n - 1)
      + if NoneSucceeds(openings, source, playground, n - 1) then Loss(openings(n - 1), source, playground) else 0
  }

  /** The session after n attempts is the one of the first opening that succeeded, if any. */
  ghost predicate Opened(session: Billing.Session?, openings: nat -> Opening, source: Billing.Source, playground: bool, n: nat)
    reads session
  {
    (session == null <==> NoneSucceeds(openings, source, playground, n))
    && forall k :: 0 <= k < n && Succeeds(openings(k), source, playground) && NoneSucceeds(openings, source, playground, k) ==>
         session != null && session.preConsumed == Amount(openings(k), source) && session.source == source
  }

  /** A run whose first results are already known. */
  function After(log: seq<Result>, rest: Run): Run {
    Run(log + rest.log, rest.failed)
  }

  lemma AfterOneMore(log: seq<Result>, r: Result, rest: Run)
    ensures After(log, Run([r] + rest.log, rest.failed)) == After(log + [r], rest)
  {
    assert log + ([r] + rest.log) == log + [r] + rest.log;
  }

  ghost predicate Running(session: Billing.Session?, given: Billing.Session?, playground: bool)
    reads session
  {
    (session != null ==> Billing.Open(session.Now()) && session.playground == playground)
    && (given != null ==> session == given)
    && (given == null && session != null ==> session.leaked == 0 && session.extraReserved == 0)
  }

  /** The loop of Relay and RelayTask. It ends for every world. Each attempt that gets to billing
      while no session is open may open one; whatever happens the session stays open. */
  method RelayLoop(c: Config, w: World, start: Cursor, given: Billing.Session?, openings: nat -> Opening,
                   source: Billing.Source, playground: bool)
    returns (log: seq<Result>, failed: bool, session: Billing.Session?, lost: nat)
    requires Proper(start)
    requires given != null ==> Billing.Open(given.Now()) && given.playground == playground
    ensures Run(log, failed) == Loop(c, w, 0, start)
    ensures Running(session, given, playground) && (session != given ==> fresh(session))
    ensures Billed(session, lost, given, openings, source, playground, |log|)
  {
    log, failed, session, lost := [], false, given, 0;
    var p, n := start, 0;
    while p.retry <= MaxRetries(c)
      invariant Proper(p) && failed == (n > 0) && n == |log|
      invariant Loop(c, w, 0, start) == After(log, Loop(c, w, n, p))
      invariant Running(session, given, playground) && (session != given ==> fresh(session))
      invariant Billed(session, lost, given, openings, source, playground, n)
      decreases if n == 0 then 1 else 0, Measure(c, p)
    {
      var next, round := TryOnce(c, w, n, p);
      if round.Stopped? {
        failed := true;
        return;
      }
      session, lost := OpenNext(session, lost, given, openings, n, source, playground);
      ghost var before := log;
      log, failed := log + [round.result], round.result.Failure?;
      if round.Last? { return; }
      AfterOneMore(before, round.result, Loop(c, w, n + 1, next));
      p, n := next, n + 1;
    }
  }

  /** Where billing stands after n attempts: a session given before is kept, otherwise the first
      opening that succeeded made it. */
  ghost predicate Billed(session: Billing.Session?, lost: nat, given: Billing.Session?, openings: nat -> Opening,
                         source: Billing.Source, playground: bool, n: nat)
    reads session
  {
    if given != null then lost == 0
    else Opened(session, openings, source, playground, n) && lost == Losses(openings, source, playground, n)
  }

  /** The billing part of attempt n. */
  method OpenNext(session: Billing.Session?, before: nat, ghost given: Billing.Session?, openings: nat -> Opening, n: nat,
                  source: Billing.Source, playground: bool)
    returns (s: Billing.Session?, lost: nat)
    requires Running(session, given, playground) && Billed(session, before, given, openings, source, playground, n)
    ensures Running(s, given, playground) && (s != session ==> fresh(s))
    ensures Billed(s, lost, given, openings, source, playground, n + 1)
  {
    var more;
    s, more := OpenBilling(session, openings(n), source, playground);
    lost := before + more;
    if given == null { OpenedOneMore(session, s, openings, source, playground, n); }
  }

  /** The next attempt keeps the session there is, or opens one exactly when it succeeds. */
  lemma OpenedOneMore(session: Billing.Session?, s: Billing.Session?, openings: nat -> Opening,
                      source: Billing.Source, playground: bool, n: nat)
    requires Opened(session, openings, source, playground, n) && (session != null ==> s == session)
    requires session == null ==> (s != null <==> Succeeds(openings(n), source, playground))
    requires session == null && s != null ==> s.preConsumed == Amount(openings(n), source) && s.source == source
    ensures Opened(s, openings, source, playground, n + 1)
  {
    assert NoneSucceeds(openings, source, playground, n + 1)
      <==> NoneSucceeds(openings, source, playground, n) && !Succeeds(openings(n), source, playground);
  }

  /** What one round of the loop comes to: no attempt, the last one, or one that is retried. */
  datatype Round = Stopped | Last(result: Result) | Again(result: Result)

  method TryOnce(c: Config, w: World, n: nat, start: Cursor) returns (p: Cursor, round: Round)
    requires Proper(start) && start.retry <= MaxRetries(c)
    ensures round.Stopped? ==> Loop(c, w, n, start) == Run([], true)
    ensures round.Last? ==> Loop(c, w, n, start) == Run([round.result], round.result.Failure?)
    ensures round.Again? ==> Proper(p) && round.result.Failure? && (n > 0 ==> Measure(c, p) < Measure(c, start))
    ensures round.Again? ==> Loop(c, w, n, start) == Run([round.result] + Loop(c, w, n + 1, p).log, Loop(c, w, n + 1, p).failed)
  {
    if n > 0 { ChannelSpends(c, w, n, start); }
    var ok;
    p, ok := GetChannel(c, w, n, start);
    if !ok || !w.bodyOk(n) { return p, Stopped; }
    var result := w.result(n);
    if result.Success? || !Retries(c, result.error, MaxRetries(c) - p.retry) { return p, Last(result); }
    return Increased(p), Again(result);
  }

  /** Which database writes of the end of a run succeed. */
  datatype Writes = Writes(settleFund: bool, settleToken: bool, refundFund: bool, refundExtra: bool, refundToken: bool)

  /** Relay: a successful attempt's handler settles with the actual usage, if it settles at all; a
      failed run gives back what was taken before the loop. */
  method Relay(c: Config, w: World, start: Cursor, billing: Billing.Session?, usage: Option<int>, db: Writes)
    returns (log: seq<Result>, failed: bool)
    requires Proper(start) && !c.task
    requires billing != null ==> Billing.Open(billing.Now())
    modifies billing
    ensures Run(log, failed) == Loop(c, w, 0, start)
    ensures billing != null && failed ==>
              billing.Now() == Billing.AfterRefund(old(billing.Now()), db.refundFund, db.refundExtra, db.refundToken)
    ensures billing != null && failed && db.refundFund && db.refundExtra && db.refundToken && billing.leaked == 0 ==>
              billing.funds == 0 && billing.tokens == 0
    ensures billing != null && !failed ==>
              billing.Now() == if usage.None? then old(billing.Now())
                               else Billing.AfterSettle(old(billing.Now()), usage.value, db.settleFund, db.settleToken)
  {
    var session, lost;
    log, failed, session, lost := RelayLoop(c, w, start, billing, _ => NotReached, Billing.Wallet,
                                            if billing != null then billing.playground else false);
    if billing != null {
      if failed {
        billing.DoRefund(db.refundFund, db.refundExtra, db.refundToken);
      } else if usage.Some? {
        billing.DoSettle(usage.value, db.settleFund, db.settleToken);
      }
    }
  }

  // ----- what every run keeps -----

  lemma {:induction false} LogWithinBudget(c: Config, w: World, n: nat, p: Cursor)
    requires Proper(p)
    ensures |Loop(c, w, n, p).log| <= if n == 0 && Budget(c, p) < 1 then 1 else Measure(c, p)
    decreases if n == 0 then 1 else 0, Measure(c, p)
  {
    if p.retry <= MaxRetries(c) {
      var r := ChannelFor(c, w, n, p);
      if r.1 && w.bodyOk(n) && w.result(n).Failure? && Retries(c, w.result(n).error, MaxRetries(c) - r.0.retry) {
        if n > 0 { ChannelSpends(c, w, n, p); }
        LogWithinBudget(c, w, n + 1, Increased(r.0));
      } else if n > 0 && r.1 {
        ChannelSpends(c, w, n, p);
      }
    }
  }

  /** The attempt limit: the retry limit plus one, once for each auto group still to be tried, and
      just one for ACU channels. */
  lemma AttemptsBounded(c: Config, w: World, start: Cursor)
    requires Proper(start) && start.retry == 0 && MaxRetries(c) >= 0
    ensures var groupsLeft := if c.auto && !c.locked && c.groups - start.group > 1 then c.groups - start.group else 1;
            |Loop(c, w, 0, start).log| <= groupsLeft * (MaxRetries(c) + 1)
    ensures MaxRetries(c) == 0 ==> |Loop(c, w, 0, start).log| <= 1
  {
    LogWithinBudget(c, w, 0, start);
    var m, left := MaxRetries(c) + 1, c.groups - start.group;
    if c.auto && !c.locked {
      assert (left - 1) * m + m == left * m;
      if left <= 1 { assert left * m <= m; }
    }
    if MaxRetries(c) == 0 {
      var r := ChannelFor(c, w, 0, start);
      assert Increased(r.0).retry == 1;
      assert Proper(Increased(r.0));
      assert Loop(c, w, 1, Increased(r.0)).log == [];
    }
  }

  /** No attempt follows a success, and the run ends without an error exactly when its last attempt
      succeeded, or when a negative limit lets it make none. */
  lemma {:induction false} OnlyLastCanSucceed(c: Config, w: World, n: nat, p: Cursor)
    requires Proper(p)
    ensures var run := Loop(c, w, n, p);
            (forall i :: 0 <= i < |run.log| - 1 ==> run.log[i].Failure?)
            && (!run.failed <==> (run.log != [] && run.log[|run.log| - 1].Success?) || (n == 0 && p.retry > MaxRetries(c)))
    decreases if n == 0 then 1 else 0, Measure(c, p)
  {
    if p.retry <= MaxRetries(c) {
      var r := ChannelFor(c, w, n, p);
      if r.1 && w.bodyOk(n) && w.result(n).Failure? && Retries(c, w.result(n).error, MaxRetries(c) - r.0.retry) {
        if n > 0 { ChannelSpends(c, w, n, p); }
        OnlyLastCanSucceed(c, w, n + 1, Increased(r.0));
      }
    }
  }

  // ----- an auto token can exceed the retry limit plus one -----

  const OUTAGE := Error(500, true, false, false, true, false)

  /** Only one group has channels, and everything fails in a retryable way. */
  function OnlyGroup(g: int): World {
    World((n, group, priority) => group == g, n => true, n => true, n => Failure(OUTAGE))
  }

  /** Switching groups can restart the counter: there is a second group to go to, and a failing
      attempt can be retried at all. A channel error is retried even on a specific channel. */
  predicate CanExceed(c: Config, start: Cursor) {
    c.auto && !c.locked && (!c.isACU || c.task) && c.retryTimes >= 1 && c.groups - start.group >= 2
    && !c.affinitySkip && (c.specificChannel ==> !c.task)
  }

  lemma {:induction false} NothingPast(c: Config, g: int, n: nat, p: Cursor, start: int, i: int)
    requires i > g
    ensures !SelectFrom(c, OnlyGroup(g), n, p, start, i).1
    decreases c.groups - i
  {
    if i < c.groups { NothingPast(c, g, n, p.(group := i + 1, retry := 0), start, i + 1); }
  }

  /** The next group gets its whole budget of attempts. */
  lemma {:induction false} NextGroupRuns(c: Config, start: Cursor, n: nat, retry: nat)
    requires Proper(start) && CanExceed(c, start) && n > 0 && retry <= c.retryTimes
    ensures var g := start.group + 1;
            |Loop(c, OnlyGroup(g), n, Cursor(retry, g, false)).log| == c.retryTimes + 1 - retry
    decreases c.retryTimes - retry
  {
    var g := start.group + 1;
    var w, p := OnlyGroup(g), Cursor(retry, g, false);
    var r := ChannelFor(c, w, n, p);
    assert w.available(n, g, retry);
    ChannelSpends(c, w, n, p);
    if retry < c.retryTimes {
      assert r == (p, true);
      NextGroupRuns(c, start, n + 1, retry + 1);
    } else if c.cross {
      assert r == (Cursor(0, g + 1, true), true);
      NothingPast(c, g, n + 1, Cursor(0, g + 1, false), g + 1, g + 1);
      assert Loop(c, w, n + 1, Cursor(0, g + 1, false)).log == [];
    } else {
      assert r == (p, true);
    }
  }

  /** With another auto group to go to and one retry allowed, some run makes more than
      retryTimes + 1 attempts: switching groups restarts the counter. */
  lemma AutoGroupsExceedLimit(c: Config, start: Cursor)
    requires Proper(start) && start.retry == 0 && CanExceed(c, start)
    ensures |Loop(c, OnlyGroup(start.group + 1), 0, start).log| == c.retryTimes + 2
  {
    var g := start.group + 1;
    var w := OnlyGroup(g);
    var first, second := Cursor(1, g - 1, false), Cursor(0, g, false);
    assert !w.available(1, g - 1, 1) && w.available(1, g, 0);
    assert SelectFrom(c, w, 1, first, g - 1, g - 1) == SelectFrom(c, w, 1, second, g - 1, g);
    assert SelectFrom(c, w, 1, second, g - 1, g) == (second, true);
    assert ChannelFor(c, w, 1, first) == (second, true);
    ChannelSpends(c, w, 1, first);
    NextGroupRuns(c, start, 2, 1);
    assert |Loop(c, w, 1, first).log| == 1 + |Loop(c, w, 2, Cursor(1, g, false)).log|;
    assert ChannelFor(c, w, 0, start) == (start, true);
  }

  /** Every group has channels, and everything fails in a retryable way. */
  function Everywhere(): World {
    World((n, group, priority) => true, n => true, n => true, n => Failure(OUTAGE))
  }

  /** Switching groups across restarts the counter, and a failing attempt is retried. */
  predicate Crosses(c: Config) {
    c.auto && !c.locked && c.cross && (!c.isACU || c.task) && c.retryTimes >= 1 && !c.affinitySkip
    && (c.specificChannel ==> !c.task)
  }

  lemma SameGroupNext(c: Config, n: nat, g: nat, retry: nat)
    requires Crosses(c) && n > 0 && retry < c.retryTimes && g < c.groups
    ensures |Loop(c, Everywhere(), n, Cursor(retry, g, false)).log|
         == 1 + |Loop(c, Everywhere(), n + 1, Cursor(retry + 1, g, false)).log|
  {
    var w, p := Everywhere(), Cursor(retry, g, false);
    ChannelSpends(c, w, n, p);
    assert w.available(n, g, retry);
    assert ChannelFor(c, w, n, p) == (p, true);
  }

  lemma NextGroupNext(c: Config, n: nat, g: nat)
    requires Crosses(c) && n > 0 && g < c.groups
    ensures |Loop(c, Everywhere(), n, Cursor(c.retryTimes, g, false)).log|
         == 1 + |Loop(c, Everywhere(), n + 1, Cursor(0, g + 1, false)).log|
  {
    var w, p := Everywhere(), Cursor(c.retryTimes, g, false);
    ChannelSpends(c, w, n, p);
    assert w.available(n, g, c.retryTimes);
    assert ChannelFor(c, w, n, p) == (Cursor(0, g + 1, true), true);
  }

  lemma NoGroupLeft(c: Config, n: nat, g: nat)
    requires Crosses(c) && n > 0 && g >= c.groups
    ensures Loop(c, Everywhere(), n, Cursor(0, g, false)).log == []
  {
  }

  /** Each group left gets a whole budget of attempts. */
  lemma {:induction false} GroupsRun(c: Config, n: nat, g: nat, retry: nat, later: nat)
    requires Crosses(c) && n > 0 && retry <= c.retryTimes && g + later + 1 == c.groups
    ensures |Loop(c, Everywhere(), n, Cursor(retry, g, false)).log| == later * (c.retryTimes + 1) + c.retryTimes + 1 - retry
    decreases later, c.retryTimes - retry
  {
    if retry < c.retryTimes {
      SameGroupNext(c, n, g, retry);
      GroupsRun(c, n + 1, g, retry + 1, later);
    } else {
      NextGroupNext(c, n, g);
      if later > 0 {
        GroupsRun(c, n + 1, g + 1, 0, later - 1);
        assert later * (c.retryTimes + 1) == (later - 1) * (c.retryTimes + 1) + (c.retryTimes + 1);
      } else {
        NoGroupLeft(c, n + 1, g + 1);
      }
    }
  }

  /** The bound on attempts is reached: the retry limit plus one in every group left. */
  lemma BoundIsReached(c: Config, start: Cursor)
    requires Proper(start) && start.retry == 0 && start.group < c.groups && Crosses(c)
    ensures |Loop(c, Everywhere(), 0, start).log| == (c.groups - start.group) * (c.retryTimes + 1)
  {
    var m, later := c.retryTimes + 1, c.groups - 1 - start.group;
    assert later * m + m == (later + 1) * m;
    GroupsRun(c, 1, start.group, 1, later);
    assert ChannelFor(c, Everywhere(), 0, start) == (start, true);
  }

  /** Where nothing is ever retried, one attempt is all there is. */
  lemma NoRetryOneAttempt(c: Config, w: World, start: Cursor)
    requires Proper(start) && (c.affinitySkip || (c.task && c.specificChannel))
    ensures |Loop(c, w, 0, start).log| <= 1
  {
  }

  /** Whatever answers come, and whichever group the request starts in, at most retryTimes + 1
      attempts are made, exactly when group switching cannot restart the counter. A negative limit
      counts as none. */
  lemma LimitHoldsExactly(c: Config, start: Cursor)
    requires Proper(start) && start.retry == 0
    ensures (forall w :: |Loop(c, w, 0, start).log| <= (if c.retryTimes < 0 then 0 else c.retryTimes) + 1)
       <==> !CanExceed(c, start)
  {
    if CanExceed(c, start) {
      AutoGroupsExceedLimit(c, start);
      assert |Loop(c, OnlyGroup(start.group + 1), 0, start).log| > c.retryTimes + 1;
    } else {
      forall w ensures |Loop(c, w, 0, start).log| <= (if c.retryTimes < 0 then 0 else c.retryTimes) + 1 {
        if c.affinitySkip || (c.task && c.specificChannel) {
          NoRetryOneAttempt(c, w, start);
        } else if MaxRetries(c) >= 0 {
          AttemptsBounded(c, w, start);
        }
      }
    }
  }

  // ----- a task run and its billing -----

  /** RelayTask. held is what the session had taken, 0 without one. On success the task is stored
      with its quota and the charge is that quota exactly when the funding write succeeds or
      nothing was left to settle; on failure nothing is stored, and what was held is charged only
      if its refund write fails. */
  method RelayTask(c: Config, w: World, start: Cursor, openings: nat -> Opening, quotaOf: nat -> int,
                   source: Billing.Source, playground: bool, db: Writes)
    returns (log: seq<Result>, failed: bool, stored: Option<int>, held: int, funds: int, tokens: int, lost: nat,
             session: Billing.Session?)
    requires Proper(start) && start.retry <= MaxRetries(c) && c.task
    ensures Run(log, failed) == Loop(c, w, 0, start)
    ensures !failed ==>
              |log| > 0 && stored == Some(quotaOf(|log| - 1))
              && funds == (if db.settleFund || held == stored.value then stored.value else held)
              && tokens == lost + (if playground then 0
                                   else if held == stored.value || (db.settleFund && db.settleToken) then stored.value
                                   else held)
    ensures !failed ==> (funds == stored.value <==> db.settleFund || held == stored.value)
    ensures failed ==> stored == None && funds == (if db.refundFund then 0 else held)
                       && tokens == lost + if playground || db.refundToken then 0 else held
    ensures lost == Losses(openings, source, playground, |log|)
    ensures NoneSucceeds(openings, source, playground, |log|) ==> session == null
    ensures forall k :: 0 <= k < |log| && Succeeds(openings(k), source, playground)
                        && NoneSucceeds(openings, source, playground, k) ==>
              session != null && held == Amount(openings(k), source)
    ensures if session == null then held == 0
            else held == session.preConsumed
                 && (session.settled <==> !failed && (db.settleFund || held == stored.value))
                 && (session.refunded <==> failed && held > 0)
  {
    log, failed, session, lost := RelayLoop(c, w, start, null, openings, source, playground);
    OnlyLastCanSucceed(c, w, 0, start);
    held := Held(session);
    stored := None;
    if !failed {
      stored := Some(quotaOf(|log| - 1));
      funds, tokens := SettleTask(session, stored.value, playground, db);
    } else {
      funds, tokens := RefundTask(session, playground, db);
    }
    tokens := tokens + lost;
  }

  function Held(session: Billing.Session?): int
    reads session
  {
    if session == null then 0 else session.preConsumed
  }

  /** SettleBilling: through the session, or directly when there is none. */
  method SettleTask(session: Billing.Session?, quota: int, playground: bool, db: Writes) returns (funds: int, tokens: int)
    requires Running(session, null, playground)
    modifies session
    ensures Held(session) == old(Held(session))
    ensures funds == if db.settleFund || Held(session) == quota then quota else Held(session)
    ensures tokens == if playground then 0
                      else if Held(session) == quota || (db.settleFund && db.settleToken) then quota
                      else Held(session)
    ensures session != null ==> (session.settled <==> db.settleFund || Held(session) == quota) && !session.refunded
  {
    funds, tokens := 0, 0;
    if session != null {
      session.DoSettle(quota, db.settleFund, db.settleToken);
      funds, tokens := session.funds, session.tokens;
    } else if quota != 0 && db.settleFund {
      funds := quota;
      if !playground && db.settleToken { tokens := quota; }
    }
  }

  /** The deferred refund of a failed run. */
  method RefundTask(session: Billing.Session?, playground: bool, db: Writes) returns (funds: int, tokens: int)
    requires Running(session, null, playground)
    modifies session
    ensures Held(session) == old(Held(session))
    ensures funds == (if db.refundFund then 0 else Held(session))
    ensures tokens == if playground || db.refundToken then 0 else Held(session)
    ensures session != null ==> !session.settled && (session.refunded <==> Held(session) > 0)
  {
    funds, tokens := 0, 0;
    if session != null {
      session.DoRefund(db.refundFund, db.refundExtra, db.refundToken);
      funds, tokens := session.funds, session.tokens;
    }
  }
}
