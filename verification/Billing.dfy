/** The billing session of one request (service/billing_session.go, service/funding_source.go):
    quota is taken up front, topped up, and finally settled or refunded. Whether each database
    write succeeds, the undoing of half-done steps and refunds included, is a parameter. */
module Billing {

  datatype Source = Wallet | Subscription

  /** The session's own fields, plus what it has taken so far from the funding source and from the
      token, and how much of the former only failed rollbacks left taken. held is
      WalletFunding.consumed or SubscriptionFunding.preConsumed. */
  datatype State = State(source: Source, playground: bool, trusted: bool, preConsumed: int, tokenConsumed: int,
                         extraReserved: int, held: int, fundingSettled: bool, settled: bool, refunded: bool,
                         funds: int, tokens: int, leaked: int)

  datatype Call =
    | Reserve(target: int, fundOk: bool, tokenOk: bool, rollbackOk: bool)
    | Settle(actual: int, fundOk: bool, tokenOk: bool)
    | Refund(fundOk: bool, extraOk: bool, tokenOk: bool)

  predicate NeedsRefund(s: State) {
    !s.settled && !s.refunded && !s.fundingSettled && (s.tokenConsumed > 0 || (s.source.Subscription? && s.held > 0))
  }

  /** The amount opening takes: nothing from a trusted wallet, at least 1 from a subscription. */
  function OpeningAmount(source: Source, trusted: bool, quota: nat): nat {
    if source.Subscription? then (if quota == 0 then 1 else quota) else if trusted then 0 else quota
  }

  /** A session that has just taken its opening amount from both sides. */
  function Opened(source: Source, playground: bool, trusted: bool, quota: nat): State {
    var amount := OpeningAmount(source, trusted, quota);
    State(source, playground, source.Wallet? && trusted, amount, amount, 0, amount, false, false, false,
          amount, if playground then 0 else amount, 0)
  }

  function AfterReserve(s: State, target: int, fundOk: bool, tokenOk: bool, rollbackOk: bool): State {
    var delta := target - s.preConsumed;
    if s.settled || s.refunded || s.trusted || delta <= 0 || !fundOk then s
    else if tokenOk || s.playground then
      s.(preConsumed := target, tokenConsumed := s.tokenConsumed + delta, extraReserved := s.extraReserved + delta,
         held := if s.source.Wallet? then s.held + delta else s.held,
         funds := s.funds + delta, tokens := if s.playground then s.tokens else s.tokens + delta)
    else if rollbackOk then s
    else s.(funds := s.funds + delta, leaked := s.leaked + delta,
            held := if s.source.Wallet? then s.held + delta else s.held)
  }

  function AfterSettle(s: State, actual: int, fundOk: bool, tokenOk: bool): State {
    var delta := actual - s.preConsumed;
    if s.settled then s
    else if delta == 0 then s.(settled := true)
    else if !s.fundingSettled && !fundOk then s
    else s.(fundingSettled := true, settled := true,
            funds := if s.fundingSettled then s.funds else s.funds + delta,
            tokens := if s.playground || !tokenOk then s.tokens else s.tokens + delta)
  }

  function AfterRefund(s: State, fundOk: bool, extraOk: bool, tokenOk: bool): State {
    if !NeedsRefund(s) then s
    else s.(refunded := true,
            funds := s.funds - (if s.held > 0 && fundOk then s.held else 0)
                     - (if s.extraReserved > 0 && s.source.Subscription? && extraOk then s.extraReserved else 0),
            tokens := if s.tokenConsumed > 0 && !s.playground && tokenOk then s.tokens - s.tokenConsumed else s.tokens)
  }

  function After(s: State, c: Call): State {
    match c
    case Reserve(target, fundOk, tokenOk, rollbackOk) => AfterReserve(s, target, fundOk, tokenOk, rollbackOk)
    case Settle(actual, fundOk, tokenOk) => AfterSettle(s, actual, fundOk, tokenOk)
    case Refund(fundOk, extraOk, tokenOk) => AfterRefund(s, fundOk, extraOk, tokenOk)
  }

  class Session {
    const source: Source
    const playground: bool
    var trusted: bool
    var preConsumed: int
    var tokenConsumed: int
    var extraReserved: int
    var held: int
    var fundingSettled: bool
    var settled: bool
    var refunded: bool
    var funds: int
    var tokens: int
    var leaked: int

    function Now(): State
      reads this
    {
      State(source, playground, trusted, preConsumed, tokenConsumed, extraReserved, held, fundingSettled, settled,
            refunded, funds, tokens, leaked)
    }

    constructor (source: Source, playground: bool)
      ensures Now() == State(source, playground, false, 0, 0, 0, 0, false, false, false, 0, 0, 0)
    {
      this.source, this.playground := source, playground;
      trusted, preConsumed, tokenConsumed, extraReserved, held := false, 0, 0, 0, 0;
      fundingSettled, settled, refunded, funds, tokens, leaked := false, false, false, 0, 0, 0;
    }

    /** preConsume: the token first, then the funding source; a failure there gives the token back,
        if that write succeeds. */
    method PreConsume(quota: nat, trust: bool, tokenOk: bool, fundOk: bool, rollbackOk: bool) returns (ok: bool)
      requires Now() == State(source, playground, false, 0, 0, 0, 0, false, false, false, 0, 0, 0)
      requires source.Subscription? ==> quota > 0
      modifies this
      ensures var amount := OpeningAmount(source, trust, quota);
              ok == ((playground || amount == 0 || tokenOk) && (amount == 0 || fundOk))
      ensures ok ==> Now() == Opened(source, playground, trust, quota)
      ensures !ok ==> funds == 0 && tokens == if playground || !tokenOk || rollbackOk then 0
                                              else OpeningAmount(source, trust, quota)
    {
      var effective: int := quota;
      if trust && source.Wallet? {
        trusted := true;
        effective := 0;
      }
      if effective > 0 {
        if !playground {
          if !tokenOk { return false; }
          tokens := tokens + effective;
        }
        tokenConsumed := effective;
      }
      if source.Subscription? || effective > 0 {
        if !fundOk {
          if tokenConsumed > 0 && !playground {
            if rollbackOk { tokens := tokens - tokenConsumed; }
            tokenConsumed := 0;
          }
          return false;
        }
        funds := funds + effective;
        held := effective;
      }
      preConsumed := effective;
      return true;
    }

    method DoReserve(targetQuota: int, fundOk: bool, tokenOk: bool, rollbackOk: bool)
      modifies this
      ensures Now() == AfterReserve(old(Now()), targetQuota, fundOk, tokenOk, rollbackOk)
    {
      if settled || refunded || trusted || targetQuota <= preConsumed { return; }
      var delta := targetQuota - preConsumed;
      if !fundOk { return; }
      funds := funds + delta;
      if source.Wallet? { held := held + delta; }
      if !playground {
        if !tokenOk {
          if rollbackOk {
            funds := funds - delta;
            if source.Wallet? { held := held - delta; }
          } else {
            leaked := leaked + delta;
          }
          return;
        }
        tokens := tokens + delta;
      }
      preConsumed, tokenConsumed, extraReserved := preConsumed + delta, tokenConsumed + delta, extraReserved + delta;
    }

    method DoSettle(actualQuota: int, fundOk: bool, tokenOk: bool)
      modifies this
      ensures Now() == AfterSettle(old(Now()), actualQuota, fundOk, tokenOk)
    {
      if settled { return; }
      var delta := actualQuota - preConsumed;
      if delta == 0 {
        settled := true;
        return;
      }
      if !fundingSettled {
        if !fundOk { return; }
        funds := funds + delta;
        fundingSettled := true;
      }
      if !playground && tokenOk {
        tokens := tokens + delta;
      }
      settled := true;
    }

    method DoRefund(fundOk: bool, extraOk: bool, tokenOk: bool)
      modifies this
      ensures Now() == AfterRefund(old(Now()), fundOk, extraOk, tokenOk)
    {
      if settled || refunded || fundingSettled { return; }
      if !(tokenConsumed > 0 || (source.Subscription? && held > 0)) { return; }
      refunded := true;
      if held > 0 && fundOk { funds := funds - held; }
      if extraReserved > 0 && source.Subscription? && extraOk { funds := funds - extraReserved; }
      if tokenConsumed > 0 && !playground && tokenOk { tokens := tokens - tokenConsumed; }
    }
  }

  /** A top-up on an open session whose writes succeed takes exactly what is missing to the target
      from both sides, and holds it; an untrusted session never ends up holding less than before. */
  lemma ReserveTakes(s: State, target: int, fundOk: bool, tokenOk: bool, rollbackOk: bool)
    requires Open(s)
    ensures var after := AfterReserve(s, target, fundOk, tokenOk, rollbackOk);
            var tops := !s.trusted && target > s.preConsumed;
            (tops && fundOk && (tokenOk || s.playground) ==>
               after.preConsumed == target && after.funds == s.funds + (target - s.preConsumed)
               && after.tokens == (if s.playground then 0 else target) && after.leaked == s.leaked)
            && (!(tops && fundOk && (tokenOk || s.playground)) ==>
                  after.preConsumed == s.preConsumed && after.tokens == s.tokens && after.funds - after.leaked == s.funds - s.leaked)
            && (after.leaked > s.leaked <==> tops && fundOk && !tokenOk && !s.playground && !rollbackOk)
            && (after.leaked > s.leaked ==> after.leaked == s.leaked + (target - s.preConsumed))
  {
  }

  // ----- what every sequence of calls keeps -----

  /** The books of the session agree with each other. */
  predicate Balanced(s: State) {
    s.preConsumed >= 0 && s.extraReserved >= 0 && s.leaked >= 0 && s.tokenConsumed == s.preConsumed
    && s.held == (if s.source.Wallet? then s.preConsumed + s.leaked else s.preConsumed - s.extraReserved)
    && (s.source.Subscription? ==> s.held > 0) && (s.fundingSettled ==> s.settled)
  }

  /** While the session is open both sides have paid exactly preConsumed, leaks aside. */
  predicate Open(s: State) {
    Balanced(s) && !s.settled && !s.refunded
    && s.funds == s.preConsumed + s.leaked && s.tokens == if s.playground then 0 else s.preConsumed
  }

  function Run(s: State, calls: seq<Call>): State {
    if calls == [] then s else After(Run(s, calls[..|calls| - 1]), calls[|calls| - 1])
  }

  /** What decided a session, and which of its writes succeeded. */
  datatype Fate = StillOpen | SettledAt(amount: int, tokenToo: bool) | GivenBack(fundToo: bool, extraToo: bool, tokenAlso: bool)

  /** How a call decides a session that is still open. */
  function Decided(now: State, c: Call): Fate {
    match c
    case Reserve(_, _, _, _) => StillOpen
    case Settle(actual, fundOk, tokenOk) =>
      if actual == now.preConsumed then SettledAt(actual, true)
      else if fundOk then SettledAt(actual, tokenOk)
      else StillOpen
    case Refund(fundOk, extraOk, tokenOk) =>
      if now.preConsumed > 0 then GivenBack(fundOk, extraOk, tokenOk) else StillOpen
  }

  /** How the first settling or refunding call decided the session. */
  function FateOf(s: State, calls: seq<Call>): Fate {
    if calls == [] then StillOpen
    else
      var front := calls[..|calls| - 1];
      if FateOf(s, front) != StillOpen then FateOf(s, front) else Decided(Run(s, front), calls[|calls| - 1])
  }

  /** The call does not settle a refunded session: it is no settlement, or its funding write fails
      with a difference to write. */
  predicate Harmless(s: State, c: Call) {
    c.Settle? && s.refunded ==> !c.fundOk && c.actual != s.preConsumed
  }

  /** No call of the sequence settles the session after an effective refund. */
  predicate NeverSettledAfterRefund(s: State, calls: seq<Call>) {
    forall i :: 0 <= i < |calls| ==> Harmless(Run(s, calls[..i]), calls[i])
  }

  /** What a refund with these write outcomes leaves taken. A wallet's leaks go back with what it
      held; a subscription's do not. */
  function LeftTaken(s: State, fundToo: bool, extraToo: bool): int {
    (if fundToo then 0 else s.held)
    + if s.source.Wallet? then 0 else s.leaked + if extraToo then 0 else s.extraReserved
  }

  /** The books at every point of a run, its flags included: held while open, the settled amount
      once settled, what failed writes left once refunded. */
  ghost predicate Agrees(s: State, f: Fate) {
    match f
    case StillOpen => Open(s)
    case SettledAt(amount, tokenToo) =>
      Balanced(s) && s.settled && !s.refunded && s.funds == amount + s.leaked
      && s.tokens == if s.playground then 0 else if tokenToo then amount else s.preConsumed
    case GivenBack(fundToo, extraToo, tokenAlso) =>
      Balanced(s) && s.refunded && !s.settled && s.funds == LeftTaken(s, fundToo, extraToo)
      && s.tokens == if s.playground || tokenAlso then 0 else s.preConsumed
  }

  lemma OpenedIsOpen(source: Source, playground: bool, trusted: bool, quota: nat)
    ensures Open(Opened(source, playground, trusted, quota)) && Opened(source, playground, trusted, quota).leaked == 0
  {
  }

  lemma HarmlessOneMore(s: State, calls: seq<Call>)
    requires calls != []
    ensures var front := calls[..|calls| - 1];
            NeverSettledAfterRefund(s, calls) <==> NeverSettledAfterRefund(s, front) && Harmless(Run(s, front), calls[|calls| - 1])
  {
    var front, last := calls[..|calls| - 1], |calls| - 1;
    forall i | 0 <= i < last ensures Harmless(Run(s, front[..i]), front[i]) <==> Harmless(Run(s, calls[..i]), calls[i]) {
      assert front[..i] == calls[..i];
    }
  }

  /** Once a refunded session is settled its books never agree again. */
  lemma BrokenStays(s: State, c: Call, f: Fate)
    requires s.refunded && s.settled
    ensures After(s, c).refunded && After(s, c).settled && !Agrees(After(s, c), f)
  {
  }

  /** One call on a session whose books agree. */
  lemma CallAgrees(s: State, f: Fate, c: Call)
    requires Agrees(s, f)
    ensures var after, fate := After(s, c), if f != StillOpen then f else Decided(s, c);
            if Harmless(s, c) then Agrees(after, fate) else after.refunded && after.settled && !Agrees(after, fate)
  {
    if f.StillOpen? {
      OpenAgrees(s, c);
    } else {
      DecidedAgrees(s, f, c);
    }
  }

  lemma OpenAgrees(s: State, c: Call)
    requires Open(s)
    ensures Harmless(s, c) && Agrees(After(s, c), Decided(s, c))
  {
  }

  lemma DecidedAgrees(s: State, f: Fate, c: Call)
    requires !f.StillOpen? && Agrees(s, f)
    ensures if Harmless(s, c) then After(s, c) == s else After(s, c).refunded && After(s, c).settled && !Agrees(After(s, c), f)
  {
  }

  /** Whatever the order of top-ups, settlements and refunds, and whichever writes fail, the books
      agree: the session is open, settled or refunded, and funding is charged what is held, the
      settled amount, or what failed refund writes left, with failed rollbacks on top, if and only
      if no call settles the session after an effective refund. */
  lemma {:induction false} SessionConserves(s: State, calls: seq<Call>)
    requires Open(s)
    ensures Agrees(Run(s, calls), FateOf(s, calls)) <==> NeverSettledAfterRefund(s, calls)
    ensures !NeverSettledAfterRefund(s, calls) ==> Run(s, calls).refunded && Run(s, calls).settled
  {
    if calls != [] {
      var front := calls[..|calls| - 1];
      SessionConserves(s, front);
      HarmlessOneMore(s, calls);
      if NeverSettledAfterRefund(s, front) {
        CallAgrees(Run(s, front), FateOf(s, front), calls[|calls| - 1]);
      } else {
        BrokenStays(Run(s, front), calls[|calls| - 1], FateOf(s, calls));
      }
    }
  }

  // ----- the amounts alone -----

  /** What the session is charged for in the end: a settlement counts even after a refund. */
  function FinalOf(s: State, calls: seq<Call>): Fate {
    if calls == [] then StillOpen
    else
      var front := calls[..|calls| - 1];
      var before, now := FinalOf(s, front), Decided(Run(s, front), calls[|calls| - 1]);
      if before.StillOpen? || (before.GivenBack? && now.SettledAt?) then now else before
  }

  function DueFunds(s: State, f: Fate): int {
    match f
    case StillOpen => s.preConsumed + s.leaked
    case SettledAt(amount, _) => amount + s.leaked
    case GivenBack(fundToo, extraToo, _) => LeftTaken(s, fundToo, extraToo)
  }

  function DueTokens(s: State, f: Fate): int {
    if s.playground then 0
    else
      match f
      case StillOpen => s.preConsumed
      case SettledAt(amount, tokenToo) => if tokenToo then amount else s.preConsumed
      case GivenBack(_, _, tokenAlso) => if tokenAlso then 0 else s.preConsumed
  }

  /** A refunded session that was settled all the same: the difference went on top of what the
      refund had left. */
  ghost predicate SettledOnTop(s: State, refund: Fate, settle: Fate) {
    refund.GivenBack? && settle.SettledAt? && Balanced(s) && s.refunded && s.settled && s.preConsumed > 0
    && s.funds == LeftTaken(s, refund.fundToo, refund.extraToo) + (settle.amount - s.preConsumed)
    && s.tokens == DueTokens(s, refund) + if s.playground || !settle.tokenToo then 0 else settle.amount - s.preConsumed
  }

  /** Where one call leads, from a session whose books agree or that was settled on top. */
  lemma CallLeads(s: State, c: Call, refund: Fate, final: Fate)
    requires (Agrees(s, refund) && final == refund && (refund.GivenBack? ==> s.preConsumed > 0)) || SettledOnTop(s, refund, final)
    ensures var after, now := After(s, c), Decided(s, c);
            var refund' := if refund != StillOpen then refund else now;
            var final' := if final.StillOpen? || (final.GivenBack? && now.SettledAt?) then now else final;
            (Agrees(after, refund') && final' == refund' && (refund'.GivenBack? ==> after.preConsumed > 0))
            || SettledOnTop(after, refund', final')
  {
  }

  lemma {:induction false} RunLeads(s: State, calls: seq<Call>)
    requires Open(s)
    ensures var now, refund, final := Run(s, calls), FateOf(s, calls), FinalOf(s, calls);
            (Agrees(now, refund) && final == refund && (refund.GivenBack? ==> now.preConsumed > 0))
            || SettledOnTop(now, refund, final)
  {
    if calls != [] {
      var front := calls[..|calls| - 1];
      RunLeads(s, front);
      CallLeads(Run(s, front), calls[|calls| - 1], FateOf(s, front), FinalOf(s, front));
    }
  }

  /** The refund that decided the session gave nothing back to the funding source. */
  predicate FundsKept(s: State, f: Fate) {
    f.GivenBack? && !f.fundToo && (s.source.Wallet? || s.extraReserved == 0 || !f.extraToo)
  }

  /** Whichever writes fail, a run charges funding what is held, the settled amount or what failed
      refund writes left, failed rollbacks on top, if and only if nothing settles the session after
      an effective refund or that refund gave the funding source nothing back; and the same for the
      token. */
  lemma ChargeExactly(s: State, calls: seq<Call>)
    requires Open(s)
    ensures var now, refund, final := Run(s, calls), FateOf(s, calls), FinalOf(s, calls);
            (now.funds == DueFunds(now, final) <==> NeverSettledAfterRefund(s, calls) || FundsKept(now, refund))
            && (now.tokens == DueTokens(now, final)
                <==> NeverSettledAfterRefund(s, calls) || s.playground || (refund.GivenBack? && !refund.tokenAlso))
  {
    RunLeads(s, calls);
    SessionConserves(s, calls);
    RunKeepsSource(s, calls);
  }

  lemma {:induction false} RunKeepsSource(s: State, calls: seq<Call>)
    ensures Run(s, calls).source == s.source && Run(s, calls).playground == s.playground
  {
    if calls != [] { RunKeepsSource(s, calls[..|calls| - 1]); }
  }

  /** Without failed rollbacks nothing leaks, so a session is charged exactly the settled amount,
      and nothing after a refund whose writes succeed. */
  lemma {:induction false} NothingLeaks(s: State, calls: seq<Call>)
    requires forall i :: 0 <= i < |calls| && calls[i].Reserve? ==> calls[i].rollbackOk
    ensures Run(s, calls).leaked == s.leaked
  {
    if calls != [] { NothingLeaks(s, calls[..|calls| - 1]); }
  }

  /** A settlement after a refund, against the settlement alone, whichever writes fail. Funding is
      charged the same exactly when the refund gave nothing back there: nothing was held, or its
      funding write failed and so did, for a subscription with a top-up, the extra one. The token
      is charged the same exactly when the refund gave it nothing back. */
  lemma SettleAfterRefund(s: State, refund: Call, settle: Call)
    requires Open(s) && refund.Refund? && settle.Settle?
    ensures After(After(s, refund), settle).funds == After(s, settle).funds
       <==> s.preConsumed == 0
            || (!refund.fundOk && (s.source.Wallet? || s.extraReserved == 0 || !refund.extraOk))
    ensures After(After(s, refund), settle).tokens == After(s, settle).tokens
       <==> s.preConsumed == 0 || s.playground || !refund.tokenOk
  {
  }
}
