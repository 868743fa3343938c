/** Midjourney polling (controller/midjourney.go): concurrent passes work from stale snapshots and
    write back with a compare-and-set on the stored status; a failed task gives its quota back. */
module Midjourney {
  import opened Common
  import opened Lists

  const DONE := "100%"
  const FAILURE := "FAILURE"
  const TIMEOUT_REASON := "上游任务超时（超过1小时）"
  const TIMEOUT_MILLIS := 3600000

  /** The columns of a task row that polling reads or writes. */
  datatype Task = Task(userId: int, quota: int, code: int, progress: string, promptEn: string, state: string,
                       submitTime: int, startTime: int, finishTime: int, imageUrl: string, status: string,
                       failReason: string, properties: string, buttons: string, videoUrl: string, videoUrls: string)

  /** One upstream response item; videoUrls is its JSON text, empty when there are none. */
  datatype Item = Item(progress: string, promptEn: string, state: string, submitTime: int, startTime: int,
                       finishTime: int, imageUrl: string, status: string, failReason: string,
                       properties: Option<string>, buttons: Option<string>, videoUrl: string, videoUrls: string)

  // ----- one response item against one snapshot -----

  /** A task older than an hour that is not finished is treated as failed. */
  function WithTimeout(task: Task, item: Item, now: int): Item {
    if now - task.submitTime > TIMEOUT_MILLIS && task.progress != DONE
    then item.(failReason := TIMEOUT_REASON, status := FAILURE) else item
  }

  predicate NeedUpdate(task: Task, item: Item) {
    task.code != 1 || task.progress != item.progress || task.promptEn != item.promptEn
    || task.state != item.state || task.submitTime != item.submitTime || task.startTime != item.startTime
    || task.finishTime != item.finishTime || task.imageUrl != item.imageUrl || task.status != item.status
    || task.failReason != item.failReason || (task.progress != DONE && item.failReason != "")
    || task.videoUrl != item.videoUrl || task.videoUrls != item.videoUrls
  }

  function Copied(task: Task, item: Item): Task {
    Task(task.userId, task.quota, 1, item.progress, item.promptEn, item.state, item.submitTime, item.startTime,
         item.finishTime, item.imageUrl, item.status, item.failReason,
         if item.properties.Some? then item.properties.value else task.properties,
         if item.buttons.Some? then item.buttons.value else task.buttons, item.videoUrl, item.videoUrls)
  }

  predicate CountsAsFailed(item: Item) {
    if item.progress != DONE then item.failReason != "" else item.status == FAILURE
  }

  function Written(task: Task, item: Item): Task {
    var copied := Copied(task, item);
    if CountsAsFailed(item) then copied.(progress := DONE) else copied
  }

  // ----- the protocol -----

  /** Rows by id, what each pass still holds in memory, user balances, the ids refunded so far, and
      those among them whose credit failed. */
  datatype Sys = Sys(rows: map<int, Task>, snaps: map<int, map<int, Task>>, balance: map<int, int>,
                     refunds: seq<int>, unpaid: seq<int>)

  /** How the writes of one response item end; both kinds of failure are only logged. */
  datatype Outcome = WriteFails | CreditFails | AllOk

  datatype Step =
    /** A pass starts: it loads every row whose progress is not "100%". */
    | Load(pass: int)
    /** A pass meets a response item of one of its tasks and updates its own copy of the task. */
    | Respond(pass: int, id: int, item: Item, now: int, outcome: Outcome)
    /** Tasks without an upstream id, or of a channel that is gone, are failed without a refund. */
    | BulkFail(ids: set<int>, failReason: Option<string>)

  function Credit(balance: map<int, int>, user: int, amount: int): map<int, int> {
    balance[user := (if user in balance then balance[user] else 0) + amount]
  }

  /** The pass's own copy of the task after an item, whether or not the write goes through. */
  function Copy(snap: Task, item: Item): Task {
    if NeedUpdate(snap, item) then Written(snap, item) else snap
  }

  /** The compare-and-set write of one item, and the refund it may trigger. */
  function Poll(sys: Sys, snap: Task, id: int, item: Item, paid: bool): Sys {
    if !NeedUpdate(snap, item) || id !in sys.rows || sys.rows[id].status != snap.status then sys
    else
      var written := sys.(rows := sys.rows[id := Written(snap, item)]);
      if CountsAsFailed(item) && snap.quota != 0
      then written.(balance := if paid then Credit(sys.balance, snap.userId, snap.quota) else sys.balance,
                    refunds := sys.refunds + [id], unpaid := if paid then sys.unpaid else sys.unpaid + [id])
      else written
  }

  function Failed(task: Task, reason: Option<string>): Task {
    task.(status := FAILURE, progress := DONE,
          failReason := if reason.Some? then reason.value else task.failReason)
  }

  predicate Holds(sys: Sys, pass: int, id: int) {
    pass in sys.snaps && id in sys.snaps[pass]
  }

  function Next(sys: Sys, step: Step): Sys {
    match step
    case Load(pass) =>
      sys.(snaps := sys.snaps[pass := map id | id in sys.rows && sys.rows[id].progress != DONE :: sys.rows[id]])
    case Respond(pass, id, item, now, outcome) =>
      if !Holds(sys, pass, id) then sys
      else
        var snap := sys.snaps[pass][id];
        var eff := WithTimeout(snap, item, now);
        var copied := sys.(snaps := sys.snaps[pass := sys.snaps[pass][id := Copy(snap, eff)]]);
        if outcome.WriteFails? then copied else Poll(copied, snap, id, eff, outcome.AllOk?)
    case BulkFail(ids, reason) =>
      sys.(rows := map id | id in sys.rows :: if id in ids then Failed(sys.rows[id], reason) else sys.rows[id])
  }

  function Run(sys: Sys, steps: seq<Step>): Sys
    decreases |steps|
  {
    if steps == [] then sys else Run(Next(sys, steps[0]), steps[1..])
  }

  /** Below 100% a response carries a failure reason exactly when its status is FAILURE. */
  predicate Honest(item: Item) {
    item.progress != DONE ==> (item.failReason != "" <==> item.status == FAILURE)
  }

  predicate HonestSteps(steps: seq<Step>) {
    forall i :: 0 <= i < |steps| && steps[i].Respond? ==> Honest(steps[i].item)
  }

  /** The pass and id pairs answered since the pass last loaded. */
  function Answered(answered: set<(int, int)>, step: Step): set<(int, int)> {
    match step
    case Load(pass) => set k | k in answered && k.0 != pass
    case Respond(pass, id, _, _, _) => answered + {(pass, id)}
    case BulkFail(_, _) => answered
  }

  /** No response of a pass lists an id that the pass has already met since it loaded. */
  predicate ListsOnce(steps: seq<Step>, answered: set<(int, int)>)
    decreases |steps|
  {
    steps != [] ==>
      (steps[0].Respond? ==> (steps[0].pass, steps[0].id) !in answered)
      && ListsOnce(steps[1..], Answered(answered, steps[0]))
  }

  /** The copy is of a stored task, with its owner and price. */
  ghost predicate Owned(snap: Task, rows: map<int, Task>, id: int) {
    id in rows && snap.quota == rows[id].quota && snap.userId == rows[id].userId
  }

  ghost predicate OwnedAll(sys: Sys) {
    (forall pass, id :: Holds(sys, pass, id) ==> Owned(sys.snaps[pass][id], sys.rows, id))
    && forall id :: id in sys.refunds || id in sys.unpaid ==> id in sys.rows
  }

  /** FAILURE rows are finished, unanswered copies are of unfailed tasks, refunded tasks are
      FAILURE and refunded once. */
  ghost predicate Inv(sys: Sys, answered: set<(int, int)>) {
    OwnedAll(sys)
    && (forall id :: id in sys.rows ==> sys.rows[id].status == FAILURE ==> sys.rows[id].progress == DONE)
    && (forall pass, id :: Holds(sys, pass, id) && (pass, id) !in answered ==> sys.snaps[pass][id].status != FAILURE)
    && NoDup(sys.refunds)
    && forall id :: id in sys.refunds ==> sys.rows[id].status == FAILURE
  }

  lemma HonestFailure(snap: Task, item: Item, now: int)
    requires Honest(item)
    ensures var eff := WithTimeout(snap, item, now);
            Honest(eff) && (CountsAsFailed(eff) <==> eff.status == FAILURE)
            && (Written(snap, eff).status == FAILURE ==> Written(snap, eff).progress == DONE)
  {
  }

  ghost predicate SameOwners(rows: map<int, Task>, rows': map<int, Task>) {
    forall id :: id in rows ==> id in rows' && Owned(rows[id], rows', id)
  }

  lemma PollKeepsOwners(sys: Sys, snap: Task, id: int, item: Item, paid: bool)
    requires OwnedAll(sys) && Owned(snap, sys.rows, id)
    ensures OwnedAll(Poll(sys, snap, id, item, paid)) && SameOwners(sys.rows, Poll(sys, snap, id, item, paid).rows)
  {
    var after := Poll(sys, snap, id, item, paid);
    assert Owned(snap, after.rows, id) && SameOwners(sys.rows, after.rows);
    forall p, i | Holds(after, p, i) ensures Owned(after.snaps[p][i], after.rows, i) {
      assert Holds(sys, p, i);
    }
  }

  /** Every step keeps every task's owner and price, honest responses or not. */
  lemma StepKeepsOwners(sys: Sys, step: Step)
    requires OwnedAll(sys)
    ensures OwnedAll(Next(sys, step)) && SameOwners(sys.rows, Next(sys, step).rows)
  {
    match step
    case Load(pass) =>
      var after := Next(sys, step);
      forall p, id | Holds(after, p, id) ensures Owned(after.snaps[p][id], after.rows, id) {
        if p != pass { assert Holds(sys, p, id); }
      }
    case Respond(pass, id, item, now, outcome) =>
      if Holds(sys, pass, id) {
        var snap := sys.snaps[pass][id];
        var eff := WithTimeout(snap, item, now);
        var copied := sys.(snaps := sys.snaps[pass := sys.snaps[pass][id := Copy(snap, eff)]]);
        assert OwnedAll(copied) by { assert forall p, i :: Holds(copied, p, i) ==> Holds(sys, p, i); }
        if !outcome.WriteFails? { PollKeepsOwners(copied, snap, id, eff, outcome.AllOk?); }
      }
    case BulkFail(ids, reason) =>
      var after := Next(sys, step);
      assert forall p, i :: Holds(after, p, i) ==> Holds(sys, p, i);
  }

  lemma PollKeepsInv(sys: Sys, snap: Task, id: int, item: Item, paid: bool, answered: set<(int, int)>)
    requires Inv(sys, answered) && CountsAsFailed(item) == (item.status == FAILURE)
    requires Owned(snap, sys.rows, id) && snap.status != FAILURE
    ensures Inv(Poll(sys, snap, id, item, paid), answered)
  {
    var after := Poll(sys, snap, id, item, paid);
    if after.refunds != sys.refunds {
      assert id !in sys.refunds;
      NoDupAppend(sys.refunds, [id]);
    }
  }

  lemma RespondKeepsInv(sys: Sys, step: Step, answered: set<(int, int)>)
    requires Inv(sys, answered) && step.Respond? && Honest(step.item) && (step.pass, step.id) !in answered
    ensures Inv(Next(sys, step), Answered(answered, step))
  {
    var pass, id := step.pass, step.id;
    if Holds(sys, pass, id) {
      var snap := sys.snaps[pass][id];
      var eff := WithTimeout(snap, step.item, step.now);
      HonestFailure(snap, step.item, step.now);
      var copied := sys.(snaps := sys.snaps[pass := sys.snaps[pass][id := Copy(snap, eff)]]);
      assert Inv(copied, Answered(answered, step)) by {
        assert forall p, i :: Holds(copied, p, i) ==> Holds(sys, p, i);
      }
      if !step.outcome.WriteFails? { PollKeepsInv(copied, snap, id, eff, step.outcome.AllOk?, Answered(answered, step)); }
    }
  }

  lemma StepKeepsInv(sys: Sys, step: Step, answered: set<(int, int)>)
    requires Inv(sys, answered) && (step.Respond? ==> Honest(step.item) && (step.pass, step.id) !in answered)
    ensures Inv(Next(sys, step), Answered(answered, step))
  {
    StepKeepsOwners(sys, step);
    if step.Respond? {
      RespondKeepsInv(sys, step, answered);
    } else {
      var after := Next(sys, step);
      forall pass, id | Holds(after, pass, id) && (pass, id) !in Answered(answered, step)
        ensures after.snaps[pass][id].status != FAILURE
      {
        if !step.Load? || pass != step.pass { assert Holds(sys, pass, id); }
      }
    }
  }

  /** One step never takes a row out of FAILURE. */
  lemma StepAbsorbs(sys: Sys, step: Step, answered: set<(int, int)>, id: int)
    requires Inv(sys, answered) && (step.Respond? ==> (step.pass, step.id) !in answered)
    requires id in sys.rows && sys.rows[id].status == FAILURE
    ensures id in Next(sys, step).rows && Next(sys, step).rows[id].status == FAILURE
  {
  }

  /** Over every interleaving of passes a task is refunded at most once, and FAILURE is absorbing. */
  lemma {:induction false} RefundedAtMostOnce(sys: Sys, steps: seq<Step>, answered: set<(int, int)>)
    requires Inv(sys, answered) && HonestSteps(steps) && ListsOnce(steps, answered)
    ensures NoDup(Run(sys, steps).refunds)
    ensures forall id :: id in sys.rows ==>
              id in Run(sys, steps).rows && (sys.rows[id].status == FAILURE ==> Run(sys, steps).rows[id].status == FAILURE)
    ensures forall id :: id in Run(sys, steps).refunds ==>
              id in Run(sys, steps).rows && Run(sys, steps).rows[id].status == FAILURE
    decreases |steps|
  {
    if steps != [] {
      var after := Next(sys, steps[0]);
      StepKeepsOwners(sys, steps[0]);
      StepKeepsInv(sys, steps[0], answered);
      forall id | id in sys.rows && sys.rows[id].status == FAILURE ensures id in after.rows && after.rows[id].status == FAILURE {
        StepAbsorbs(sys, steps[0], answered, id);
      }
      RefundedAtMostOnce(after, steps[1..], Answered(answered, steps[0]));
    }
  }

  // ----- what a response stores -----

  /** The response item is written: the pass holds the task, the item changes its copy, and the row
      is still in the status the copy was in. */
  predicate Stores(sys: Sys, pass: int, id: int, item: Item, now: int) {
    Holds(sys, pass, id) && id in sys.rows && sys.rows[id].status == sys.snaps[pass][id].status
    && now - sys.snaps[pass][id].submitTime <= TIMEOUT_MILLIS && NeedUpdate(sys.snaps[pass][id], item)
  }

  /** A response within the hour stores every field of the item; the progress is "100%" when the
      item fails, and the item's own otherwise. Properties and buttons are kept when it has none. */
  lemma ResponseIsStored(sys: Sys, pass: int, id: int, item: Item, now: int, outcome: Outcome)
    requires Stores(sys, pass, id, item, now) && !outcome.WriteFails?
    ensures var after := Next(sys, Respond(pass, id, item, now, outcome));
            var failing := if item.progress != "100%" then item.failReason != "" else item.status == "FAILURE";
            id in after.rows
            && var row, was := after.rows[id], sys.snaps[pass][id];
               row.progress == (if failing then "100%" else item.progress)
               && row.code == 1 && row.promptEn == item.promptEn && row.state == item.state
               && row.submitTime == item.submitTime && row.startTime == item.startTime && row.finishTime == item.finishTime
               && row.imageUrl == item.imageUrl && row.status == item.status && row.failReason == item.failReason
               && row.videoUrl == item.videoUrl && row.videoUrls == item.videoUrls
               && row.properties == (if item.properties.Some? then item.properties.value else was.properties)
               && row.buttons == (if item.buttons.Some? then item.buttons.value else was.buttons)
               && row.userId == was.userId && row.quota == was.quota
               && (failing && was.quota != 0 <==> after.refunds == sys.refunds + [id])
               && (after.refunds == sys.refunds || after.refunds == sys.refunds + [id])
  {
  }

  /** After the hour an unfinished task is stored as a timed-out FAILURE, whatever the item says. */
  lemma TimeoutIsStored(sys: Sys, pass: int, id: int, item: Item, now: int, outcome: Outcome)
    requires Holds(sys, pass, id) && id in sys.rows && sys.rows[id].status == sys.snaps[pass][id].status
    requires now - sys.snaps[pass][id].submitTime > 3600000 && sys.snaps[pass][id].progress != "100%"
    requires !outcome.WriteFails?
    ensures var after := Next(sys, Respond(pass, id, item, now, outcome));
            id in after.rows && after.rows[id].status == "FAILURE" && after.rows[id].progress == "100%"
            && after.rows[id].failReason == TIMEOUT_REASON && after.rows[id].imageUrl == item.imageUrl
  {
  }

  /** The bulk update fails exactly the listed tasks, finished and with the reason if one is given,
      and pays nothing back. */
  lemma BulkFailStores(sys: Sys, ids: set<int>, reason: Option<string>, id: int)
    requires id in sys.rows
    ensures var after := Next(sys, BulkFail(ids, reason));
            after.balance == sys.balance && after.refunds == sys.refunds && id in after.rows
            && var row := after.rows[id];
               if id !in ids then row == sys.rows[id]
               else row.status == "FAILURE" && row.progress == "100%" && row.userId == sys.rows[id].userId
                    && row.quota == sys.rows[id].quota
                    && row.failReason == (if reason.Some? then reason.value else sys.rows[id].failReason)
  {
  }

  /** A task stored at 100% is not loaded again, by any pass, as long as its row stays as it is. */
  lemma FinishedIsNotLoaded(sys: Sys, pass: int, id: int)
    ensures Holds(Next(sys, Load(pass)), pass, id) <==> id in sys.rows && sys.rows[id].progress != "100%"
    ensures Holds(Next(sys, Load(pass)), pass, id) ==> Next(sys, Load(pass)).snaps[pass][id] == sys.rows[id]
  {
  }

  /** So after a response at 100% that is no FAILURE, no later load picks the task up. */
  lemma SuccessIsFinal(sys: Sys, pass: int, id: int, item: Item, now: int, outcome: Outcome, later: int)
    requires Stores(sys, pass, id, item, now) && !outcome.WriteFails? && item.progress == "100%" && item.status != "FAILURE"
    ensures var after := Next(sys, Respond(pass, id, item, now, outcome));
            after.refunds == sys.refunds && !Holds(Next(after, Load(later)), later, id)
  {
    ResponseIsStored(sys, pass, id, item, now, outcome);
    FinishedIsNotLoaded(Next(sys, Respond(pass, id, item, now, outcome)), later, id);
  }

  // ----- what users get back -----

  /** The quota of the refunded tasks of one user. */
  function Owed(rows: map<int, Task>, refunds: seq<int>, user: int): int {
    if refunds == [] then 0
    else
      var id := refunds[|refunds| - 1];
      Owed(rows, refunds[..|refunds| - 1], user) + Share(rows, id, user)
  }

  function Balance(sys: Sys, user: int): int {
    if user in sys.balance then sys.balance[user] else 0
  }

  lemma {:induction false} OwedSame(rows: map<int, Task>, rows': map<int, Task>, refunds: seq<int>, user: int)
    requires forall id :: id in refunds ==>
               id in rows && id in rows' && rows[id].quota == rows'[id].quota && rows[id].userId == rows'[id].userId
    ensures Owed(rows, refunds, user) == Owed(rows', refunds, user)
  {
    if refunds != [] { OwedSame(rows, rows', refunds[..|refunds| - 1], user); }
  }

  /** What a user has, apart from the refunds paid out. */
  function Settled(sys: Sys, user: int): int {
    Balance(sys, user) - Owed(sys.rows, sys.refunds, user) + Owed(sys.rows, sys.unpaid, user)
  }

  /** Rewriting rows alone changes nothing here. */
  lemma SameBooks(sys: Sys, after: Sys, user: int)
    requires OwnedAll(sys) && SameOwners(sys.rows, after.rows)
    requires after.balance == sys.balance && after.refunds == sys.refunds && after.unpaid == sys.unpaid
    ensures Settled(after, user) == Settled(sys, user)
  {
    OwedSame(sys.rows, after.rows, sys.refunds, user);
    OwedSame(sys.rows, after.rows, sys.unpaid, user);
  }

  /** What a task's refund is worth to a user. */
  function Share(rows: map<int, Task>, id: int, user: int): int {
    if id in rows && rows[id].userId == user then rows[id].quota else 0
  }

  lemma CreditPays(sys: Sys, after: Sys, id: int, user: int)
    requires id in sys.rows && after.balance == Credit(sys.balance, sys.rows[id].userId, sys.rows[id].quota)
    ensures Balance(after, user) == Balance(sys, user) + Share(sys.rows, id, user)
  {
  }

  /** A refund moves the balance and the refunds together, or is unpaid. */
  lemma RefundPays(sys: Sys, after: Sys, id: int, paid: bool, user: int)
    requires id in sys.rows && after.rows == sys.rows && after.refunds == sys.refunds + [id]
    requires after.balance == if paid then Credit(sys.balance, sys.rows[id].userId, sys.rows[id].quota) else sys.balance
    requires after.unpaid == if paid then sys.unpaid else sys.unpaid + [id]
    ensures Settled(after, user) == Settled(sys, user)
  {
    OwedOneMore(sys.rows, sys.refunds, id, user);
    if paid {
      CreditPays(sys, after, id, user);
    } else {
      OwedOneMore(sys.rows, sys.unpaid, id, user);
    }
  }

  lemma PollPays(sys: Sys, snap: Task, id: int, item: Item, paid: bool, user: int)
    requires OwnedAll(sys) && Owned(snap, sys.rows, id)
    ensures var after := Poll(sys, snap, id, item, paid);
            Settled(after, user) == Settled(sys, user) && (paid ==> after.unpaid == sys.unpaid)
  {
    var after := Poll(sys, snap, id, item, paid);
    var written := sys.(rows := after.rows);
    assert Settled(written, user) == Settled(sys, user) by {
      PollKeepsOwners(sys, snap, id, item, paid);
      SameBooks(sys, written, user);
    }
    if after.refunds != sys.refunds { RefundPays(written, after, id, paid, user); }
  }

  lemma StepPays(sys: Sys, step: Step, user: int)
    requires OwnedAll(sys)
    ensures Settled(Next(sys, step), user) == Settled(sys, user)
    ensures (step.Respond? && step.outcome.CreditFails?) || Next(sys, step).unpaid == sys.unpaid
  {
    if step.Respond? && Holds(sys, step.pass, step.id) {
      var snap := sys.snaps[step.pass][step.id];
      var eff := WithTimeout(snap, step.item, step.now);
      var copied := sys.(snaps := sys.snaps[step.pass := sys.snaps[step.pass][step.id := Copy(snap, eff)]]);
      assert OwnedAll(copied) by { assert forall p, i :: Holds(copied, p, i) ==> Holds(sys, p, i); }
      if !step.outcome.WriteFails? { PollPays(copied, snap, step.id, eff, step.outcome.AllOk?, user); }
    } else {
      StepKeepsOwners(sys, step);
      SameBooks(sys, Next(sys, step), user);
    }
  }

  lemma OwedOneMore(rows: map<int, Task>, refunds: seq<int>, id: int, user: int)
    ensures Owed(rows, refunds + [id], user) == Owed(rows, refunds, user) + Share(rows, id, user)
  {
    assert (refunds + [id])[..|refunds|] == refunds;
  }

  /** Every run, honest or not, moves a user's balance by exactly the quota of that user's refunds,
      less those whose credit failed; nothing else is ever unpaid. */
  lemma {:induction false} RefundsConserveQuota(sys: Sys, steps: seq<Step>, user: int)
    requires OwnedAll(sys)
    ensures var after := Run(sys, steps);
            Balance(after, user) - Balance(sys, user)
            == (Owed(after.rows, after.refunds, user) - Owed(sys.rows, sys.refunds, user))
               - (Owed(after.rows, after.unpaid, user) - Owed(sys.rows, sys.unpaid, user))
    ensures (forall i :: 0 <= i < |steps| ==> !(steps[i].Respond? && steps[i].outcome.CreditFails?)) ==>
              Run(sys, steps).unpaid == sys.unpaid
    decreases |steps|
  {
    if steps != [] {
      StepKeepsOwners(sys, steps[0]);
      StepPays(sys, steps[0], user);
      RefundsConserveQuota(Next(sys, steps[0]), steps[1..], user);
    }
  }

  // ----- skipping an item loses nothing but properties and buttons -----

  lemma SkippedItemChangesNothing(task: Task, item: Item)
    requires task.progress != DONE && !NeedUpdate(task, item)
    ensures !CountsAsFailed(item)
    ensures Written(task, item) == task.(properties := Written(task, item).properties, buttons := Written(task, item).buttons)
  {
  }

  // ----- without the two conditions on responses the promise fails -----

  /** A failing response that leaves the stored status as it was: two passes that loaded the same
      task both refund it. */
  lemma SameStatusRefundsTwice(sys: Sys, id: int, item: Item, now: int)
    requires id in sys.rows && sys.rows[id].progress != DONE && sys.rows[id].quota != 0
    requires now - sys.rows[id].submitTime <= TIMEOUT_MILLIS
    requires item.progress != DONE && item.failReason != "" && item.status == sys.rows[id].status
    ensures Run(sys, [Load(1), Load(2), Respond(1, id, item, now, AllOk), Respond(2, id, item, now, AllOk)]).refunds
         == sys.refunds + [id, id]
  {
    var r1, r2 := Respond(1, id, item, now, AllOk), Respond(2, id, item, now, AllOk);
    var row := sys.rows[id];
    var loaded := Next(Next(sys, Load(1)), Load(2));
    BothLoad(sys, id);
    var once := Next(loaded, r1);
    RespondPolls(loaded, 1, 2, id, item, now);
    RespondPolls(once, 2, 1, id, item, now);
    assert once.refunds == sys.refunds + [id] by { StaleItemRefunds(loaded.(snaps := once.snaps), row, id, item, true); }
    assert Next(once, r2).refunds == sys.refunds + [id] + [id] by {
      StaleItemRefunds(once.(snaps := Next(once, r2).snaps), row, id, item, true);
    }
    RunFour(sys, Load(1), Load(2), r1, r2);
  }

  lemma BothLoad(sys: Sys, id: int)
    requires id in sys.rows && sys.rows[id].progress != DONE
    ensures var loaded := Next(Next(sys, Load(1)), Load(2));
            loaded == sys.(snaps := loaded.snaps)
            && Holds(loaded, 1, id) && loaded.snaps[1][id] == sys.rows[id]
            && Holds(loaded, 2, id) && loaded.snaps[2][id] == sys.rows[id]
  {
  }

  lemma RespondPolls(sys: Sys, pass: int, other: int, id: int, item: Item, now: int)
    requires pass != other && Holds(sys, pass, id) && now - sys.snaps[pass][id].submitTime <= TIMEOUT_MILLIS
    ensures var after := Next(sys, Respond(pass, id, item, now, AllOk));
            after == Poll(sys.(snaps := after.snaps), sys.snaps[pass][id], id, item, true)
            && (Holds(sys, other, id) ==> Holds(after, other, id) && after.snaps[other][id] == sys.snaps[other][id])
  {
  }

  lemma StaleItemRefunds(sys: Sys, snap: Task, id: int, item: Item, paid: bool)
    requires id in sys.rows && sys.rows[id].status == snap.status == item.status
    requires snap.progress != DONE && snap.quota != 0 && item.progress != DONE && item.failReason != ""
    ensures var after := Poll(sys, snap, id, item, paid);
            after.refunds == sys.refunds + [id] && after.rows[id].status == item.status
  {
  }

  lemma RunFour(sys: Sys, a: Step, b: Step, c: Step, d: Step)
    ensures Run(sys, [a, b, c, d]) == Next(Next(Next(Next(sys, a), b), c), d)
  {
    RunOne(sys, a, [b, c, d]);
    RunOne(Next(sys, a), b, [c, d]);
    RunOne(Next(Next(sys, a), b), c, [d]);
    RunOne(Next(Next(Next(sys, a), b), c), d, []);
  }

  lemma RunOne(sys: Sys, a: Step, rest: seq<Step>)
    ensures Run(sys, [a] + rest) == Run(Next(sys, a), rest)
  {
    assert ([a] + rest)[1..] == rest;
  }

  /** A new task of user 1, worth one unit of quota. */
  function NewTask(status: string, submitTime: int): Task {
    Task(1, 1, 0, "0%", "", "", submitTime, 0, 0, "", status, "", "", "", "", "")
  }

  function OneTask(status: string, submitTime: int): Sys {
    Sys(map[1 := NewTask(status, submitTime)], map[], map[], [], [])
  }

  predicate Only(steps: seq<Step>, item: Item) {
    forall i :: 0 <= i < |steps| && steps[i].Respond? ==> steps[i].item == item || Honest(steps[i].item)
  }

  /** A run from a proper state that refunds a task twice, though every response lists an id once
      and all but this one are honest. */
  ghost predicate Breaks(sys: Sys, steps: seq<Step>, item: Item) {
    Inv(sys, {}) && Only(steps, item) && ListsOnce(steps, {}) && !NoDup(Run(sys, steps).refunds)
  }

  /** The rule on responses is exact: one response below 100% that breaks it, in either direction,
      is enough for a run that refunds a task twice, all other responses being honest. */
  lemma HonestyIsNeeded(item: Item)
    requires !Honest(item)
    ensures exists sys, steps :: Breaks(sys, steps, item)
  {
    if item.failReason != "" {
      ReasonWithoutFailure(item);
    } else {
      FailureWithoutReason(item);
    }
  }

  lemma ReasonWithoutFailure(item: Item)
    requires item.progress != DONE && item.failReason != "" && item.status != FAILURE
    ensures exists sys, steps :: Breaks(sys, steps, item)
  {
    var now := item.submitTime;
    var sys, steps := OneTask(item.status, now), Twice(item, now);
    SameStatusRefundsTwice(sys, 1, item, now);
    assert Run(sys, steps).refunds[0] == Run(sys, steps).refunds[1];
    TwiceListsOnce(item, now, {});
    assert Breaks(sys, steps, item);
  }

  lemma FailureWithoutReason(item: Item)
    requires item.progress != DONE && item.failReason == "" && item.status == FAILURE
    ensures exists sys, steps :: Breaks(sys, steps, item)
  {
    var now, blamed := item.submitTime, item.(failReason := "reason");
    var sys, first := OneTask("", now), Respond(3, 1, item, now, AllOk);
    var steps := [Load(3), first] + Twice(blamed, now);
    SilentThenBlamed(item, blamed, now);
    assert Run(sys, steps).refunds[0] == Run(sys, steps).refunds[1];
    BeforeTwiceListsOnce(first, blamed, now);
    assert Breaks(sys, steps, item);
  }

  lemma SilentThenBlamed(item: Item, blamed: Item, now: int)
    requires item.progress != DONE && item.failReason == "" && item.status == FAILURE
    requires blamed == item.(failReason := "reason") && now == item.submitTime
    ensures var steps := [Load(3), Respond(3, 1, item, now, AllOk)] + Twice(blamed, now);
            Run(OneTask("", now), steps).refunds == [1, 1]
  {
    var sys, first := OneTask("", now), Respond(3, 1, item, now, AllOk);
    SilentFailureStaysOpen(sys, item);
    RunTwo(sys, Load(3), first, Twice(blamed, now));
    SameStatusRefundsTwice(Next(Next(sys, Load(3)), first), 1, blamed, now);
  }

  lemma ListsOnceCons(step: Step, rest: seq<Step>, answered: set<(int, int)>)
    ensures ListsOnce([step] + rest, answered)
       <==> (step.Respond? ==> (step.pass, step.id) !in answered) && ListsOnce(rest, Answered(answered, step))
  {
    assert ([step] + rest)[1..] == rest;
  }

  lemma TwiceListsOnce(item: Item, now: int, answered: set<(int, int)>)
    ensures ListsOnce(Twice(item, now), answered)
  {
    var a, b, c, d := Load(1), Load(2), Respond(1, 1, item, now, AllOk), Respond(2, 1, item, now, AllOk);
    var s1 := Answered(answered, a);
    var s2 := Answered(s1, b);
    var s3 := Answered(s2, c);
    ListsOnceCons(d, [], s3);
    ListsOnceCons(c, [d], s2);
    ListsOnceCons(b, [c, d], s1);
    ListsOnceCons(a, [b, c, d], answered);
    assert [a] + [b, c, d] == Twice(item, now) && [b] + [c, d] == [b, c, d] && [c] + [d] == [c, d] && [d] + [] == [d];
  }

  lemma BeforeTwiceListsOnce(first: Step, item: Item, now: int)
    requires first.Respond?
    ensures ListsOnce([Load(3), first] + Twice(item, now), {})
  {
    var s0 := Answered({}, Load(3));
    TwiceListsOnce(item, now, Answered(s0, first));
    ListsOnceCons(first, Twice(item, now), s0);
    ListsOnceCons(Load(3), [first] + Twice(item, now), {});
    assert [Load(3), first] + Twice(item, now) == [Load(3)] + ([first] + Twice(item, now));
  }

  function Twice(item: Item, now: int): seq<Step> {
    [Load(1), Load(2), Respond(1, 1, item, now, AllOk), Respond(2, 1, item, now, AllOk)]
  }

  /** A FAILURE without a reason is stored, but the task stays open and unrefunded. */
  lemma SilentFailureStaysOpen(sys: Sys, item: Item)
    requires item.progress != DONE && item.failReason == "" && item.status == FAILURE
    requires sys == OneTask("", item.submitTime)
    ensures var after := Next(Next(sys, Load(3)), Respond(3, 1, item, item.submitTime, AllOk));
            after.refunds == [] && 1 in after.rows && after.rows[1] == Written(sys.rows[1], item)
            && after.rows[1].status == FAILURE && after.rows[1].progress != DONE
  {
  }

  lemma RunTwo(sys: Sys, a: Step, b: Step, rest: seq<Step>)
    ensures Run(sys, [a, b] + rest) == Run(Next(Next(sys, a), b), rest)
  {
    assert [a, b] + rest == [a] + ([b] + rest);
    RunOne(sys, a, [b] + rest);
    RunOne(Next(sys, a), b, rest);
  }

  // ----- an id listed twice in one response -----

  predicate TimedOut(task: Task, now: int) {
    now - task.submitTime > TIMEOUT_MILLIS && task.progress != DONE
  }

  /** Two items for one task in one pass, the first of which fails it. The second works on the
      pass's own updated copy: it refunds again exactly when it counts as a failure, changes
      something, and the stored status is the one first loaded or the one the copy has now; it
      takes the row out of FAILURE exactly when it is no failure and the row was still as loaded
      or already FAILURE. */
  lemma SecondItemExactly(sys: Sys, pass: int, id: int, first: Item, second: Item, now: int, later: int)
    requires Holds(sys, pass, id) && id in sys.rows
    requires sys.snaps[pass][id].progress != DONE && sys.snaps[pass][id].quota != 0
    requires CountsAsFailed(WithTimeout(sys.snaps[pass][id], first, now))
    ensures var snap, row := sys.snaps[pass][id], sys.rows[id];
            var copy := Copy(snap, WithTimeout(snap, first, now));
            var one := Next(sys, Respond(pass, id, first, now, AllOk));
            var two := Next(one, Respond(pass, id, second, later, AllOk));
            var won := row.status == snap.status || row.status == copy.status;
            one.refunds == sys.refunds + (if row.status == snap.status then [id] else [])
            && two.refunds == one.refunds + (if won && NeedUpdate(copy, second) && CountsAsFailed(second) then [id] else [])
            && id in one.rows && id in two.rows
            && (one.rows[id].status == FAILURE && two.rows[id].status != FAILURE
                <==> copy.status == FAILURE && second.status != FAILURE && (row.status == snap.status || row.status == FAILURE))
  {
    var snap := sys.snaps[pass][id];
    var eff := WithTimeout(snap, first, now);
    var copy := Copy(snap, eff);
    var one := Next(sys, Respond(pass, id, first, now, AllOk));
    assert NeedUpdate(snap, eff) && copy == Written(snap, eff) && copy.progress == DONE;
    assert Holds(one, pass, id) && one.snaps[pass][id] == copy;
    assert WithTimeout(copy, second, later) == second;
  }

  /** The same item listed twice: it refunds a second time exactly when it is below 100% with a
      reason, or is a FAILURE at 100% whose reason the timeout had replaced; it takes the row out
      of FAILURE exactly when only the timeout had failed the task. */
  lemma SameItemTwice(sys: Sys, pass: int, id: int, item: Item, now: int, later: int)
    requires Holds(sys, pass, id) && id in sys.rows && sys.rows[id].status == sys.snaps[pass][id].status
    requires sys.snaps[pass][id].progress != DONE && sys.snaps[pass][id].quota != 0
    requires CountsAsFailed(WithTimeout(sys.snaps[pass][id], item, now))
    ensures var timedOut := TimedOut(sys.snaps[pass][id], now);
            var one := Next(sys, Respond(pass, id, item, now, AllOk));
            var two := Next(one, Respond(pass, id, item, later, AllOk));
            one.refunds == sys.refunds + [id]
            && (two.refunds == one.refunds + [id]
                <==> if item.progress != DONE then item.failReason != ""
                     else item.status == FAILURE && timedOut && item.failReason != TIMEOUT_REASON)
            && (two.refunds == one.refunds || two.refunds == one.refunds + [id])
            && (one.rows[id].status == FAILURE && two.rows[id].status != FAILURE <==> timedOut && item.status != FAILURE)
  {
    SecondItemExactly(sys, pass, id, item, item, now, later);
  }

  /** So listing an id once is needed: every honest failing item below 100%, listed twice by one
      pass, refunds the task twice. */
  lemma ListingOnceIsNeeded(item: Item)
    requires Honest(item) && item.progress != DONE && item.status == FAILURE
    ensures var sys, now := OneTask("", item.submitTime), item.submitTime;
            Inv(sys, {}) && Run(sys, [Load(1), Respond(1, 1, item, now, AllOk), Respond(1, 1, item, now, AllOk)]).refunds == [1, 1]
  {
    var sys, now := OneTask("", item.submitTime), item.submitTime;
    var r := Respond(1, 1, item, now, AllOk);
    var loaded := Next(sys, Load(1));
    assert Holds(loaded, 1, 1) && loaded.snaps[1][1] == sys.rows[1];
    SameItemTwice(loaded, 1, 1, item, now, now);
    RunTwo(sys, Load(1), r, [r]);
    RunOne(Next(loaded, r), r, []);
    assert [Load(1), r] + [r] == [Load(1), r, r];
  }
}
