# LLM gateway backend: verified models

Dafny models of the parts of the gateway's Go backend that carry state, loops and invariants, with
proofs of what they promise.

- **Upstream model reconciliation.** Detection computes which models a channel should gain or lose;
  applying a selection stores what is left. Over every run the stored lists stay equal to a fresh
  detection exactly when each selection meets a stated condition on names and ignore rules (`Text`,
  `ModelNames`, `UpstreamUpdate`, `UpstreamSync`), and the keyset scan that drives it visits every
  enabled channel once (`ChannelScan`).
- **Prices.** The difference table against fetched channels, for every map iteration order
  (`PriceDiff`), and the models.dev "cheapest non-zero" fold with its non-transitive comparison
  (`ModelsDev`).
- **Rate limiting and codes.** The sliding window equals counting over the full history
  (`RateLimit`); lazily purged verification codes equal an unpurged log (`Verification`).
- **Multi-key channels.** A joined key column and three index-keyed maps refine a list of records
  (`MultiKey`).
- **Request bodies.** `bytes.Reader` and `os.File` are modelled apart, and call sequences that tell
  memory and disk storage apart are characterised exactly; every retry sees the whole body, usage
  counters are exact (`BodyStorage`, `RequestBody`).
- **Money.** Midjourney refunds under interleaved stale pollers (`Midjourney`), the billing session
  (`Billing`), the relay retry loop over group selection with its billing outcome (`RelayRetry`),
  saturating quota arithmetic (`QuotaMath`).
- **Ogg pages** (`OggScan`) and **batched model enrichment** (`ModelEnrich`).

Files that mutate objects are modelled as classes whose methods are proved against functions on
plain values; the lemmas are about those functions. Go maps are walked with arbitrary choices, so a
contract that names one result holds for every iteration order. Clocks, database and disk outcomes,
upstream responses and regular-expression matching are parameters. Floats are reals.

Dafny 4.11 checks the project with `dafny verify dfyconfig.toml`.

## Where the code does not keep the promise

Each of these is a lemma, next to the condition under which the promise holds.

- `MultiKey.DeleteAllDisabledEnables`: deleting the automatically disabled keys of a channel that
  has no other key re-enables all of them, because `Channel.Update` does not write an empty key
  column (GORM skips zero fields) while the emptied status map is written.
  `MultiKey.DeleteDisabledExactly` gives the exact condition, blank keys included.
- `MultiKey.BlankLineShifts`: adding a channel can store a blank key (a line of spaces is trimmed
  after the blank check, controller/channel.go:644-650); when a deletion makes it the first or last
  key it is swallowed and the index-keyed entries shift. `MultiKey.Channel.DeleteKey` and
  `MultiKey.Channel.DeleteDisabledKeys` give the exact condition, `MultiKey.FilledRunIsSafe` shows
  that a channel without blank keys never meets it.
- `RelayRetry.AutoGroupsExceedLimit`: an "auto" token makes `RetryTimes + 2` attempts, because
  moving to the next group restarts the counter. `RelayRetry.LimitHoldsExactly` gives the exact
  condition, `RelayRetry.AttemptsBounded` the bound that always holds.
- `RelayRetry.RelayTask`: a task is stored with its quota although the settlement write failed; the
  charge is the stored quota exactly when that write succeeded or nothing was left to settle.
- `Midjourney.HonestyIsNeeded` and `Midjourney.ListingOnceIsNeeded`: a response below 100% with a
  failure reason but not status FAILURE, one with status FAILURE but no reason, or an id listed
  twice in a response, can each make a task be refunded twice. `Midjourney.SecondItemExactly` and
  `Midjourney.SameItemTwice` say exactly when the second item refunds again or takes the task out
  of FAILURE.
- `Billing.SettleAfterRefund`: a settlement after a refund charges the right amount exactly when the
  refund gave nothing back: nothing was held, or its writes failed. `Billing.ChargeExactly` is the
  exact condition for the amounts of whole runs, `Billing.SessionConserves` for the books with
  their flags. A rollback that fails stays charged.
- `MultiKey.Channel.Add`: a channel added with a blank first or last key counts keys that are not
  read back, and until its next update an index past the keys passes the index checks.
- `Midjourney.RefundsConserveQuota`: a refund whose quota credit fails is only logged and stays
  unpaid.
- `UpstreamSync.ApplyKeepsSynced` gives the exact condition under which applying a selection keeps
  the stored lists equal to a fresh detection. Three ways to break it: an added name with a comma
  (`UpstreamSync.CommaAdditionReturns`), an ignored name that reads as a `regex:` rule and misses
  itself or hits another pending name (`UpstreamSync.IgnoringRegexName`), and an added name that
  was the only rule hiding another (`UpstreamSync.AddingOneName`).
- `RateLimit.PromiseHoldsExactly`: the window promise holds over all runs if and only if there are
  no expiry rounds or `duration <= expiration + 1` in whole seconds, and the limit is at least one
  (`RateLimit.FirstAdmitted` is the run for a limit of zero).
- `PriceDiff.DifferenceShownExactly`: null and the literal "same" are the table's own markers, so a
  difference is shown if and only if its value is not "same" and its channel supplies some other
  differing value that is neither. `PriceDiff.SameLiteralIsLost` and `PriceDiff.LonelyNullIsLost`
  are inputs that lose one.
- `RequestBody.AlikeRunExactly`: the two storages answer an empty read at the end, and a
  `SEEK_DATA` or `SEEK_HOLE` inside the body, differently; every other sequence of calls alike.
- `QuotaMath.ConversionsExact`: a value equal to a limit is reported as clamped although the comment
  at common/quota_math.go:29-32 speaks of values outside the range; the model follows the code.

## Model

| member | source | states |
|---|---|---|
| Text.TrimSpaceTrims | controller/channel_upstream_update.go:100-105 | trimming lands on the trimmed strings and fixes each of them |
| Text.TrimSpaceSplits | controller/channel_upstream_update.go:100-105 | trimming drops space at the two ends and nothing else |
| Text.SplitJoin | model/channel.go:289-294 | splitting a join gives the parts back, for separator-free parts |
| Text.JoinKeepsFreePart | model/channel.go:289-294 | a separator-free part survives a join and split whatever the other parts hold |
| Text.TrimSepSplit | model/channel.go:195-196 | trimming separators before a split drops only blank pieces at the two ends |
| Text.FieldsJoin | model/channel.go:175-197 | reading a joined column back gives the parts if and only if neither end part is blank |
| ModelNames.NormalizeNormal | controller/channel_upstream_update.go:100-105 | normalization gives duplicate-free trimmed non-blank lists and fixes each of them |
| ModelNames.MergeModelNames | controller/channel_upstream_update.go:107-121 | the result is the normalized base followed by the names that are new, in order |
| ModelNames.AppendUnseen | controller/channel_upstream_update.go:107-121 | the loop appends the names not in the base, in order |
| ModelNames.MergeNormal | controller/channel_upstream_update.go:107-121 | a merge has no duplicates and exactly the names of both lists |
| ModelNames.ApplySelectedMeaning | controller/channel_upstream_update.go:145-150 | add wins over remove; survivors keep their order and additions follow |
| UpstreamUpdate.PendingFacts | controller/channel_upstream_update.go:179-238 | both pending lists are duplicate-free, in list order, and hold exactly the uncovered unignored upstream names and the local names that are gone upstream and not redirect sources |
| UpstreamUpdate.RuleMeaning | controller/channel_upstream_update.go:217-224 | a rule after "regex:" asks the matcher about the trimmed pattern, any other rule hides exactly its own name |
| UpstreamUpdate.SkippedExactly | controller/channel_upstream_update.go:480-487 | a check is skipped if and only if it is not forced and the last one is younger than the interval |
| UpstreamUpdate.NextModelsIsApplySelected | controller/channel_upstream_update.go:935-941 | the new list is the surviving originals in order followed by the additions, without duplicates |
| UpstreamUpdate.Channel.Resolve | controller/channel_upstream_update.go:932-952 | the step-by-step lists equal their order-keeping meanings |
| UpstreamUpdate.Channel.Write | controller/channel_upstream_update.go:463-472 | writes the lists, and the model column only when it changed |
| UpstreamUpdate.Channel.Apply | controller/channel_upstream_update.go:919-967 | the whole new row and every result; a failed store changes nothing |
| UpstreamUpdate.Channel.StoreLists | controller/channel_upstream_update.go:498-520 | auto-adds all pending names or stages them, with the counts |
| UpstreamUpdate.Channel.CheckAndPersist | controller/channel_upstream_update.go:474-521 | the row and outcome of a skipped, failed or stored check |
| UpstreamSync.StoreRoundTrip | controller/channel_upstream_update.go:940-945 | storing a comma-free list and reading it back is the identity |
| UpstreamSync.StoreKeeps | controller/channel_upstream_update.go:940-945 | a comma-free name survives storing |
| UpstreamSync.LocalIsSplit | model/channel.go:289-294 | reading the model column ignores commas at its ends |
| UpstreamSync.StoreKeepsFront | controller/channel_upstream_update.go:940-945 | a comma-free front of a stored list is read back as the front, in order |
| UpstreamSync.StoredListIs | controller/channel_upstream_update.go:935-945 | after an application the model list reads as the survivors followed by the trimmed pieces of the new additions |
| UpstreamSync.StoredListFacts | controller/channel_upstream_update.go:935-945 | that list starts with the survivors and holds an added name if and only if it has no comma |
| UpstreamSync.AdditionsAgree | controller/channel_upstream_update.go:179-227 | detection on the stored list offers exactly the remaining additions, in order, if and only if added names with a comma and ignored names are hidden or covered, remaining ones are neither, and what was hidden stays hidden |
| UpstreamSync.RemovalsAgree | controller/channel_upstream_update.go:228-238 | detection on the stored list finds exactly the remaining removals if and only if the list has no stray name |
| UpstreamSync.ApplyKeepsSynced | controller/channel_upstream_update.go:919-967 | for every selection the stored lists stay equal to a fresh detection if and only if both agreements hold; nothing is assumed of the names |
| UpstreamSync.CommaFreeAgreeable | controller/channel_upstream_update.go:919-967 | without commas in the additions the condition is three conditions on ignore rules |
| UpstreamSync.PlainAgreeable | controller/channel_upstream_update.go:919-967 | when no selected name reads as a regex rule the condition is that no added name has a comma |
| UpstreamSync.CommaAdditionReturns | controller/channel_upstream_update.go:940-945 | an added name with a comma is offered again if and only if no remaining rule hides it |
| UpstreamSync.IgnoringRegexName | controller/channel_upstream_update.go:217-224 | ignoring a name that reads as a regex rule keeps the agreement if and only if it matches itself and no other pending name |
| UpstreamSync.AddingOneName | controller/channel_upstream_update.go:919-967 | adding one name keeps the agreement if and only if it has no comma and hid no other name alone |
| UpstreamSync.CheckSyncs | controller/channel_upstream_update.go:474-521 | a stored check leaves the lists up to date, with the exact condition |
| UpstreamSync.RunKeepsSynced | controller/channel_upstream_update.go:919-967 | along every sequence of selections the stored lists equal a fresh detection if and only if each selection is agreeable where it is applied |
| UpstreamSync.PlainRunKeepsSynced | controller/channel_upstream_update.go:919-967 | against an upstream list without commas and regex names every sequence of selections keeps the stored lists equal to a fresh detection |
| UpstreamSync.ApplyEverythingReachesFixpoint | controller/channel_upstream_update.go:1017-1022 | applying everything leaves both lists empty, and detection finds nothing if and only if no pending name has a comma or hid another name alone |
| UpstreamSync.ApplyConserves | controller/channel_upstream_update.go:932-954 | pending adds split into added, only ignored and remaining, pending removes into removed and remaining; the new list has no duplicates |
| UpstreamSync.StepKeepsSources | controller/channel_upstream_update.go:228-236 | no check or application stages or removes a redirect source |
| UpstreamSync.RunKeepsRedirectSources | controller/channel_upstream_update.go:228-236 | over every run against any upstream lists a redirect source stays |
| UpstreamSync.CheckCountsPending | controller/channel_upstream_update.go:724-729 | auto-added plus staged is the number of pending additions |
| UpstreamSync.CountedOtherwise | controller/channel_upstream_update.go:716-729 | a skipped channel counts with its stored lists, a failed one not at all |
| UpstreamSync.TotalsAddUp | controller/channel_upstream_update.go:724-729 | a run's totals are the sums over its channels |
| UpstreamSync.TotalsIgnoreAutoSync | controller/channel_upstream_update.go:724-743 | a run's totals do not depend on auto-sync |
| ChannelScan.EnabledChannelsMeaning | controller/channel_upstream_update.go:973-984 | the reference list holds each enabled channel once, ascending |
| ChannelScan.QueryResumes | controller/channel_upstream_update.go:973-984 | after any prefix the query sees exactly the next unvisited batch |
| ChannelScan.ScanEnabled | controller/channel_upstream_update.go:986-1048 | the scan ends and visits every enabled channel once in id order, for any batch size |
| ChannelScan.ScanAll | controller/channel_upstream_update.go:993-1003 | the same for the source's batch size of 100 |
| PriceDiff.IsConfident | controller/ratio_sync.go:558-591 | confidence is lost exactly for the 37.5 and 1 pair |
| PriceDiff.AllModels | controller/ratio_sync.go:542-556 | the models are exactly those priced somewhere |
| PriceDiff.CompareCell | controller/ratio_sync.go:606-626 | the branches give the cell and the difference flag |
| PriceDiff.BuildRow | controller/ratio_sync.go:594-641 | one row and whether it is included |
| PriceDiff.BuildTable | controller/ratio_sync.go:593-654 | the unpruned table, for any model order |
| PriceDiff.ChannelsWithDiff | controller/ratio_sync.go:656-665 | exactly the channels with a real cell somewhere |
| PriceDiff.DifferingIffReally | controller/ratio_sync.go:656-665 | a channel has a column if and only if it supplies a differing value that is neither null nor "same" |
| PriceDiff.PruneItem | controller/ratio_sync.go:669-674 | a row keeps exactly the columns of differing channels |
| PriceDiff.PruneRows | controller/ratio_sync.go:668-688 | rows that are all "same" or empty go, the others stay restricted |
| PriceDiff.Prune | controller/ratio_sync.go:667-693 | every model pruned, empty models dropped |
| PriceDiff.BuildDifferences | controller/ratio_sync.go:536-696 | for any iteration order, the final entry of every model and field, no empty model |
| PriceDiff.SurvivesIff | controller/ratio_sync.go:667-688 | an included row survives pruning if and only if a really differing channel has a cell there that is not "same" |
| PriceDiff.EntryIffDifference | controller/ratio_sync.go:536-696 | for all values an entry exists if and only if some channel differs there and a really differing channel has a cell that is not "same" |
| PriceDiff.NumericPrices | controller/ratio_sync.go:55-62 | on the raw prices: one 0.000000001 or more away from the local price always makes an entry with that price as a float, a closer one is never shown as anything but "same" |
| PriceDiff.PlainValues | controller/ratio_sync.go:55-62 | billing mode and expression: a different value that is neither null nor "same" always makes an entry with it, an equal one never shows |
| PriceDiff.NewPrices | controller/ratio_sync.go:599-641 | a price that is not set locally is always reported, with no current value |
| PriceDiff.MissingPrices | controller/ratio_sync.go:602-626 | a channel without a price shows as missing beside a local value and as "same" otherwise |
| PriceDiff.ColumnsAreDifferingChannels | controller/ratio_sync.go:667-693 | the columns of a row are exactly the channels that really differ somewhere |
| PriceDiff.DifferenceShownExactly | controller/ratio_sync.go:606-693 | a difference is shown if and only if its value is not "same" and its channel really differs somewhere |
| PriceDiff.PlainEntryIffDifference | controller/ratio_sync.go:536-696 | with values that are neither null nor "same" there, an entry exists if and only if a channel differs |
| PriceDiff.CellsAreOwn | controller/ratio_sync.go:646-651 | a surviving cell is the channel's own value or marker, with its own confidence |
| PriceDiff.SameLiteralIsLost | controller/ratio_sync.go:612-622 | a supplied "same" against no local value differs and makes no entry |
| PriceDiff.LonelyNullIsLost | controller/ratio_sync.go:612-622 | a null against a local value, from a channel with no real difference, differs and makes no entry |
| ModelsDev.PickIsCheapest | controller/ratio_sync.go:881-893 | in provider order the pick is non-zero if any is, and less than epsilon above every non-zero price |
| ModelsDev.UnsortedPickDrifts | controller/ratio_sync.go:881-893 | out of order the pick can exceed the minimum by more than epsilon |
| ModelsDev.CandidateCarries | controller/ratio_sync.go:850-879 | an offer makes a candidate exactly when its prices are given and not negative and it is not free input with priced output; the candidate carries the catalog prices |
| ModelsDev.TiesGoToFirst | controller/ratio_sync.go:881-893 | prices that tie pairwise go to the first provider |
| ModelsDev.SortedAscending | controller/ratio_sync.go:915-919 | sorting gives an ascending list of the same names |
| ModelsDev.AscendingUnique | controller/ratio_sync.go:915-919 | there is one ascending list per set of names, so map order does not matter |
| ModelsDev.SortedProviders | controller/ratio_sync.go:915-919 | whatever order the map is walked in, the providers come out as the one ascending list |
| ModelsDev.SelectFrom | controller/ratio_sync.go:922-944 | one provider moves each model's pick by its one offer, in any model order |
| ModelsDev.SelectCandidates | controller/ratio_sync.go:906-948 | the selection equals the ordered fold for every model; the error return exactly when no offer in the catalog counts |
| ModelsDev.SelectionOverCatalog | controller/ratio_sync.go:903-948 | over the catalog: a model is selected exactly when some offer counts, carries the prices of the provider it names, and its input price is non-zero and less than epsilon above every counting non-zero one |
| ModelsDev.SelectedIsCheapest | controller/ratio_sync.go:903-905 | the selected price is a valid offer and less than epsilon above every valid non-zero offer |
| RateLimit.InMemoryRateLimiter.Request | common/rate-limit.go:45-70 | the new store and the answer |
| RateLimit.InMemoryRateLimiter.ClearExpired | common/rate-limit.go:28-42 | exactly the stale queues go, in any order |
| RateLimit.DecisionCounts | common/rate-limit.go:45-70 | the queue decides as counting the whole history would |
| RateLimit.StepTracks | common/rate-limit.go:28-70 | every operation keeps the history equal to invisible times plus the queue |
| RateLimit.AdmitsByHistory | common/rate-limit.go:28-70 | admitted if and only if fewer than max earlier admissions are newer than now minus duration, after any interleaving |
| RateLimit.WindowNeverExceeded | common/rate-limit.go:28-70 | no window of that length holds more than max admissions, in runs without expiry or with a long enough one |
| RateLimit.FirstAdmitted | common/rate-limit.go:64-69 | a limit of zero still admits the first request, so every window around it is exceeded |
| RateLimit.BurstAdmitted | common/rate-limit.go:28-42 | after an expiry round forgot a request, the whole limit is admitted again |
| RateLimit.PromiseHoldsExactly | common/rate-limit.go:14-70 | the window promise holds over all runs if and only if the window is empty, or the limit is positive and there are no expiry rounds or the window is at most one second longer than the expiration |
| Verification.Codes.Register | common/verification.go:35-45 | the new entry, and beyond ten entries only those younger than ten minutes |
| Verification.Codes.Verify | common/verification.go:47-56 | the answer from the table |
| Verification.Codes.DeleteKey | common/verification.go:58-62 | the new table |
| Verification.Codes.RemoveExpiredPairs | common/verification.go:65-72 | exactly the expired entries go, in any order |
| Verification.SlotsDiffer | common/verification.go:16-19 | the two purposes never share a slot |
| Verification.RunAgrees | common/verification.go:35-72 | the table holds the latest code or purged it after expiry |
| Verification.VerifyMatchesLog | common/verification.go:47-56 | true if and only if the latest registration is undeleted, young enough and carries the code |
| MultiKey.Channel.Update | model/channel.go:568-615 | recomputed size, pruned status, an empty key column restored |
| MultiKey.Channel.Add | controller/channel.go:642-654 | the stored column and size of a new channel; both are right if and only if no blank key comes first or last |
| MultiKey.NewRecordsEnabled | controller/channel.go:1005-1077 | new keys start enabled, without details |
| MultiKey.Channel.DisableKey | controller/channel.go:1649-1690 | one record's status changes, or nothing; success is about the size, which is the key count afterwards |
| MultiKey.Channel.EnableKey | controller/channel.go:1692-1732 | one record is reset, or nothing; success is about the size, which is the key count afterwards |
| MultiKey.Channel.EnableAllKeys | controller/channel.go:1734-1756 | every record is reset |
| MultiKey.DisableEach | controller/channel.go:1770-1782 | enabled entries become disabled, the count is positive exactly when there were any |
| MultiKey.Channel.DisableAllKeys | controller/channel.go:1758-1803 | enabled records become disabled, details stay; success exactly when there was one or the size counted too many |
| MultiKey.RebuildWithout | controller/channel.go:1823-1853 | the re-indexed maps stand for the list without that record |
| MultiKey.Channel.DeleteKey | controller/channel.go:1805-1883 | the other records move up unchanged if and only if the first and last of them are not blank, and an index past the keys deletes nothing; the last key is refused |
| MultiKey.RebuildKept | controller/channel.go:1885-1924 | the re-indexed maps stand for the records that are not auto-disabled |
| MultiKey.Channel.DeleteDisabledKeys | controller/channel.go:1885-1952 | the records that are not auto-disabled remain if and only if there is one and their end keys are not blank; the count, and what happens when none remains |
| MultiKey.StoreExactly | model/channel.go:568-615 | stored columns read back as themselves if and only if there is a key and neither end key is blank |
| MultiKey.BlankLineShifts | controller/channel.go:1805-1883 | a, blank, b is a stored column, and deleting a from it makes the auto-disabled b read as enabled |
| MultiKey.Channel.MarkKey | model/channel.go:683-733 | the first record of the key changes; the channel status in every branch, auto-disabled exactly when no key is left enabled |
| MultiKey.Channel.HasEnabledKey | model/channel.go:735-746 | true exactly when a record is enabled |
| MultiKey.Dedupe | controller/channel.go:1054-1073 | the trimmed new keys not known yet, each once, in order |
| MultiKey.DedupeEach | controller/channel.go:1054-1073 | the loop keeps the keys not known or seen yet, in order |
| MultiKey.AppendRefines | controller/channel.go:1005-1077 | the columns after an append read as old records then new ones if and only if the old column was not one blank key and the new places hold no left-over details |
| MultiKey.Channel.AppendKeys | controller/channel.go:1005-1077 | the same for the stored channel, empty columns included |
| MultiKey.Perform | controller/channel.go:1534-1952 | one action that leaves no blank end key is that action on the records; an exact size stays exact and the actions on all keys make it exact |
| MultiKey.PerformAll | controller/channel.go:1534-1952 | over every sequence of such actions the columns refine the record list and map domains stay below the key count; the size is the key count at the end if it was at the start or some action wrote it anew |
| MultiKey.FilledRunIsSafe | controller/channel.go:1534-1952 | for a channel without blank keys every sequence of actions is such a sequence |
| MultiKey.ActKeepsAKey | controller/channel.go:1855-1861 | no action removes the last key |
| MultiKey.DeleteDisabledExactly | controller/channel.go:1885-1952 | deletion from the stored columns leaves exactly the other records if and only if there is one and their end keys are not blank |
| MultiKey.DeleteAllDisabledEnables | model/channel.go:568-615 | with no other key, all keys come back enabled |
| MultiKey.PagesPartition | controller/channel.go:1610-1631 | the pages put together are the whole list |
| MultiKey.PastTheEnd | controller/channel.go:1610-1631 | a page past the last one shows the last one, which is empty only when nothing is listed |
| Midjourney.HonestFailure | controller/midjourney.go:162-165 | after the timeout rewrite an item fails exactly when its status is FAILURE |
| Midjourney.ResponseIsStored | controller/midjourney.go:167-232 | a response within the hour stores every field of the item, "100%" when it fails, and refunds exactly when it fails and had a quota |
| Midjourney.TimeoutIsStored | controller/midjourney.go:160-165 | after the hour an unfinished task is stored as a timed-out FAILURE at 100% |
| Midjourney.BulkFailStores | controller/midjourney.go:57-100 | the bulk update fails exactly the listed tasks and pays nothing back |
| Midjourney.FinishedIsNotLoaded | controller/midjourney.go:40-57 | a pass loads exactly the rows that are not at 100%, as stored |
| Midjourney.SuccessIsFinal | controller/midjourney.go:40-232 | after a response at 100% that is no FAILURE nothing is refunded and no later load picks the task up |
| Midjourney.PollKeepsInv | controller/midjourney.go:167-232 | one compare-and-set write and refund keeps the invariant |
| Midjourney.StepKeepsInv | controller/midjourney.go:34-239 | every protocol step keeps the invariant |
| Midjourney.StepKeepsOwners | controller/midjourney.go:34-239 | no step, honest or not, changes a task's owner or quota |
| Midjourney.StepAbsorbs | controller/midjourney.go:210-212 | no step leaves FAILURE |
| Midjourney.RefundedAtMostOnce | controller/midjourney.go:34-239 | over every interleaving in which a pass answers an id once, each task is refunded at most once and FAILURE is absorbing |
| Midjourney.RefundsConserveQuota | controller/midjourney.go:210-232 | in every run, honest or not, a user's balance moves by exactly the quota of that user's refunded tasks less those whose credit failed |
| Midjourney.SkippedItemChangesNothing | controller/midjourney.go:241-294 | a skipped item is no failure and differs at most in properties and buttons |
| Midjourney.SameStatusRefundsTwice | controller/midjourney.go:204-216 | a failing response that leaves the stored status as it was lets two passes refund one task |
| Midjourney.SilentFailureStaysOpen | controller/midjourney.go:204-210 | a FAILURE without a reason is stored but the task stays open and unrefunded |
| Midjourney.HonestyIsNeeded | controller/midjourney.go:204-216 | any response that breaks the rule on reasons and FAILURE has a run that refunds a task twice |
| Midjourney.SecondItemExactly | controller/midjourney.go:153-232 | for two items on one copy, exactly when the second refunds again and exactly when it leaves FAILURE |
| Midjourney.SameItemTwice | controller/midjourney.go:153-232 | the same for one item listed twice, in terms of its progress, reason, status and the timeout |
| Midjourney.ListingOnceIsNeeded | controller/midjourney.go:153-171 | every honest failing item below 100%, listed twice, is refunded twice |
| BodyStorage.CacheStats.DecrementDiskFiles | common/disk_cache_config.go:115-122 | counters go down and stop at zero |
| BodyStorage.MemoryStorage.Read | common/body_storage.go:47-54 | as bytes.Reader: at the end even an empty read reports the end |
| BodyStorage.MemoryStorage.Seek | common/body_storage.go:56-63 | as bytes.Reader, or closed |
| BodyStorage.MemoryStorage.Bytes | common/body_storage.go:74-81 | the whole body, position unchanged |
| BodyStorage.MemoryStorage.Close | common/body_storage.go:65-72 | only the first close gives memory back |
| BodyStorage.DiskStorage.Read | common/body_storage.go:169-176 | as os.File: an empty read never reports the end |
| BodyStorage.DiskStorage.Seek | common/body_storage.go:178-185 | as os.File on Linux, SEEK_DATA and SEEK_HOLE included |
| BodyStorage.DiskStorage.ReadFull | common/body_storage.go:217-222 | reads the file from its start |
| BodyStorage.DiskStorage.Bytes | common/body_storage.go:198-230 | the whole body, position put back |
| BodyStorage.DiskStorage.Close | common/body_storage.go:187-196 | only the first close gives space back; the clamp at zero never shows |
| BodyStorage.AlikeExactly | common/body_storage.go:14-24 | one call is answered alike by both backends if and only if it is no empty read at the end and no SEEK_DATA or SEEK_HOLE inside the body |
| RequestBody.AlikeRunExactly | common/body_storage.go:14-24 | a sequence of calls is answered alike if and only if that holds of each call where it happens |
| RequestBody.Compare | common/body_storage.go:14-24 | the two storages of one body give the same answers if and only if the sequence is such a sequence |
| RequestBody.CreateBodyStorage | common/body_storage.go:241-259 | the backend chosen, its content and what is counted |
| RequestBody.CreateFromReader | common/body_storage.go:262-303 | a disk failure exactly when a stream to be written directly meets one, too large exactly beyond the limit, otherwise the exact bytes; on disk exactly as declared or real length say, counted exactly then; usage within the maximum for honest lengths |
| RequestBody.Context.FromLegacy | common/gin.go:47-58 | a body kept earlier becomes a storage with its bytes, on disk exactly as its length says |
| RequestBody.Context.FromRequest | common/gin.go:60-82 | the request body is read once into a storage with its bytes; success, backend and disk usage exactly |
| RequestBody.Context.GetBodyStorage | common/gin.go:36-97 | the cached storage rewound or a new one, at offset 0 with the expected body; success, backend and disk usage exactly; the request body is read once |
| RequestBody.Context.Cleanup | common/gin.go:99-106 | the cached storage is closed and forgotten |
| RequestBody.Context.Attempt | controller/relay.go:210-230 | one attempt is answered as from a fresh body at offset 0 and leaves the storage open |
| RequestBody.Context.Attempts | controller/relay.go:210-230 | every attempt is answered as from a fresh body at offset 0 of that backend |
| RequestBody.Serve | common/body_storage.go:37-303 | over every run the counters are the count and byte sum of the open storages, disk usage within the maximum |
| OggScan.GetOpusDuration | common/audio.go:196-254 | the duration is the total of the reference scan over the sample rate |
| OggScan.ScanPages | common/audio.go:209-249 | the loop ends on every byte string with the total and the page offsets of the reference scan |
| OggScan.ReadPage | common/audio.go:209-249 | one round of the loop is one step of the reference scan and moves the position on |
| OggScan.PayloadSize | common/audio.go:241-245 | the sum of the segment table |
| OggScan.LERoundTrip | common/audio.go:228-229 | little-endian decoding inverts encoding |
| OggScan.PageRecognised | common/audio.go:219-248 | a well-formed page is recognised with its granule position and exact length |
| OggScan.ScanBlocks | common/audio.go:209-249 | over a run of pages the scan stops at exactly the page starts |
| OggScan.ScanFile | common/audio.go:196-254 | after a prefix without a capture pattern: the page starts and the maximum of 0 and all granule positions |
| OggScan.MaxOfBounds | common/audio.go:228-232 | the folded value is the least upper bound |
| ModelEnrich.KeyInjective | controller/model_meta.go:322-324 | the dedup key determines name and type |
| ModelEnrich.RuleMeaning | controller/model_meta.go:231-238 | prefix, suffix and contains rules match exactly the names that continue, end with or surround theirs |
| ModelEnrich.GatherAll | controller/model_meta.go:227-269 | one pass collects each rule's names in pricing order and its unions |
| ModelEnrich.CollectChannels | controller/model_meta.go:319-333 | the union of the channels of the matched names, each once |
| ModelEnrich.SortIntsFacts | controller/model_meta.go:308-315 | quota types are sorted, each once |
| ModelEnrich.Model.FillExact | controller/model_meta.go:198-213 | an exact model as looked up by itself |
| ModelEnrich.Model.FillRule | controller/model_meta.go:285-338 | a rule model as looked up by itself |
| ModelEnrich.EnrichModels | controller/model_meta.go:173-339 | after the batch every model is as if looked up by itself |
| Billing.Session.PreConsume | service/billing_session.go:186-230 | success exactly when every needed write succeeds, then both sides paid; otherwise funding paid nothing and the token only what a failed rollback left |
| Billing.Session.DoReserve | service/billing_session.go:152-178 | both sides pay the top-up, or neither does, or a failed rollback leaks it |
| Billing.ReserveTakes | service/billing_session.go:152-178 | a top-up takes exactly what is missing to the target from both sides exactly when its writes succeed; a failed rollback leaks exactly that |
| Billing.Session.DoSettle | service/billing_session.go:41-79 | the difference is settled once |
| Billing.Session.DoRefund | service/billing_session.go:82-123 | everything held goes back once, except what failing refund writes keep |
| Billing.SessionConserves | service/billing_session.go:21-123 | over every call sequence, whichever writes fail, the books agree, flags included (open, settled or refunded, and charged what is held, the settled amount, or what failed refund writes left, plus failed rollbacks), if and only if no call settles the session after an effective refund |
| Billing.ChargeExactly | service/billing_session.go:21-178 | the amounts alone: funding and token are charged what is due if and only if nothing settles the session after an effective refund, or that refund gave nothing back there |
| Billing.NothingLeaks | service/billing_session.go:152-178 | without failed rollbacks nothing is charged on top |
| Billing.SettleAfterRefund | service/billing_session.go:41-123 | whichever writes fail, a settlement after a refund charges funding and token as the settlement alone would if and only if the refund gave nothing back there |
| Billing.CallAgrees | service/billing_session.go:41-178 | one call keeps the books right if and only if it does not settle a refunded session |
| RelayRetry.SelectChannel | service/channel_select.go:85-164 | the group loop, its cursor and whether a channel is found |
| RelayRetry.RetryRule | controller/relay.go:370-400 | when an error is retried, over marks, status and retries left |
| RelayRetry.TaskRetryRule | controller/relay.go:662-702 | when a task error is retried, status by status |
| RelayRetry.GetChannel | controller/relay.go:338-368 | the first attempt selects nothing |
| RelayRetry.ChannelSpends | service/channel_select.go:35-44 | every selection uses up budget, so the loop ends |
| RelayRetry.OpenBilling | relay/relay_task.go:206-211 | with no session one is opened, holding the quota (a subscription at least 1), exactly when the writes it needs succeed; what a failed opening leaves on the token exactly |
| RelayRetry.RelayLoop | controller/relay.go:209-260 | the loop ends for every world, with the reference log; the session is that of the first attempt whose opening succeeds, and the losses before it are exact |
| RelayRetry.Relay | controller/relay.go:187-260 | a failed run refunds the session, a successful one settles it with the handler's usage, write by write |
| RelayRetry.RelayTask | controller/relay.go:549-653 | held is the amount of the first attempt whose opening succeeds; success stores the task, and charges its quota if and only if the settlement write succeeds or nothing was left to settle; failure stores nothing and charges only what a failed refund write keeps |
| RelayRetry.SettleTask | controller/relay.go:615-640 | the charge and the session after the settlement, write by write |
| RelayRetry.AttemptsBounded | controller/relay.go:289-294 | at most retry limit plus one attempts per auto group left, one for ACU channels |
| RelayRetry.BoundIsReached | service/channel_select.go:35-44 | when groups are crossed the bound is reached: the retry limit plus one in every group left |
| RelayRetry.OnlyLastCanSucceed | controller/relay.go:247-251 | no attempt follows a success; no error at the end exactly when the last attempt succeeded |
| RelayRetry.AutoGroupsExceedLimit | service/channel_select.go:118-150 | from any group with another one behind it a run makes the retry limit plus two attempts |
| RelayRetry.LimitHoldsExactly | controller/relay.go:210-260 | for every world at most retry limit plus one attempts, if and only if the token is not auto, starts in its last group, is on a locked or non-task ACU channel, or nothing is retried |
| QuotaMath.ConversionsMonotone | common/quota_math.go:72-148 | conversions keep the order of amounts |
| QuotaMath.ConversionsExact | common/quota_math.go:72-148 | in range, sign kept, truncation toward zero, halves away from zero; clamps and failures of both strict forms exactly outside the open interval, and inside it the strict forms agree |
| QuotaMath.ClampsExactly | common/quota_math.go:72-148 | NaN becomes 0 and everything beyond a limit that limit, with its kind |

## Left out

- HTTP binding, responses, auditing, i18n, notifications and their 24-hour suppression: no deep invariant.
- Fetching and parsing upstream model lists and prices, and turning the selected price into ratios: foreign code or one-line arithmetic.
- Model mapping text: the normalized map is given; two source names that trim to the same name are resolved by Go's map order there.
- Cancellation of the scheduled scan: only the full scan is modelled.
- JSON-array keys and Vertex AI keys of multi-key channels: only newline-separated keys are modelled; replacing the key list is not an action.
- MultiKey.Channel.Add: also makes a channel whose key column comes out empty, which the source skips.
- The reason and time kept beside a channel's own status.
- Verification.Codes.Register: reads the clock once, although purging reads it again.
- RateLimit.InMemoryRateLimiter.Request: a negative limit for a key without a queue is excluded, because allocating the queue panics on it.
- Expirations that are not whole seconds: the rounding of `Duration.Seconds` for very long ones.
- Holes in a cache file, offsets past the largest file the file system allows, and systems other than Linux.
- Reassigning the request body after it was decoded or fetched for an attempt.
- Aliasing of the byte slice a memory storage hands out, 64-bit overflow of seek offsets, cache hit counters and background cleanup of cache files.
- Readers that return fewer bytes than asked for before the end of an Ogg file.
- GORM and SQL semantics beyond the compare-and-set and the skipping of zero fields; writes other than polling to Midjourney rows.
- Models listed twice by the same pointer in one enrichment batch.
- RelayRetry.RelayTask: needs a non-negative retry limit, because with a negative one no attempt is made and the source dereferences a missing result.
- Choosing between wallet and subscription, trust thresholds and violation fees.
- Floating-point rounding, and the decimal to float conversion of quotas.
