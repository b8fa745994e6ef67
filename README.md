# Mail auto-draft service: a verified model of its core

This project models, in Dafny, the decision logic of a chat assistant for Gmail. The assistant
lists and opens mail from a chat channel, drafts replies with a language model, and asks a person
to confirm before any mail is saved or sent. A background worker writes reply drafts for unread
mail on its own. The model covers the parts of the service that decide something:

- **Execution ledger** (`ledger.dfy`). This is the `executions` table. Rows are created `pending`. Two compare-and-swap
  updates move a row out of `pending`. The unguarded `updateExecution` merges a patch with
  `COALESCE` semantics. `findExpiredConfirmed` filters the rows.
- **Confirmation gate** (`gate.dfy`). It is fail-closed. A dangerous tool call passes only when the ledger holds a
  `confirmed` record for its trace id. `filterToolCalls` splits calls into allowed and blocked.
- **Bot handlers** (`safety_actions.dfy`, `expiry_watcher.dfy`, `recipients.dfy`,
  `dry_run_throttle.dfy`). These cover the confirm and cancel buttons, the expiry watcher tick, the recipient allow
  list and the dry-run rate limit.
- **Scoped list cache and sweeper** (`list_cache.dfy`, `cache_key.dfy`, `autodraft_state.dfy`). The list cache and its sweeper let
  "open #3" refer to the last list shown. The cache key builder and the auto-draft state table are here too.
- **Cache consumers**. List detection in the assistant's answers (`email_detection.dfy`) and numbered
  requests (`numbered_reply.dfy`) use the cache, and so does opening one mail (`open_email.dfy`).
- **OAuth server** (`auth.dfy`). It has single-use `state` and settings tokens (section 10.12 of RFC 6749),
  the capacity gate, and the settings toggle.
- **Compose/reply detector** (`compose_config.dfy`, `compose_detection.dfy`,
  `compose_detection_props.dfy`). It parses its line-oriented rule file and scores a message by rule weights.
- **Auto-draft worker** (`draft_text.dfy`, `greeting.dfy`, `auto_draft_prompt.dfy`,
  `auto_draft_query.dfy`, `auto_draft_threads.dfy`, `auto_draft_run.dfy`). It picks threads, builds the prompt, the greeting and the signature,
  and runs once per account.
- **Supporting rules**:
  - MIME "Q" decoding (section 4.2 of RFC 2047);
  - the environment switches;
  - the Google token provider;
  - intent routing;
  - inbox listing (`list_emails.dfy`, `gmail_read_direct.dfy`, `date_text.dfy`);
  - the dry-run card;
  - the confirmation prompt;
  - identifier formats;
  - address extraction;
  - the text rules of the chat message handler.

`strings.dfy`, `seqs.dfy`, `js_number.dfy` and `wrappers.dfy` give the JavaScript string, array
and `Number` operations the service relies on. A string is a sequence of Unicode characters
(scalar values). JavaScript's `length`, `slice`, `indexOf` and `lastIndexOf` count UTF-16 code
units instead; "## Left out" names the members where the two differ. `Mime.DecodeQ` models
code units explicitly, through `Mime.UnitBytes`.

State that the source changes in place is modelled as a class with `modifies` clauses. Examples are the
tables, the token stores, the token cache, the rate-limit counters, the draft store and the warned-users set.
Each such method is proved against a pure function of the old state, and the
properties are proved about that function. Every call to something outside the core is a parameter of the model:
the clock, randomness, SHA-1, the language model, HTTP, Gmail, and charset decoding.

## Model

| member | source | states |
|---|---|---|
| Ledger.NonEmpty | db/sqlite.ts:118-123 | `x \|\| undefined` on a stored text: a present, non-empty value is kept and the empty string reads as absent |
| Ledger.NonZero | db/sqlite.ts:119 | `expires_at \|\| undefined`: a stored 0 reads as absent, any other value is kept |
| Ledger.Create | db/sqlite.ts:84-106 | a duplicate `trace_id` fails and leaves the table unchanged; otherwise exactly one new key is added and every other row is untouched; the new row holds the given kind, user, action, params, digest, expiry and status, the reason, channel and message_ts with `''` stored as null, and `created_at == updated_at == now`; the returned record carries the given fields; reading the row back gives that record with empty texts and a 0 expiry read as absent |
| Ledger.Lookup | db/sqlite.ts:109-127 | a record exists iff the key is stored; it carries the stored status and timestamps, and a read-back reason is never the empty string |
| Ledger.Update | db/sqlite.ts:130-157 | unguarded merge: succeeds iff the row exists whatever its status; status becomes the patch's or stays; `created_at` kept, `updated_at` = now; other rows and the key set unchanged; the result is the re-read row |
| Ledger.Confirm | db/sqlite.ts:181-205 | succeeds iff the row exists and is `pending`; then status is `confirmed`, `reason` and `created_at` are kept; on failure the table is unchanged |
| Ledger.Cancel | db/sqlite.ts:208-230 | succeeds iff the row exists and is `pending`; then status is `canceled`, `expires_at` and `digest` are kept; on failure the table is unchanged |
| Ledger.ExecutionLedger.constructor | db/sqlite.ts:14-82 | a fresh ledger has no rows |
| Ledger.ExecutionLedger.CreateExecution | db/sqlite.ts:84-106 | the new table and result are exactly those of `Create` |
| Ledger.ExecutionLedger.GetExecutionByTraceId | db/sqlite.ts:109-127 | a record iff the key is stored, with that key and its stored status |
| Ledger.ExecutionLedger.UpdateExecution | db/sqlite.ts:130-157 | the new table and result are exactly those of `Update` |
| Ledger.ExecutionLedger.ConfirmIfPending | db/sqlite.ts:181-205 | the new table and result are exactly those of `Confirm` |
| Ledger.ExecutionLedger.CancelIfPending | db/sqlite.ts:208-230 | the new table and result are exactly those of `Cancel` |
| Ledger.ExecutionLedger.FindExpiredConfirmed | db/sqlite.ts:159-178 | returns each row that is `confirmed` with a stored `expires_at <= now` exactly once, as read back, and no other row |
| Ledger.ScanStep | db/sqlite.ts:159-178 | visiting one more key keeps the scan invariant (an expired confirmed row is appended, others skipped) |
| Ledger.ScanDone | db/sqlite.ts:159-162 | once every key is visited, the collected ids are exactly the expired confirmed rows |
| Ledger.TwoCasAtMostOneWins | db/sqlite.ts:193-219 | of two compare-and-swaps (confirm or cancel) on one trace id, in either order, at most one returns a record |
| Ledger.LeftPendingStaysLeft | db/sqlite.ts:130-230 | once a row is out of `pending`, no history of CAS calls and non-reopening updates brings it back, and no CAS on it succeeds |
| Ledger.AtMostOneCasWins | db/sqlite.ts:181-230 | in any such history at most one compare-and-swap on a trace id ever succeeds |
| Ledger.NoPatchClearsAField | db/sqlite.ts:136-141 | COALESCE: no update, confirm or cancel patch removes a stored reason, channel, message_ts, expires_at or digest (also lines 187-191, 214-217) |
| Ledger.OmittedReasonIsKept | db/sqlite.ts:137-148 | a status-only patch (as in the execute step's `reason: undefined`) keeps the stored reason |
| Ledger.EmptyReasonReadsAbsent | db/sqlite.ts:121-148 | an empty-string reason is written (`?? null` keeps it) but reads back as absent |
| Ledger.CreateThenLookup | db/sqlite.ts:84-127 | a created row reads back with the status it was created with and `created_at == now` |
| ExecutionGate.SafetyEnforce | services/executionGate.ts:3 | enforcement is off iff the variable is exactly `"0"` (unset counts as on) |
| ExecutionGate.MustAllow | services/executionGate.ts:12-38 | enforcement off or a non-dangerous action allows without reading the ledger; a dangerous action (including a missing name) is allowed iff its non-empty trace id has a `confirmed` record; the denial names the missing trace id, the missing record, or the current status |
| ExecutionGate.FilterToolCalls | services/executionGate.ts:41-63 | the loop's `allowed` and `blocked` are exactly the order-keeping filters of the calls that `MustAllow` admits and refuses |
| ExecutionGate.EnforcementOffAllowsAll | services/executionGate.ts:42 | with enforcement off every call is allowed, in order, and none blocked |
| ExecutionGate.FilterIsPartition | services/executionGate.ts:47-60 | each call is in `allowed` iff admitted and in `blocked` iff not, and the two together are a permutation of the input |
| ExecutionGate.FilterKeepsOrder | services/executionGate.ts:47-60 | filtering distributes over concatenation, so each side keeps the input's relative order |
| ExecutionGate.DangerousAllowedIffConfirmed | services/executionGate.ts:26-37 | a dangerous call is admitted iff its trace id is non-empty, stored, and `confirmed` |
| CacheKey.WorkspacePart | utils/cacheKey.ts:18 | `ws` is the workspace id when truthy, else `unknown` |
| CacheKey.MailboxPart | utils/cacheKey.ts:19 | `mailbox` is the given one when truthy, else `query` when a query is given, else `inbox` |
| CacheKey.KeyParts | utils/cacheKey.ts:20-35 | the segments are gmail, user, ws, mailbox, then `qsha=<sha1(query)>` iff the query is non-empty, and the page segment last |
| CacheKey.KeyPrefix | utils/cacheKey.ts:17-36 | every key begins `gmail\|user=<userId>\|ws=` |
| CacheKey.KeySplitsIntoParts | utils/cacheKey.ts:36 | when no segment contains `\|`, splitting the key on `\|` gives back exactly its segments |
| CacheKey.KeysDistinguishParts | utils/cacheKey.ts:20-36 | two keys built from bar-free segments are equal only if their segments are equal |
| CacheKey.KeyDependsOnQueryOnlyThroughDigest | utils/cacheKey.ts:26-28 | the raw query enters the key only through its digest: queries with the same digest give the same key |
| CacheKey.DefaultPageIsPageOne | utils/cacheKey.ts:29-35 | without a page token, a missing page and page 0 give the same key as page 1 |
| CacheKey.PageTokenWins | utils/cacheKey.ts:29-30 | with a truthy page token the page number does not affect the key |
| ListCache.ToCacheRecord | db/sqlite.ts:269-276 | the returned record carries the key, `created_at`, `expires_at` and `items_json` of the stored row |
| ListCache.Upserted | db/sqlite.ts:245-262 | the key is present afterwards with the new items and expiry and every other row untouched; an existing row keeps its `created_at` and keeps its channel and thread when the new ones are absent; a new row gets `meta.createdAt ?? now` and the given scope |
| ListCache.SweepThreshold | db/sqlite.ts:334 | the threshold `now - max(0, grace)` is never after now |
| ListCache.DeleteLimit | db/sqlite.ts:329 | the delete bound `max(1, maxDelete)` is at least 1 and at least `maxDelete` |
| ListCache.EmailListCache.constructor | db/sqlite.ts:14-82 | a store starts empty, opened or not |
| ListCache.EmailListCache.UpsertEmailListCache | db/sqlite.ts:237-263 | on an opened store the rows become `Upserted(...)`; on an unopened one nothing changes |
| ListCache.EmailListCache.GetEmailListCache | db/sqlite.ts:265-277 | a record iff the store is open and the key is stored, read back from that row with no expiry check |
| ListCache.EmailListCache.LatestInScope | db/sqlite.ts:282-304 | none iff no row matches the scope; otherwise a matching row with the largest `created_at` |
| ListCache.EmailListCache.GetLatestEmailListCacheByScope | db/sqlite.ts:279-314 | null on an unopened store; with a non-empty thread and a (channel, thread) match, the latest such row; otherwise the latest row of the channel alone, or null when the channel has none |
| ListCache.EmailListCache.DeleteExpiredEmailList | db/sqlite.ts:322-331 | only rows with `expires_at < before` go, survivors are untouched, and exactly `min(#expired, max(1, maxDelete))` rows are removed |
| ListCache.EmailListCache.SweepExpiredEmailListCache | db/sqlite.ts:333-338 | reports the number of rows with `expires_at < now - max(0, grace)` and performs the bounded delete at that threshold (none when nothing is expired); an unopened store fails and is unchanged |
| ListCache.DeleteStep | db/sqlite.ts:324-329 | removing one more expired candidate keeps the delete loop's invariant |
| ListCache.DeleteDone | db/sqlite.ts:324-330 | stopping at the bound or when no candidate is left gives the bounded delete |
| ListCache.NothingToDelete | db/sqlite.ts:336 | with no expired row the sweep deletes nothing and the table is unchanged |
| ListCache.SweepSparesLiveRows | db/sqlite.ts:327 | a row whose `expires_at` is at or after the threshold survives the sweep |
| ListCache.DeleteLeavesRest | db/sqlite.ts:322-331 | after a bounded delete the expired count drops by exactly the number deleted, and to zero when fewer than the bound were deleted |
| ListCache.UpsertKeepsCreatedAt | db/sqlite.ts:249-253 | a second upsert of the same key keeps the `created_at` of the first |
| AutodraftState.EpochSeconds | db/sqlite.ts:352 | `floor(nowMs / 1000)` |
| AutodraftState.ToThreadState | db/sqlite.ts:345 | `last_message_id \|\| undefined`: an empty stored id reads as absent; thread id and `drafted_at` are kept |
| AutodraftState.Lookup | db/sqlite.ts:341-349 | a state iff the store is open and the thread is stored (an unopened store's error is caught and gives null) |
| AutodraftState.AutodraftStore.constructor | db/sqlite.ts:14-82 | a store starts empty |
| AutodraftState.AutodraftStore.GetAutodraftState | db/sqlite.ts:341-349 | a state iff the store is open and the thread is stored, read back from that row |
| AutodraftState.AutodraftStore.UpsertAutodraftState | db/sqlite.ts:351-359 | fails on an unopened store and changes nothing; otherwise the thread's row is replaced by the new id and `floor(now/1000)` |
| ExpiryWatcher.NoticeFor | slack-bot.ts:102-108 | a notice, for the record's trace id, iff both channel and message_ts are set |
| ExpiryWatcher.Ticked | slack-bot.ts:96-101 | same keys; every expired confirmed row becomes `canceled` with reason 期限超過 and `updated_at` = now; every other row is untouched |
| ExpiryWatcher.PrefixStep | slack-bot.ts:98-112 | one more record adds its trace id (not seen before) and its notice, if any, at the end |
| ExpiryWatcher.TickStep | slack-bot.ts:98-112 | one unguarded update of the next record keeps the tick loop's invariant |
| ExpiryWatcher.TickTable | slack-bot.ts:97-113 | after the loop over all expired records the table is `Ticked(t0, now)` |
| ExpiryWatcher.NoticesOfMembers | slack-bot.ts:102-112 | a notice is emitted iff some record yields it, and records with distinct ids give notices with distinct ids |
| ExpiryWatcher.TickNotices | slack-bot.ts:97-112 | the notices are exactly those of the expired confirmed rows that have channel and message_ts, each once |
| ExpiryWatcher.ExpiryWatcherTick | slack-bot.ts:95-113 | the ledger becomes `Ticked(old, now)`; a notice goes out exactly for each expired confirmed record with channel and message_ts, and no trace id is notified twice |
| ExpiryWatcher.TickClearsExpired | slack-bot.ts:97 | after a tick no row is expired and confirmed, so the next tick at the same time finds nothing (also db/sqlite.ts:161) |
| ExpiryWatcher.TickIdempotent | slack-bot.ts:96-113 | a second tick at the same time changes nothing |
| ExpiryWatcher.ExpiryUpdateIgnoresStatus | slack-bot.ts:100 | the watcher's update has no status guard: it would turn even an `executed` row into `canceled` (also db/sqlite.ts:143) |
| ExpiryWatcher.WatcherPeriodMs | slack-bot.ts:117 | the period is `max(5, EXPIRY_SWEEP_SEC)` seconds, in whole milliseconds |
| ExpiryWatcher.JitterInRange | slack-bot.ts:131 | `floor((random*2-1)*jitterSec)` lies in [-jitterSec, jitterSec] |
| ExpiryWatcher.SweeperDelayMs | slack-bot.ts:132 | the delay is `max(5, base + jitter)` seconds, never below 5 s |
| ExpiryWatcher.SweeperDelayBounds | slack-bot.ts:131-132 | the delay lies between `max(5, base - jitterSec)` and `max(5, base + jitterSec)` seconds |
| SafetyActions.OrEmpty | slack-bot.ts:276-278 | `(x \|\| '')`: the value when present, else the empty string |
| SafetyActions.ConfirmDigest | slack-bot.ts:276-279 | the digest starts `to=<to>; subject=<subject>; body_head=` and ends with the first 50 characters of the body, and is no longer than that |
| SafetyActions.DigestIgnoresBodyTail | slack-bot.ts:278 | characters of the body after the 50th do not change the digest |
| SafetyActions.ExpiresAt | slack-bot.ts:280 | the expiry is exactly `TTL_min * 60000` ms after now |
| SafetyActions.DraftFromExecution | slack-bot.ts:156-165 | the draft takes body (`\|\| ''`), subject, to, thread and draft id from the record's params, `createdAt` = now, and no cc, bcc or in-reply-to |
| SafetyActions.ExecuteDraft | slack-bot.ts:176-236 | only the record's row may change; the outcome carries the built draft; success of `createDraft` gives `executed` with the reason kept, failure gives `canceled` with the error message as reason |
| SafetyActions.ConfirmFlow | slack-bot.ts:258-297 | not found iff no record (nothing changes); already handled iff the record is not pending (nothing changes, the current status is reported); a pending `gmail_draft` executes (executed or canceled with the message), any other pending type is confirmed with the TTL expiry and the digest and reports `msg_<last segment>` |
| SafetyActions.CancelReason | slack-bot.ts:306 | the payload reason when non-empty, else ユーザー操作 |
| SafetyActions.CancelFlow | slack-bot.ts:300-336 | not found iff no record; already handled iff not pending (nothing changes); otherwise the row is `canceled` with that reason and its expiry and digest kept |
| SafetyActions.ExecuteGmailDraftAction | slack-bot.ts:176-236 | the ledger and outcome are those of `ExecuteDraft`; the saved draft is deleted only on success |
| SafetyActions.SafetyConfirm | slack-bot.ts:258-297 | the ledger and outcome are those of `ConfirmFlow`; the draft store changes only through the executed draft's deletion |
| SafetyActions.SafetyCancel | slack-bot.ts:300-336 | the ledger and outcome are those of `CancelFlow` |
| SafetyActions.ConfirmLeavesNothingPending | slack-bot.ts:282-293 | after a confirm press the record is no longer pending |
| SafetyActions.SecondConfirmIsNoOp | slack-bot.ts:290-292 | a second confirm press changes nothing and reports the status left by the first |
| SafetyActions.FirstPressDecides | slack-bot.ts:282-318 | a cancel after a confirm changes nothing, and a confirm after a cancel runs nothing |
| SafetyActions.CancelNeverExecutes | slack-bot.ts:300-336 | a cancel press never marks any row `executed` |
| SafetyActions.OnlyWinningDraftExecutes | slack-bot.ts:282-285 | a row becomes `executed` iff it was a pending `gmail_draft` and Gmail accepted the draft (also lines 194) |
| Recipients.AngleMatch | slack-bot.ts:345 | `/<([^>]+)>/`: a capture is non-empty and holds no `>` |
| Recipients.IfLooseEmail | slack-bot.ts:348 | the text is kept iff it has the loose `x@y.z` shape |
| Recipients.NormalizeEmail | slack-bot.ts:343-350 | null for a missing or empty address; any result has the loose shape and is already lower case |
| Recipients.NormalizePlainAddress | slack-bot.ts:345-349 | without `<`, the result is the trimmed, lowercased text when it has the loose shape |
| Recipients.NormalizeNameAddr | slack-bot.ts:345-349 | for `Name <addr>`, the result is the trimmed, lowercased `addr` when it has the loose shape |
| Recipients.NormalizeIdempotent | slack-bot.ts:343-350 | normalising a normalised address gives it back |
| Recipients.DomainOfLooseEmail | slack-bot.ts:373 | a loose address has an `@`, and its domain is the text after the first `@` and contains an inner dot |
| Recipients.IsRecipientAllowed | slack-bot.ts:364-377 | a malformed address is refused; with `self` listed, allowed iff the self address is known and equals the normalised address; otherwise allowed iff the domain equals a non-empty listed domain ignoring case, and the refusal names the domain |
| Recipients.AllowedAddressEndsWithListedDomain | slack-bot.ts:373-375 | in domain mode an allowed address ends with `@` + some listed domain |
| Recipients.SelfModeIgnoresDomains | slack-bot.ts:368-371 | with `self` listed, extra domains in the list change nothing |
| DryRunThrottle.WindowMs | slack-bot.ts:391 | the window is `max(1, SEND_SWEEP_SECONDS) * 1000` ms, at least one second |
| DryRunThrottle.Limit | slack-bot.ts:395 | the limit is `max(1, MAX_SEND_PER_SWEEP)`, at least 1 |
| DryRunThrottle.Rolled | slack-bot.ts:390-394 | the window restarts at now with count 0 iff more than the window has passed, else stays |
| DryRunThrottle.FindDraft | slack-bot.ts:400-401 | a draft iff the draft id is truthy and stored for the user, and it is that stored draft |
| DryRunThrottle.CheckedOutcomes | slack-bot.ts:400-426 | after the limit test: not found iff no draft; missing To iff the draft has no `to`; refused iff the recipient check refuses, with its reason; done otherwise, with the subject and byte count |
| DryRunThrottle.DryRunOkOutcomes | slack-bot.ts:379-430 | ignored iff channel or user is missing (state untouched); rate-limited iff the rolled count reached the limit; otherwise the checked outcome; the count grows by one only on a completed dry run |
| DryRunThrottle.DryRunOkKeepsLimit | slack-bot.ts:395-422 | a press never takes the count above the limit |
| DryRunThrottle.DryRunCounters.constructor | slack-bot.ts:340-341 | the window starts at 0 with count 0 |
| DryRunThrottle.DryRunCounters.MailDryRunOk | slack-bot.ts:379-430 | the counters and reply are exactly those of `DryRunOk` on the old counters |
| DryRunThrottle.WindowAdmitsAtMostLimit | slack-bot.ts:390-422 | a sequence of presses inside one window keeps its start, counts exactly the completed dry runs, and stays within the limit |
| DryRunThrottle.FreshWindowBound | slack-bot.ts:395 | a fresh window completes at most `max(1, MAX_SEND_PER_SWEEP)` dry runs |
| DryRunThrottle.RefusalsAreNotCounted | slack-bot.ts:402-422 | a press that does not complete leaves the rolled counters unchanged |
| Auth.ValidateConfig | auth.ts:669-674 | null iff client id, secret and redirect URI are all set; otherwise the first missing one in that order |
| Auth.ConsumeSettings | auth.ts:36-41 | the token is always deleted; the email is returned iff the token was stored and `now <= expiresAt` |
| Auth.ConsumeState | auth.ts:708-713 | the state is always deleted; it passes iff it was stored with a non-zero expiry not before now |
| Auth.SettingsTokenSingleUse | auth.ts:36-41 | a second consume of the same token returns null |
| Auth.IssuedSettingsTokenLifetime | auth.ts:30-41 | a token issued at t with TTL d gives its email back iff consumed at or before t + d, and null iff after |
| Auth.StateSingleUse | auth.ts:708-713 | a state looked up once is refused the second time (RFC 6749 section 10.12) |
| Auth.IssuedStateLifetime | auth.ts:689-713 | a state issued with expiry t + d passes iff consumed at or before t + d |
| Auth.ConsumeLeavesOtherTokens | auth.ts:36-41 | consuming one token leaves every other token as it was |
| Auth.FailurePage | auth.ts:764-767 | the catch block's page: status `response.status \|\| 500`, message the first truthy of error_description, error and message, else `unknown_error` |
| Auth.RegistrationRequiresStateAndCapacity | auth.ts:693-763 | a registration happens only through a stored unexpired state, a token response with a refresh token, a user who exists or is new below the capacity, and successful user-table calls; it records that refresh token |
| Auth.CapacityGate | auth.ts:748-755 | once the earlier steps succeed, the capacity page is shown iff the user is new and the count is at least 5; an existing user with working user-table calls is registered |
| Auth.UserTableFailureFails | auth.ts:748-767 | a throw from the user lookup, the count, the upsert or the read-back gives the catch block's failure page and registers nobody |
| Auth.ReplayedStateRefused | auth.ts:708-713 | replaying a callback whose state has already been looked up gives the invalid-state page |
| Auth.FieldText | auth.ts:772-794 | `String(field \|\| '').trim()` |
| Auth.NextEnabled | auth.ts:48 | the offered value is `"true"` or `"false"` |
| Auth.OfferedValueToggles | auth.ts:48 | posting the offered value back sets `enabled` to the negation of the current value (also lines 773-774) |
| Auth.TrueFieldIsOn | auth.ts:773-774 | the field `true` enables |
| Auth.FalseFieldIsOff | auth.ts:773-774 | the field `false` disables |
| Auth.EnabledFieldAcceptsAnyCase | auth.ts:773-774 | any field whose trimmed, lowercased text is `true` enables |
| Auth.FailedMessage | auth.ts:788 | the error's message when truthy, else `failed` (never empty) (also lines 855) |
| Auth.AuthServer.constructor | auth.ts:24-28 | both stores start empty with the configured TTLs |
| Auth.AuthServer.BuildSettingsToken | auth.ts:30-34 | the given random token is returned and stored with the email and `now + settingsTtlMs` |
| Auth.AuthServer.ConsumeSettingsToken | auth.ts:36-41 | the store and result are exactly those of `ConsumeSettings` |
| Auth.AuthServer.Start | auth.ts:682-691 | a configuration error changes nothing; otherwise the state is stored with `now + stateTtlMs` |
| Auth.AuthServer.AuthCallback | auth.ts:693-769 | the page is `Callback(...)`; the state is deleted exactly when the handler reaches its lookup; a settings token is issued exactly on registration |
| Auth.AuthServer.PostSettings | auth.ts:771-791 | an empty token consumes nothing and is refused; otherwise the token is consumed; a valid token with a failing update gives the failure message; a successful update issues a fresh token and reports `enabled` as the parsed field |
| Auth.AuthServer.PostDisconnect | auth.ts:793-858 | the token is consumed when non-empty; an invalid token is refused; a failing disconnect gives the failure message; success reports the disconnected email |
| NumberedReply.ScopeThread | handlers/numberedReplyHandler.ts:20 | the scope thread is `thread_ts` when truthy, else `ts` (also lines 91) |
| NumberedReply.FindByIndex | handlers/numberedReplyHandler.ts:38 | `items.find(i => Number(i.index) === target)`: the first item with that index, and none iff no item has it (also lines 105) |
| NumberedReply.CachedItem | handlers/numberedReplyHandler.ts:36-39 | a found item has a non-empty message id, the requested index, and comes from the cached list |
| NumberedReply.FastPathDecision | handlers/numberedReplyHandler.ts:12-57 | the fast path declines iff the text does not match with an open-type action or the message has no channel; it opens a body only for a fresh (`nowSec <= expires_at`) cached row of the scope holding the index with a message id; it reports expiry iff the scope's latest row has `nowSec > expires_at` |
| NumberedReply.NewestUserList | handlers/numberedReplyHandler.ts:207-228 | none iff no memory is an `email_list` of the user; otherwise a user list with the largest `generated_at`, the first such one in the input |
| NumberedReply.LatestEmailList | handlers/numberedReplyHandler.ts:207-228 | any result is an `email_list` memory of that user |
| NumberedReply.NewestIsUnique | handlers/numberedReplyHandler.ts:217-227 | the first user list carrying the largest `generated_at` is the one picked |
| NumberedReply.FindEmailAt | handlers/numberedReplyHandler.ts:184 | an email of the list with exactly the index, and none iff no email has it |
| NumberedReply.FindEmailByTerm | handlers/numberedReplyHandler.ts:201-204 | an email whose subject or sender contains the term ignoring case, and none iff no email matches |
| NumberedReply.MemoryLookupUsesNewestList | handlers/numberedReplyHandler.ts:170-185 | with memories disabled nothing is found; a found email has the index and belongs to the newest list of the user |
| NumberedReply.FromCache | handlers/numberedReplyHandler.ts:98-106 | a cache hit is a fresh row of the scope whose list holds the index with a message id |
| NumberedReply.CacheBeforeMemory | handlers/numberedReplyHandler.ts:90-148 | an expired scope row gives the expiry notice (and only it does); a cache hit opens the body for an open action and otherwise acts on the cached item; the memory path is used only when the cache gave nothing |
| NumberedReply.FastPathAgrees | handlers/numberedReplyHandler.ts:12-57 | when the full handler opens a cached body, the fast path opens the same item and cache key (also lines 98-116) |
| NumberedReply.OpenWordsMentionOpen | handlers/numberedReplyHandler.ts:16 | every exact open action also passes the fast path's open test (also lines 108) |
| NumberedReply.ExecuteEmailAction | handlers/numberedReplyHandler.ts:230-263 | always handled; the saved draft is `ActionDraft(...)`, stored under the user and the fresh draft id, and nothing is saved for another action |
| NumberedReply.ActionDrafts | handlers/numberedReplyHandler.ts:233-260 | a draft is saved iff the action is 返信, reply, 下書き or draft; a reply has subject `Re: <subject>`, the thread id and the original subject in its body; a draft has an empty body, the subject, and `from_email \|\| from` as recipient; both carry the draft id and now |
| EmailTypes.MadeUpId | services/emailDetectionService.ts:136 | a made-up id begins `email_` |
| EmailDetection.NextTicks | services/emailDetectionService.ts:157 | the next three backticks at or after a position, if any |
| EmailDetection.NextTicksFirst | services/emailDetectionService.ts:157-168 | the lazy `[\s\S]*?` stops at the first closing backticks: none lie between the start and the found position, and none at all when none is found |
| EmailDetection.AlnumRunEndSpan | services/emailDetectionService.ts:157 | `[a-zA-Z0-9]*` consumes exactly the maximal run of ASCII letters and digits |
| EmailDetection.OpenerEnd | services/emailDetectionService.ts:157-168 | an opener is three backticks, the language tag the pattern allows (any alphanumeric run, `json` in any case, or none) and a newline |
| EmailDetection.FenceAt | services/emailDetectionService.ts:157-168 | a fence found at p starts with backticks at p and its content ends at the next closing backticks |
| EmailDetection.FirstFence | services/emailDetectionService.ts:165-168 | `match` without `g`: the leftmost position at which a fence matches, and none when no position matches |
| EmailDetection.UnfencedTextUnchanged | services/emailDetectionService.ts:155-161 | text with no backtick is returned unchanged by `stripCodeFences` |
| EmailDetection.PlainStretchKept | services/emailDetectionService.ts:157 | a stretch with no backtick is copied through unchanged |
| EmailDetection.StripAtFence | services/emailDetectionService.ts:157 | at a fence, the replacement keeps only the content (`$1`) and continues after the closing backticks |
| EmailDetection.StripOneBlock | services/emailDetectionService.ts:157 | in a text whose only backticks form one fenced block, the block is replaced by its body and the rest is kept |
| EmailDetection.FencedBlockStripped | services/emailDetectionService.ts:155-161 | `stripCodeFences(pre + block + rest) == pre + body + rest` for a fenced block with any alphanumeric language tag |
| EmailDetection.BraceSpan | services/emailDetectionService.ts:171-176 | the last-resort span runs from the first `{` to the last `}`, is at most 20001 characters long, and contains an `"items"` or `"messages"` key followed by `[` |
| EmailDetection.JsonFenceChosen | services/emailDetectionService.ts:165-166 | when a non-empty ```` ```json ```` block exists, its trimmed content is the candidate |
| EmailDetection.JsonBlockFirst | services/emailDetectionService.ts:165 | a json block preceded by no backtick is the first json fence, and its content is the block's body |
| EmailDetection.JsonBlockPreferred | services/emailDetectionService.ts:163-166 | a text with a json block before any other backtick yields that block's trimmed body, whatever follows |
| EmailDetection.JsonBlockCandidate | services/emailDetectionService.ts:163-166 | the same, stated for a block found at a position of any text |
| EmailDetection.UnfencedUsesBraceSpan | services/emailDetectionService.ts:163-177 | with no backtick in the text, the candidate is exactly the brace span (or null) |
| EmailDetection.BraceSpanOf | services/emailDetectionService.ts:171-176 | for `pre {mid} post` with no `{` before and no `}` after, the candidate is `{mid}` iff it is short enough and has a list key |
| EmailDetection.FirstTruthy | services/emailDetectionService.ts:136-138 | `a \|\| b \|\| c`: the first non-empty field among the keys, and none iff all are missing or empty |
| EmailDetection.FallbackId | services/emailDetectionService.ts:136 | the id is the first truthy of id, messageId and threadId, else `email_<now>_<i>` |
| EmailDetection.FallbackEmail | services/emailDetectionService.ts:135-140 | the i-th entry gets index i + 1 |
| EmailDetection.FirstFifty | services/emailDetectionService.ts:135 | `slice(0, 50)`: at most 50 entries, a prefix of the input |
| EmailDetection.Numbered | services/emailDetectionService.ts:135-140 | every entry is mapped, in order, with its position |
| EmailDetection.DetectEmailPatterns | services/emailDetectionService.ts:110-153 | the loop's result is `DetectedEmails`: the first pattern with matches decides, else the JSON fallback |
| EmailDetection.FirstPatternDecides | services/emailDetectionService.ts:116-125 | the first pattern with any match gives the list and later patterns are not tried |
| EmailDetection.KeepIncreasing | services/emailDetectionService.ts:141 | the filter keeps indices strictly increasing |
| EmailDetection.NumberedAt | services/emailDetectionService.ts:135-140 | an email with index n comes from entry n - 1 |
| EmailDetection.FallbackFromPositions | services/emailDetectionService.ts:133-141 | at most 50 emails, each with a subject or sender, numbered by its position among the first 50 entries (so indices may have gaps) |
| EmailDetection.FallbackNumbersIncrease | services/emailDetectionService.ts:135-141 | the fallback's indices are strictly increasing |
| EmailDetection.NullEntryEmptiesFallback | services/emailDetectionService.ts:135-148 | a `null` among the first 50 entries throws inside `map`, and the catch leaves the list empty |
| EmailDetection.FallbackMadeUpId | services/emailDetectionService.ts:136 | an entry without id, messageId or threadId gets an id that the open service treats as a pseudo id (also services/openEmailService.ts:49-51) |
| EmailDetection.ListData | services/emailDetectionService.ts:14-41 | null iff nothing was detected; otherwise the list with the emails and user, tagged `skip_save_items_lt_2` below 2 items and `操作対象` otherwise |
| EmailDetection.CachedItems | services/emailDetectionService.ts:60-66 | one cache item per email, in detection order |
| EmailDetection.SummaryLines | services/emailDetectionService.ts:73-82 | the summary has 4 or 5 lines (the sample line only when there are subjects), with the cache key and the tag line in place |
| EmailDetection.DetectAndSaveEmailList | services/emailDetectionService.ts:10-108 | the result is `ListData` of the detected emails; the cache is upserted exactly with the planned write (2 or more items, opened store) and is otherwise unchanged; the summary is the planned one |
| EmailDetection.SaveThreshold | services/emailDetectionService.ts:21-69 | a write is planned iff there are at least 2 emails, under the built cache key, with `expires_at = now + 60 * ttlMin`, `createdAt = now`, and the items in detection order |
| EmailDetection.SavedListOpensByNumber | services/emailDetectionService.ts:60-67 | in a saved list with increasing indices, looking an email's index up finds that email (also handlers/numberedReplyHandler.ts:38) |
| EmailDetection.FallbackListOpensByNumber | services/emailDetectionService.ts:135-141 | every email of a JSON-fallback list can be opened by its number (also handlers/numberedReplyHandler.ts:38) |
| EmailDetection.SummaryOnlyForSavedLists | services/emailDetectionService.ts:72-90 | a summary is produced iff a write was planned and memory saving is on, and it names the cache key |
| ComposeConfig.ParseInlineArray | services/composeDetectionService.ts:33-41 | no `[`…`]` on the line gives `[]`; every kept entry is non-empty (`filter(Boolean)`) |
| ComposeConfig.InlineArrayRoundTrip | services/composeDetectionService.ts:33-41 | `key: ["a","b",…]` written from plain entries parses back to exactly those entries, in order |
| ComposeConfig.CleanAllQuoted | services/composeDetectionService.ts:38-39 | the two quote-stripping passes undo the quoting of every plain entry |
| ComposeConfig.SplitQuoted | services/composeDetectionService.ts:37 | splitting the comma-joined quoted entries on `,` gives back the quoted entries |
| ComposeConfig.BracketAfterKey | services/composeDetectionService.ts:34 | `/\[(.*)\]/` on `key[inner]` captures exactly `inner` when the key has no `[` and inner no line terminator |
| ComposeConfig.NewRule | services/composeDetectionService.ts:82-98 | a new rule starts with its id, weight 0, no phrases or terms, empty pattern and flags, target `gen`, and no block |
| ComposeConfig.Config.WithRules | services/composeDetectionService.ts:83-98 | replacing one section's rules changes only that section and keeps the thresholds |
| ComposeConfig.IfNumber | services/composeDetectionService.ts:62-105 | a number replaces the kept value; NaN keeps it |
| ComposeConfig.NormalizeTarget | services/composeDetectionService.ts:126-129 | the target is compose iff the lowered word is `compose`, reply iff it is `reply`, and `gen` otherwise |
| ComposeConfig.ActionOf | services/composeDetectionService.ts:58-136 | a line sets compose_min iff it is classified as a `compose_min_score:` line, and likewise reply_min |
| ComposeConfig.Apply | services/composeDetectionService.ts:58-136 | every step keeps the parse state well formed (a current rule exists only in a rule section) |
| ComposeConfig.Lines | services/composeDetectionService.ts:44-59 | one trimmed line per piece of the split text, in order |
| ComposeConfig.ParseComposeYaml | services/composeDetectionService.ts:43-148 | the loop computes `ParsedConfig(text)`, the left fold of the per-line step over the lines |
| ComposeConfig.Perform | services/composeDetectionService.ts:58-136 | once a line has been classified, the loop body changes the section, the current rule and the configuration exactly as `Apply` does for that action |
| ComposeConfig.SkippedLines | services/composeDetectionService.ts:60 | comment and empty lines leave the state unchanged |
| ComposeConfig.HeaderLines | services/composeDetectionService.ts:71-78 | a section header switches the section and drops the current rule, keeping the configuration |
| ComposeConfig.ComposeMinLineSets | services/composeDetectionService.ts:61-65 | `compose_min_score: n` sets compose_min to n and changes nothing else |
| ComposeConfig.ReplyMinLineSets | services/composeDetectionService.ts:66-70 | `reply_min_score: n` sets reply_min to n and changes nothing else |
| ComposeConfig.NonNumericMinIgnored | services/composeDetectionService.ts:62-68 | a threshold line whose value is NaN leaves the state unchanged |
| ComposeConfig.StepKeepsThresholds | services/composeDetectionService.ts:58-136 | only a threshold line can change its threshold |
| ComposeConfig.ComposeMinDefault | services/composeDetectionService.ts:53 | with no `compose_min_score:` line the threshold stays 2.0 |
| ComposeConfig.RuleIdLineAppends | services/composeDetectionService.ts:80-100 | `- rule_id: id` in a rule section appends a fresh rule with the trimmed id to that section only and makes it current |
| ComposeConfig.ChangeTouchesOnlyCurrent | services/composeDetectionService.ts:102-135 | a property line changes only the last rule of the current section and never its id |
| ComposeConfig.ParsedKeepsIds | services/composeDetectionService.ts:58-137 | once a rule is added, later lines never remove it or change its id |
| ComposeConfig.WeightLineSets | services/composeDetectionService.ts:103-106 | `weight: n` under a current rule sets that rule's weight to n |
| ComposeConfig.EmptyFileDefaults | services/composeDetectionService.ts:29-31 | an empty (or unreadable) file gives both thresholds 2.0 and no rules (also lines 53-54, 139-147) |
| ComposeDetection.Detector.constructor | services/composeDetectionService.ts:150 | no configuration is cached at start |
| ComposeDetection.LabelOf | services/composeDetectionService.ts:225-227 | compose only at or above compose_min and not below reply; reply only at or above reply_min when compose is not chosen; other when neither |
| ComposeDetection.Detector.GetConfig | services/composeDetectionService.ts:150-159 | the first call parses the (safely read) file and caches it; later calls return the cached configuration unchanged |
| ComposeDetection.Detector.DetectComposeOrReply | services/composeDetectionService.ts:166-230 | the result is `DetectOn` for the configuration `GetConfig` yields (scores by target, blockers only recorded, the label rule), and a cached configuration is kept |
| ComposeDetection.Score | services/composeDetectionService.ts:176-229 | the loops compute `DetectOn`: blockers, triggers, reply triggers, markers and regexes in that order, then the label |
| ComposeDetection.ScanBlockers | services/composeDetectionService.ts:177-181 | the hits are exactly the matching blockers, in order, and no score changes |
| ComposeDetection.ScanPhrases | services/composeDetectionService.ts:186-191 | the score grows by the total weight of the matching rules and the hits are those rules in order |
| ComposeDetection.ScanMarkers | services/composeDetectionService.ts:193-205 | every marker group adds to compose only, with one hit per matching marker in group order |
| ComposeDetection.ScanRegexes | services/composeDetectionService.ts:208-217 | rules with a pattern that fires add to reply when targeted at reply and to compose otherwise, each with one hit |
| ComposeDetection.TotalAppend | services/composeDetectionService.ts:186-216 | scores add over concatenated rule lists |
| ComposeDetection.HitWeightOfHits | services/composeDetectionService.ts:179-215 | the weights of the hits are the weights of the rules hit |
| ComposeDetectionProps.ScoredTextIsInput | services/composeDetectionService.ts:169-174 | the address appended for Slack mailto links is always already in the text, so the text scored is the text given |
| ComposeDetectionProps.EmptyPhraseAlwaysHits | services/composeDetectionService.ts:161-164 | an empty phrase (or a missing one, `String(t \|\| '')`) occurs in every text |
| ComposeDetectionProps.ContainsAnyIgnoresCase | services/composeDetectionService.ts:161-164 | lowering the text first does not change `containsAny` |
| ComposeDetectionProps.ContainsAnyIgnoresPhraseCase | services/composeDetectionService.ts:161-164 | lowering the phrases first does not change `containsAny` |
| ComposeDetectionProps.MatchedRules | services/composeDetectionService.ts:176-217 | a rule is among the matches iff it hits the text |
| ComposeDetectionProps.HitsAreTheRulesThatHit | services/composeDetectionService.ts:166-230 | `rule_hits` contains exactly the (id, weight) pairs of the rules that hit |
| ComposeDetectionProps.TotalSplit | services/composeDetectionService.ts:213 | regex weights split exactly between compose and reply |
| ComposeDetectionProps.HitsAccountForScores | services/composeDetectionService.ts:166-230 | the hits' weights sum to compose + reply + the weights of the blockers hit |
| ComposeDetectionProps.BlockersNeverScore | services/composeDetectionService.ts:177-229 | replacing the blockers changes neither score nor the label: blockers only log a hit |
| ComposeDetectionProps.BlockerHitsFirst | services/composeDetectionService.ts:177-181 | the blocker hits come first in `rule_hits` |
| ComposeDetectionProps.NonNegativeScores | services/composeDetectionService.ts:183-216 | with non-negative weights both scores are non-negative |
| ComposeDetectionProps.MarkersOnlyCompose | services/composeDetectionService.ts:193-205 | markers never add to reply: with no triggers or regexes, reply is 0 and compose is the markers' total |
| Mime.DecodeQ | utils/mime.ts:30-49 | the loop's bytes are `QBytes(text)`: `=HH` is one byte, `_` a space, any other character its UTF-16 code units truncated to a byte |
| Mime.QStepEscape | utils/mime.ts:34-40 | an `=` followed by two hex digits contributes the byte 16·h1 + h2 and skips three characters |
| Mime.QStepOne | utils/mime.ts:42-48 | any other character contributes a space for `_` and its code units otherwise, and skips one |
| Mime.QRoundTrip | utils/mime.ts:30-49 | decoding `=HH` escapes of every byte gives back those bytes |
| Mime.QPlainText | utils/mime.ts:47 | text of one-byte characters other than `=` and `_` decodes to its character codes |
| Mime.QLiteralEquals | utils/mime.ts:34-47 | an `=` not followed by two hex digits is kept as the byte `=` |
| Mime.QUnderscore | utils/mime.ts:42-46 | `_` is the byte 32 |
| Mime.UnitBytes | utils/mime.ts:47-50 | a character gives one or two bytes (`charCodeAt` is a UTF-16 unit; `Buffer.from` keeps its low byte) |
| Mime.HexValue | utils/mime.ts:36-37 | `parseInt(hex, 16)` of one hex digit is below 16 |
| Mime.DecodeWord | utils/mime.ts:4-57 | `decodeWord` returns the `WordValue`: raw text for an unsupported charset, a non-`b`/`q` encoding or a failing decode; otherwise the charset decode of the base64 or Q bytes |
| Mime.ShiftJisAliases | utils/mime.ts:8-20 | every Shift_JIS alias, in any case, becomes `shift_jis` |
| Mime.CharsetIgnoresCase | utils/mime.ts:5-20 | the charset lookup ignores case |
| Mime.UnsupportedCharsetIsRaw | utils/mime.ts:20-21 | a charset outside the table returns the text as it came |
| Mime.NonQuestionRun | utils/mime.ts:61 | `[^?]+` consumes the maximal run of characters other than `?` |
| Mime.WordAt | utils/mime.ts:61 | a match of the encoded-word pattern at p ends after p and inside the text |
| Mime.WordAtParts | utils/mime.ts:61 | a well-laid-out `=?c?e?t?=` matches with exactly those three parts |
| Mime.OneWord | utils/mime.ts:60-63 | a header that is one encoded word decodes to that word's value |
| Mime.NoWordsUnchanged | utils/mime.ts:60-63 | a header without `=?` is returned unchanged, and a missing one is `""` |
| MailActionsConfig.BoolEnv | config/mailActionsConfig.ts:1-5 | an unset variable gives the default; a set one is true iff it is `1`, `true`, `on` or `yes` in any case |
| MailActionsConfig.SetFlagIgnoresDefault | config/mailActionsConfig.ts:3-4 | once set, the default no longer matters, and the empty value is false |
| MailActionsConfig.BoolEnvIgnoresCase | config/mailActionsConfig.ts:4 | the truthy words are matched without regard to case |
| MailActionsConfig.IntEnv | config/mailActionsConfig.ts:7-10 | the result is the default or a positive finite number that is what the variable parses to |
| MailActionsConfig.PositiveOr | config/mailActionsConfig.ts:9 | a finite number at or below 0 (or NaN, or an infinity) gives the default |
| MailActionsConfig.IntEnvOfNat | config/mailActionsConfig.ts:7-10 | unset or empty gives the default; a decimal n gives n when n > 0 and the default for 0 |
| MailActionsConfig.Defaults | config/mailActionsConfig.ts:12-15 | with no variables: phase-3 actions off, dry run on, 5 sends per sweep, a 60-second sweep |
| MailActionsConfig.TrimAll | config/mailActionsConfig.ts:20 | every part is trimmed, in order |
| MailActionsConfig.AllowedEntriesClean | config/mailActionsConfig.ts:18-21 | every allowed domain is non-empty, trimmed and free of commas |
| MailActionsConfig.AllowedDefaultsToSelf | config/mailActionsConfig.ts:19 | unset or empty `ALLOWED_SEND_DOMAINS` gives `["self"]` |
| MailActionsConfig.AllowedDomainsRoundTrip | config/mailActionsConfig.ts:18-21 | a comma-joined list of clean domains reads back as exactly that list |
| MailActionsConfig.ResolveDryRunEnabled | config/mailActionsConfig.ts:23-30 | the feature flag takes priority; `PHASE3_MODE=dryrun` (any case) counts only without it; enabled iff the source is not the default |
| MailActionsConfig.DryRunOnByDefault | config/mailActionsConfig.ts:13-26 | with the flag unset, dry run is on through the flag's default |
| GoogleToken.IsValid | services/googleTokenProvider.ts:15-20 | valid only with a non-empty access token; with an expiry time, iff it is 0 or more than 30 s ahead of now; with neither expiry field, always |
| GoogleToken.FromBody | services/googleTokenProvider.ts:48-83 | a token only when the answer has a string `access_token`; the lifetime defaults and the expiry is now + lifetime·1000 |
| GoogleToken.FetchedTokenValidity | services/googleTokenProvider.ts:15-52 | a fetched token is valid iff its token is non-empty and its lifetime exceeds the 30-second margin (or its expiry is exactly 0) |
| GoogleToken.DefaultLifetimesAreValid | services/googleTokenProvider.ts:50-81 | a non-empty token with the default lifetime (1800 s or 3600 s) is valid |
| GoogleToken.RefreshTokenOf | services/googleTokenProvider.ts:101-111 | the environment's refresh token first, then the stored one; never an empty token |
| GoogleToken.ExchangeRefresh | services/googleTokenProvider.ts:62-91 | no exchange without a client id, a secret and a refresh token; otherwise the answer read with a 3600-second default |
| GoogleToken.FetchFromRefresh | services/googleTokenProvider.ts:101-113 | no refresh token gives nothing; a token needs the client credentials and an answer |
| GoogleToken.AcquireCachesWhatItReturns | services/googleTokenProvider.ts:115-134 | a success returns the cached token, which is valid; a failure leaves the cache and source as they were with `google_access_token_unavailable` |
| GoogleToken.AcquireOrder | services/googleTokenProvider.ts:117-131 | a valid cached token wins, then the token server, then the refresh flow, and the source says which |
| GoogleToken.SecondCallUsesCache | services/googleTokenProvider.ts:117 | right after a success, a call at the same instant returns the same token without fetching |
| GoogleToken.AcquireForScope | services/googleTokenProvider.ts:141-155 | the cache is not used; the server's token, else the refresh flow's, else `google_access_token_unavailable_for_scope` |
| GoogleToken.AcquireForRefreshToken | services/googleTokenProvider.ts:93-99 | succeeds iff the exchanged token is valid, with that non-empty token; otherwise `google_access_token_unavailable_for_refresh_token` |
| GoogleToken.TokenProvider.constructor | services/googleTokenProvider.ts:9-10 | no token cached and source `unknown` |
| GoogleToken.TokenProvider.GetGoogleAccessToken | services/googleTokenProvider.ts:115-134 | the new cache, source and result are those of `Acquire` on the old cache |
| GoogleToken.TokenProvider.GetGoogleAccessTokenForScope | services/googleTokenProvider.ts:141-155 | the result is `AcquireForScope` and the cache is untouched |
| GoogleToken.TokenProvider.ClearGoogleTokenCache | services/googleTokenProvider.ts:136 | the cache is emptied and the source is `unknown` |
| IntentRouter.Optional | services/intentRouter.ts:42 | `(?:c)?` consumes c exactly when it stands at the position |
| IntentRouter.VerbPosition | services/intentRouter.ts:42 | the verb's position after the optional blanks, 番, を and に lies between the digit run's end and the end of the text |
| IntentRouter.OpenIndexFrom | services/intentRouter.ts:42 | a match found starts with a full digit run that the verb follows |
| IntentRouter.OpenIndexFromLeftmost | services/intentRouter.ts:42 | the match found is the leftmost: no earlier position matches |
| IntentRouter.NoDigitNoOpen | services/intentRouter.ts:42-43 | a text without digits never matches the open rule |
| IntentRouter.NumberedOpenRequest | services/intentRouter.ts:42-47 | `<digits>番を開いて` matches with the index those digits spell |
| IntentRouter.LocalRoute | services/intentRouter.ts:41-59 | the open rule first (`open_index` with the index), then the exact compose phrases on the trimmed text, then list keywords, dates or relative dates on the lowered text (`list_emails`); none iff no rule applies |
| IntentRouter.ComposePhraseRouted | services/intentRouter.ts:51-53 | each of the nine compose phrases is routed locally to `compose` |
| IntentRouter.OpenIndexNameKept | services/intentRouter.ts:116 | `open_index` normalizes to itself |
| IntentRouter.ListEmailsNameKept | services/intentRouter.ts:117 | `list_emails` normalizes to itself |
| IntentRouter.ComposeNameKept | services/intentRouter.ts:118 | `compose` normalizes to itself |
| IntentRouter.MissingActionIsOther | services/intentRouter.ts:115-119 | a missing action is `other` |
| IntentRouter.OpenWins | services/intentRouter.ts:115-116 | any action mentioning `open`, in any case, is `open_index`, whatever else it mentions |
| IntentRouter.SafeParseJson | services/intentRouter.ts:122-130 | text not starting with `{` after trimming is null; otherwise the parse of the trimmed text |
| IntentRouter.Sanitize | services/intentRouter.ts:132-134 | at most 500 characters, a prefix of the input, and the whole input when it is short enough |
| IntentRouter.LocalRulesNeedNoModel | services/intentRouter.ts:41-59 | when a local rule applies, its verdict is returned whatever the key and the model replies |
| IntentRouter.ModelVerdicts | services/intentRouter.ts:61-111 | without a key the router returns null; a verdict needs the key, a first reply and a parsable JSON text and carries its normalized action; a parsable first reply is used with its own violation flag |
| ListEmails.Pad | services/listEmailsService.ts:17 | at least two digits, with a leading zero exactly for one-digit numbers |
| ListEmails.PadIsPadStart | services/listEmailsService.ts:17 | `pad(n)` is `String(n).padStart(2, '0')` and keeps the number's value (also lines 165) |
| ListEmails.NudgeDayIsSlashDay | services/listEmailsService.ts:29-30 | the prompt writes a day exactly as the Gmail query does (also lines 165) |
| ListEmails.SlashDateNormalised | services/listEmailsService.ts:637-645 | `Y/M/D` comes out as `YYYY-MM-DD 00:00`, zero-padded |
| ListEmails.ToDateStrSettles | services/listEmailsService.ts:630-648 | a recognised slash date gives the `YYYY-MM-DD HH:mm` shape, and formatting that again changes nothing |
| ListEmails.LineLayout | services/listEmailsService.ts:650-656 | a line starts with `N. `, ends with `（date）` when there is a date, and is the bare head without one |
| ListEmails.NumberedItems | services/listEmailsService.ts:266 | one line per shown mail, numbered by position (also lines 373) |
| ListEmails.NumberLines | services/listEmailsService.ts:150-174 | `slice(0, max)`: one line for each of the first max mails |
| ListEmails.NumberLinesNumbered | services/listEmailsService.ts:150-174 | every line starts with its 1-based position |
| ListEmails.RelativeOffsetAsWritten | services/listEmailsService.ts:104-117 | as written: -1 iff there is no today word and the text says 昨日 or きのう (so 一昨日 gives -1); -2 iff it says neither but says 一昨日 or おととい; otherwise 0 |
| ListEmails.RelativeOffset | services/listEmailsService.ts:104-117 | corrected order (the intended half of the 一昨日 finding): -2 iff there is no today word and the text says 一昨日 or おととい; -1 iff it says neither but says 昨日 or きのう; otherwise 0 |
| ListEmails.ParseParamsAsWritten | services/listEmailsService.ts:89-122 | as written, and the parser the listing handler uses: the mailbox is always `inbox` and there is no keyword; unread iff the text says 未読 or `unread` in any case; a written date wins; otherwise no date iff the as-written offset is 0, else the day that offset names |
| ListEmails.ParseParamsFromText | services/listEmailsService.ts:89-122 | corrected (the intended half of the 一昨日 finding): the same as the as-written parser except that the date comes from the corrected offset |
| ListEmails.WrittenDateWins | services/listEmailsService.ts:95-103 | a written date wins over any relative word |
| ListEmails.TodayGivesNoDate | services/listEmailsService.ts:108-111 | 今日 gives no date at all |
| ListEmails.DayBeforeYesterday | services/listEmailsService.ts:108-110 | corrected order: 一昨日 gives the day two back |
| ListEmails.Yesterday | services/listEmailsService.ts:109 | as written, any text with 昨日 or きのう and no today word or written date gives yesterday, 一昨日 included |
| ListEmails.NoDigitsNoMatch | services/listEmailsService.ts:91-93 | a text without digits has no written date |
| ListEmails.DayBeforeYesterdayAsWritten | services/listEmailsService.ts:108-110 | as written, `一昨日` contains `昨日`, is caught by the second test and lists yesterday; the corrected order gives two days back |
| ListEmails.YmdRequest | services/listEmailsService.ts:91-96 | `Y-M-D` or `Y/M/D` alone gives that date, zero-padded |
| ListEmails.KanjiRequest | services/listEmailsService.ts:93-102 | `M月D` alone gives that day of the current year |
| ListEmails.WrittenYmdIsIso | services/listEmailsService.ts:95-96 | a year-first date comes out as `YYYY-MM-DD` |
| ListEmails.QueryOrder | services/listEmailsService.ts:19-36 | `label:inbox`, `is:unread`, the after/before window and the keywords each appear exactly when requested, in that order |
| ListEmails.ShownQuery | services/listEmailsService.ts:36-41 | the query in the prompt is never empty |
| ListEmails.UnfilteredQuery | services/listEmailsService.ts:36-41 | an unfiltered request still shows `label:inbox` |
| ListEmails.CachedPreview | services/listEmailsService.ts:135-154 | a preview iff a cached list is unexpired and holds at least two items, showing between two and ten lines |
| ListEmails.DirectGmailList | services/listEmailsService.ts:156-231 | the Gmail API path computes `DirectShown`: one-day query, widened once when a dated query yields fewer than two lines |
| ListEmails.DirectShownAccepted | services/listEmailsService.ts:197-225 | a list shown by that path has two to ten lines and the detector recognised at least two mails in it |
| ListEmails.NoWideningWhenEnough | services/listEmailsService.ts:181-182 | when the first query yields two lines, the widened query is never sent |
| ListEmails.RunPhase2List | services/listEmailsService.ts:124-628 | the preview is the cached one for the request's key, and the reply is the first route that answers: Gmail API, token check, fast path, model rounds. The request is read by the as-written parser, so 一昨日 lists yesterday. |
| ListEmails.ShownListsHaveTwo | services/listEmailsService.ts:197-223 | every list shown holds at least two lines, numbered from 1 (also lines 257-283, 356-390, 454-489, 582-600) |
| ListEmails.ModelShownHasTwo | services/listEmailsService.ts:356-390 | a list from the model rounds has at least two lines, numbered from 1 (also lines 454-489, 582-600) |
| ListEmails.DirectLinesNumbered | services/listEmailsService.ts:172-176 | the Gmail API path's lines are numbered from 1 |
| ListEmails.OnlyOneFromModel | services/listEmailsService.ts:392-426 | "only one mail" comes from a model round that recognised exactly one mail, and the first round did not reach two (also lines 490-524) |
| ListEmails.AuthErrorOnlyWithoutToken | services/listEmailsService.ts:233-241 | the authentication error happens iff the connect token fails and the Gmail API path showed no list |
| ListEmails.Only401Retried | services/listEmailsService.ts:562-627 | a 401 from the model is retried once with a new token; any other failure ends with the failure reply |
| DateText.PadStart2 | services/listEmailsService.ts:96 | `padStart(2, '0')`: at least two characters, ends with the input, zeros in front (also lines 640-643) |
| DateText.PadStartKeepsValue | services/listEmailsService.ts:96 | padding keeps a digit string's value (also lines 640-643) |
| DateText.Run2 | services/listEmailsService.ts:91-93 | `\d{1,2}` takes two digits when there are two and one otherwise (also lines 637) |
| DateText.FieldBefore | services/listEmailsService.ts:91-93 | a field followed by a separator: one or two digits, then a separator (also lines 637) |
| DateText.FirstMatchAt | services/listEmailsService.ts:91-93 | a start that is reported matches there (also lines 637) (also services/gmailReadDirectService.ts:25) |
| DateText.FirstMatchIsLeftmost | services/listEmailsService.ts:91-93 | `match` reports the leftmost start: none before it matches (also lines 637) (also services/gmailReadDirectService.ts:25) |
| DateText.YearFirstWhole | services/listEmailsService.ts:91 | `Y<a>M<b>D` alone is matched with exactly those groups and no time (also lines 637) (also services/gmailReadDirectService.ts:25) |
| DateText.MonthFirstWhole | services/listEmailsService.ts:92 | `M<b>D` alone is matched with those groups |
| DateText.KanjiWhole | services/listEmailsService.ts:93 | `M月D` alone is matched with those groups |
| DateText.YearFirstWellFormed | services/listEmailsService.ts:637 | every year-first match has a 4-digit year, 1-2 digit month and day, and a 1-2 digit hour with a 2-digit minute (also services/gmailReadDirectService.ts:25) |
| DateText.ReplaceFirst | services/listEmailsService.ts:635 | `replace('T', ' ')` changes only the first occurrence and keeps the length (also services/gmailReadDirectService.ts:24) |
| DateText.RenderWithoutTime | services/listEmailsService.ts:642-644 | without a time the result ends in ` 00:00` |
| DateText.RenderShape | services/listEmailsService.ts:639-644 | a well-formed match renders to exactly `YYYY-MM-DD HH:mm` |
| DateText.NormalizeKeepsShaped | services/listEmailsService.ts:635 | text already shaped `YYYY-MM-DD HH:mm` is returned unchanged (also services/gmailReadDirectService.ts:24) |
| DateText.NormalizeRecognised | services/listEmailsService.ts:630-648 | a recognised date normalises to the fixed shape, and normalising again changes nothing (also services/gmailReadDirectService.ts:17-36) |
| DateText.NormalizeUnrecognised | services/listEmailsService.ts:647 | unrecognised text is returned as it is (also services/gmailReadDirectService.ts:35) |
| GmailReadDirect.SafeText | services/gmailReadDirectService.ts:39-40 | a missing or blank value gives the placeholder; otherwise the trimmed value, which is non-empty |
| GmailReadDirect.SafeTextClean | services/gmailReadDirectService.ts:39-40 | the shown subject or sender is never empty and has no surrounding blanks |
| GmailReadDirect.KanjiDateNormalised | services/gmailReadDirectService.ts:25-33 | `Y年M月D` comes out as `YYYY-MM-DD 00:00`, zero-padded |
| GmailReadDirect.HeadStartsWithNumber | services/gmailReadDirectService.ts:44 | a line starts with its number and `. ` |
| GmailReadDirect.FormatLineLayout | services/gmailReadDirectService.ts:38-45 | the line starts with number, subject and sender; it ends with ` [id:…]` when there is an id, else with `（date）` when there is a date text, else it is the head alone |
| GmailReadDirect.BuildBody | services/gmailReadDirectService.ts:116-133 | mailbox defaults to inbox; a query replaces the date's one-day window in `q` and `query`; no date and no query means neither is set; the INBOX label iff the mailbox is `inbox` in any case |
| GmailReadDirect.CandidatePaths | services/gmailReadDirectService.ts:135-171 | the loop builds the configured, discovered and hard-coded paths with every repeat dropped |
| GmailReadDirect.CandidateOrder | services/gmailReadDirectService.ts:167-171 | the configured path comes first, every discovered and hard-coded path is present, no path twice, and no other path |
| GmailReadDirect.MissesSkipped | services/gmailReadDirectService.ts:175-185 | paths answering 404 or falsy data are skipped |
| GmailReadDirect.FirstHitOutcome | services/gmailReadDirectService.ts:47-55 | after misses only, the first truthy answer is used and the first other error is thrown (also lines 175-185) |
| GmailReadDirect.AllMissesNotFound | services/gmailReadDirectService.ts:186-188 | when every path misses the listing throws `direct_list_not_found` |
| GmailReadDirect.FirstHitStep | services/gmailReadDirectService.ts:175-185 | one loop step: an error ends it, a truthy answer ends it, anything else moves to the next path |
| GmailReadDirect.NumberedLines | services/gmailReadDirectService.ts:197-203 | one line per entry, numbered from 1 |
| GmailReadDirect.Lines | services/gmailReadDirectService.ts:197-203 | the lines of the first `limit` entries, and a failure iff one of those entries is `null` |
| GmailReadDirect.ListMessagesDirect | services/gmailReadDirectService.ts:112-206 | the result is `DirectListing`: the first answer among the candidates, with one body; the path used is a candidate |
| GmailReadDirect.TryCandidates | services/gmailReadDirectService.ts:173-188 | the loop yields the listing of `FirstHit` and names a path among the candidates |
| GmailReadDirect.EntryLineNumbered | services/gmailReadDirectService.ts:202 | each entry line starts with its 1-based number |
| GmailReadDirect.ListingBounded | services/gmailReadDirectService.ts:191-205 | at most `limit` lines, numbered from 1 |
| DraftText.EnsureReplySubject | services/autoDraftService.ts:100-103 | the result always starts (after blanks) with `Re:` in any case, ends with the subject, and equals the subject exactly when it already had the prefix |
| DraftText.ReplySubjectIdempotent | services/autoDraftService.ts:100-103 | marking a subject as a reply twice marks it once |
| DraftText.ValidIffAddress | services/autoDraftService.ts:93-98 | a value is valid iff its trimmed text is a well-formed address (local part, `@`, domain, a dot and two or more letters) |
| DraftText.AddressAvoids | services/autoDraftService.ts:97 | no address contains `<`, `>`, `,`, `=` or `"` |
| DraftText.AddressIsValid | services/autoDraftService.ts:93-98 | a well-formed address is already trimmed and valid |
| DraftText.ExtractEmail | services/autoDraftService.ts:81-91 | whatever is extracted is a valid address; a missing or blank header gives none |
| DraftText.ExtractFindsAddress | services/autoDraftService.ts:81-91 | a header in which the inline pattern finds an address always yields one |
| DraftText.FirstAddressIn | services/autoDraftService.ts:88-89 | the inline match is valid, and is found whenever the pattern occurs |
| DraftText.ExtractTakesAngle | services/autoDraftService.ts:85-86 | a valid `<…>` capture is preferred |
| DraftText.ExtractTakesText | services/autoDraftService.ts:87 | without a valid capture, a valid trimmed header is taken whole |
| DraftText.ExtractFromNameAddr | services/autoDraftService.ts:81-91 | `Name <address>` yields the address |
| DraftText.ExtractBareAddress | services/autoDraftService.ts:81-91 | a bare address yields itself |
| DraftText.RemoveTags | services/autoDraftService.ts:28 | removing tags never lengthens the text |
| DraftText.RemoveOneTag | services/autoDraftService.ts:28 | one `<…>` is removed whole |
| DraftText.RemoveQuotes | services/autoDraftService.ts:30 | no `"` or `'` remains, and text without them is unchanged |
| DraftText.ExtractDisplayName | services/autoDraftService.ts:21-34 | a name is non-empty, trimmed, free of quotes and not shaped like an address; a missing header gives none |
| DraftText.DisplayNameOfNameAddr | services/autoDraftService.ts:21-34 | `Name <address>` with a plain name yields the name |
| DraftText.RemoveSpaces | services/autoDraftService.ts:274 | no white space remains |
| DraftText.EnsureGreeting | services/autoDraftService.ts:268-271 | with no greeting, or a blank one, the body is unchanged |
| DraftText.EnsureGreetingCases | services/autoDraftService.ts:272-280 | exactly one of: the first line already is the greeting (blanks aside) and the stripped body is kept; the body is blank and the greeting alone is returned; the greeting, a blank line, then the stripped body |
| DraftText.GreetingLeads | services/autoDraftService.ts:268-281 | with a one-line greeting, the result opens with it as its first line and no white space before it |
| DraftText.EnsureGreetingIdempotent | services/autoDraftService.ts:268-281 | greeting a greeted body again changes nothing |
| DraftText.AppendSignature | services/autoDraftService.ts:256-266 | no signature keeps the body; otherwise the body without trailing white space, a blank line when that is non-empty, then the normalized signature |
| DraftText.SignatureHasNoEscapes | services/autoDraftService.ts:259-261 | no literal `\n` survives in the signature |
| DraftText.ShouldSkipByHeuristics | services/autoDraftService.ts:150-160 | mail without a sender is skipped, and any mail not skipped has no auto-reply subject |
| DraftText.SkipIgnoresCase | services/autoDraftService.ts:151-152 | letter case in sender and subject never changes the decision |
| DraftText.OutOfOfficeSkipped | services/autoDraftService.ts:158 | an `Out of Office` style subject is skipped whatever the sender |
| Greeting.CollapseSpaces | services/autoDraftService.ts:70 | every white-space character left is a plain space, there are never two in a row, and the result is empty and starts with a blank exactly when the input does |
| Greeting.Normalize | services/autoDraftService.ts:70 | the normalized name has no surrounding blanks and single plain spaces inside |
| Greeting.NormalizeNormal | services/autoDraftService.ts:70 | normalizing a normalized name changes nothing |
| Greeting.RawTokens | services/autoDraftService.ts:62-75 | `split` always yields at least one piece |
| Greeting.Honorific | services/autoDraftService.ts:73-77 | the honorific is 御中 or 様 |
| Greeting.CorporateIffEveryToken | services/autoDraftService.ts:56-77 | for a normalized name, 御中 is chosen exactly when every space-separated token carries a corporate hint |
| Greeting.RecipientGreetingAsWritten | services/autoDraftService.ts:68-79 | as written, and the greeting the auto-draft worker uses: none iff the name is missing or blank; otherwise it starts with the normalized name, is in normal form and ends in 様, 御, 中 or 殿 |
| Greeting.TanakaAsWritten | services/autoDraftService.ts:72 | as written, the surname 田中 ends in 中 and is greeted bare |
| Greeting.BuildRecipientGreeting | services/autoDraftService.ts:68-79 | corrected: none iff the name is missing or blank; otherwise the normalized name, ending in 様, 御中 or 殿 and in normal form |
| Greeting.TanakaGetsSama | services/autoDraftService.ts:68-79 | corrected, 田中 is greeted 田中様 |
| Greeting.AsWrittenAgreesElsewhere | services/autoDraftService.ts:72 | the two versions agree on every name that does not end in 御 or 中 |
| Greeting.GreetingIdempotent | services/autoDraftService.ts:68-79 | a greeting is its own greeting |
| Greeting.GreetingOfBareName | services/autoDraftService.ts:73-78 | a normalized name without an honorific gets its honorific appended |
| AutoDraftPrompt.TextLines | services/autoDraftService.ts:168 | a message text always has at least one line |
| AutoDraftPrompt.Blocks | services/autoDraftService.ts:166-170 | one block per message, in order |
| AutoDraftPrompt.HistoryStart | services/autoDraftService.ts:164-165 | the history starts inside the thread |
| AutoDraftPrompt.BuildConversationText | services/autoDraftService.ts:162-172 | the loop builds the blocks of the last messages joined by the `---` separator |
| AutoDraftPrompt.HistoryCount | services/autoDraftService.ts:164-165 | with a whole-number limit n the log holds exactly the last min(n, length) messages |
| AutoDraftPrompt.HistoryWithoutNumber | services/autoDraftService.ts:164 | a limit that is not a number keeps the whole thread |
| AutoDraftPrompt.BodyLines | services/autoDraftService.ts:168 | a message body is the first lines of its text, at most 80 |
| AutoDraftPrompt.LeadNewlines | services/autoDraftService.ts:250 | the count of newlines a text starts with |
| AutoDraftPrompt.CollapseShape | services/autoDraftService.ts:250 | `replace(/\n{3,}/g, '\n\n')` leaves no three newlines in a row and keeps a leading run of newlines, capped at two |
| AutoDraftPrompt.CollapseKeeps | services/autoDraftService.ts:250 | text with no three newlines in a row is left as it is |
| AutoDraftPrompt.CollapseFixedIff | services/autoDraftService.ts:250 | collapsing changes the text exactly when it has three newlines in a row |
| AutoDraftPrompt.Instruction | services/autoDraftService.ts:227-229 | the instruction is empty iff there is no greeting |
| AutoDraftPrompt.RenderUserPrompt | services/autoDraftService.ts:224-252 | the loop over the template lines computes `UserPrompt` |
| AutoDraftPrompt.PushLine | services/autoDraftService.ts:231-248 | one loop turn pushes exactly the lines its template line stands for |
| AutoDraftPrompt.CollapsedTrimmedClean | services/autoDraftService.ts:250-251 | collapsed and trimmed text has no three newlines in a row and no surrounding white space |
| AutoDraftPrompt.UserPromptClean | services/autoDraftService.ts:224-252 | the user prompt never holds three newlines in a row and has no surrounding white space |
| AutoDraftPrompt.PlainLinesKept | services/autoDraftService.ts:248 | lines without placeholders are kept as they are |
| AutoDraftPrompt.PlainTemplate | services/autoDraftService.ts:224-252 | a template without placeholders or triple newlines is the prompt, trimmed, whatever the thread and greeting |
| AutoDraftPrompt.GreetingLineDropped | services/autoDraftService.ts:239-246 | a greeting line without a greeting disappears |
| AutoDraftPrompt.GreetingLineFilled | services/autoDraftService.ts:239-245 | with a greeting, the instruction stands where the placeholder was |
| AutoDraftPrompt.PromptCache.constructor | services/autoDraftService.ts:190 | both templates start uncached |
| AutoDraftPrompt.PromptCache.LoadPromptTemplate | services/autoDraftService.ts:199-218 | a cached template wins; otherwise a non-blank file (CRLF made LF) or the fallback, which is then cached; the other key's entry is untouched |
| AutoDraftPrompt.DraftBody | services/autoDraftService.ts:297-300 | without a signature, the trimmed answer with the greeting made to lead; with one, that text (trailing blanks removed) followed by the signature |
| AutoDraftPrompt.DraftLeadsWithGreeting | services/autoDraftService.ts:297-300 | without a signature, a draft written with a one-line greeting starts with it |
| AutoDraftQuery.EnvOr | services/autoDraftService.ts:306-308 | `process.env[name] \|\| def`: a set non-empty value, else the default |
| AutoDraftQuery.Settings | services/autoDraftService.ts:105 | lookback `1d` and promotions excluded by default; both labels trimmed (also lines 306-308, 316) |
| AutoDraftQuery.PartsMembers | services/autoDraftService.ts:313-319 | the allow label is asked for iff required and configured, promotions are excluded iff switched on, the processed label is excluded iff configured |
| AutoDraftQuery.QueryTerms | services/autoDraftService.ts:313-319 | with labels and lookback free of spaces, the query's terms are exactly the parts, starting with `in:inbox`, `is:unread` and `newer_than:` the lookback |
| AutoDraftQuery.PlanPoll | services/autoDraftService.ts:304-351 | the poll is skipped iff the label is required by default but empty; with no enabled user one shared query; otherwise one query per user, none exactly for a user who requires the empty label |
| AutoDraftQuery.RequiredLabelAsked | services/autoDraftService.ts:315 | a query built with the label required contains `label:` and the label |
| AutoDraftQuery.PlannedQueriesAskLabel | services/autoDraftService.ts:309-351 | no query of a poll leaves out a required allow label |
| AutoDraftQuery.PollSeconds | services/autoDraftService.ts:433 | `Math.max(30, n)`: NaN stays NaN, any finite result is at least 30 and equals n when n ≥ 30, +Infinity stays |
| AutoDraftRun.OrElse | services/autoDraftService.ts:386-398 | `a \|\| b` on optional text |
| AutoDraftRun.DraftedShape | services/autoDraftService.ts:376-404 | a draft is made only for a thread whose head has none yet and that the heuristics let through; it goes to a valid address, under a `Re:` subject, in that thread |
| AutoDraftRun.DraftedHeadSkipped | services/autoDraftService.ts:378-379 | a thread is skipped as already drafted iff its state row names its current head |
| AutoDraftRun.GreetingIsOneLine | services/autoDraftService.ts:70-78 | a normalized greeting is one trimmed line |
| AutoDraftRun.TanakaThreadGreetedBare | services/autoDraftService.ts:399 | the worker greets a thread whose last sender is 田中 with 田中 bare, as `buildRecipientGreeting` is written (also services/autoDraftService.ts:72) |
| AutoDraftRun.DraftedBody | services/autoDraftService.ts:382-402 | a drafted thread's body is the model's answer to the thread's prompt, made a draft body, sent to the recipient. The greeting is the as-written one, so the sender 田中 is greeted bare. |
| AutoDraftRun.DraftOpensWithGreeting | services/autoDraftService.ts:398-401 | without a signature, a draft for a known name opens with the greeting. That greeting is the as-written one. |
| AutoDraftRun.Outcomes | services/autoDraftService.ts:376-423 | one outcome per thread, each planned against the table as it was before the run |
| AutoDraftRun.RowsAfterElsewhere | services/autoDraftService.ts:406 | rows of threads the run did not draft are as they were |
| AutoDraftRun.RowsAfterDrafted | services/autoDraftService.ts:406 | a drafted thread's row names its head, stamped now |
| AutoDraftRun.DraftsAtMost | services/autoDraftService.ts:376-404 | at most one draft per thread |
| AutoDraftRun.RunThreads | services/autoDraftService.ts:367-373 | the threads of a run are distinct and every head has a message id |
| AutoDraftRun.DraftThread | services/autoDraftService.ts:377-422 | one pass reads the thread's state, plans the thread, and records a drafted head in an opened table |
| AutoDraftRun.DraftThreads | services/autoDraftService.ts:374-424 | the loop returns the drafts in order and their number, and updates the table as `RowsAfter` says |
| AutoDraftRun.RunAutoDraftForToken | services/autoDraftService.ts:354-425 | the count is the number of drafts over the collected threads, and the table ends as `RowsAfter` |
| AutoDraftRun.RerunSkipsDrafted | services/autoDraftService.ts:376-406 | the next poll over the same listing drafts none of the threads this run drafted, whatever Gmail and the model answer |
| AutoDraftRun.RunWithinLimit | services/autoDraftService.ts:373 | a run with a whole-number limit n creates at most n drafts |
| AutoDraftThreads.HeadOf | services/autoDraftService.ts:369-371 | a kept head has a thread id and a message id |
| AutoDraftThreads.HeadsDistinct | services/autoDraftService.ts:367-372 | no thread is kept twice |
| AutoDraftThreads.HeadsComplete | services/autoDraftService.ts:368-372 | every listable item's thread is kept |
| AutoDraftThreads.FirstsAreHeads | services/autoDraftService.ts:370-371 | the head kept for a thread is its first listable item |
| AutoDraftThreads.HeadsSound | services/autoDraftService.ts:368-372 | every kept head comes from a listable item |
| AutoDraftThreads.Truncate | services/autoDraftService.ts:373 | the integer part toward zero |
| AutoDraftThreads.SliceEnd | services/autoDraftService.ts:373 | `slice(0, end)` stops at the integer part of end, counted from the back when negative, clamped; NaN gives 0; ±Infinity gives 0 or all |
| AutoDraftThreads.CollectThreads | services/autoDraftService.ts:367-373 | the loop yields the heads in first-seen order cut by `slice(0, limit)` |
| SlackMessageHandler.IsTruthyEnv | handlers/slackMessageHandler.ts:50-54 | a missing or empty value is never truthy |
| SlackMessageHandler.TruthyEnvAsBoolEnv | handlers/slackMessageHandler.ts:50-54 | the value is truthy exactly when its trimmed form reads as an enabled boolean flag (1, true, yes, on, case-insensitively) |
| SlackMessageHandler.TruthyEnvIgnoresPadding | handlers/slackMessageHandler.ts:52 | surrounding blanks never change the verdict |
| SlackMessageHandler.MentionEnd | handlers/slackMessageHandler.ts:332 | a mention `<@ID>` found at a position starts with `<` and is at least four characters long |
| SlackMessageHandler.RemoveMentions | handlers/slackMessageHandler.ts:332 | removing mentions never lengthens the text |
| SlackMessageHandler.PreprocessMessage | handlers/slackMessageHandler.ts:330-335 | the preprocessed text has no surrounding blanks and only single plain spaces inside |
| SlackMessageHandler.CollapseTrimmedNormal | handlers/slackMessageHandler.ts:332-334 | collapsing the blanks of a trimmed text leaves it normal |
| SlackMessageHandler.NoMentionKept | handlers/slackMessageHandler.ts:332 | text without `<` loses nothing to mention removal |
| SlackMessageHandler.LeadingMentionRemoved | handlers/slackMessageHandler.ts:332 | a leading `<@ID>` with an id of capitals and digits is removed entirely and the rest is treated alone |
| SlackMessageHandler.CleanMessageKept | handlers/slackMessageHandler.ts:330-335 | an already normal text without mentions comes back unchanged |
| SlackMessageHandler.PreprocessIdempotent | handlers/slackMessageHandler.ts:330-335 | preprocessing twice gives the same text as once, when the first pass leaves no `<` |
| SlackMessageHandler.DidUseTool | handlers/slackMessageHandler.ts:258-269 | true exactly when some output entry has a type other than empty, `message` and `mcp_list_tools` |
| SlackMessageHandler.ListNamesAreListTools | handlers/slackMessageHandler.ts:283-288 | every collected tool name matches the list/search/messages/threads/get_thread/get_message/find pattern |
| SlackMessageHandler.DedupeSameNames | handlers/slackMessageHandler.ts:292 | de-duplication keeps exactly the same set of names |
| SlackMessageHandler.DedupeDistinct | handlers/slackMessageHandler.ts:292 | after de-duplication no name occurs twice |
| SlackMessageHandler.DedupeKeepsDistinct | handlers/slackMessageHandler.ts:292 | a list without repeats is left as it is, order included |
| SlackMessageHandler.PickGmailListTools | handlers/slackMessageHandler.ts:276-296 | the loop returns the first-occurrence de-duplication of the list-like tool names of the Gmail `mcp_list_tools` entries |
| SlackMessageHandler.PushListNames | handlers/slackMessageHandler.ts:283-288 | the inner loop appends exactly the list-like names of one entry's tools, in order |
| SlackMessageHandler.PickedTools | handlers/slackMessageHandler.ts:276-296 | the picked names are list-like, distinct, and exactly the candidate names |
| SlackMessageHandler.ConversationHistory.constructor | handlers/slackMessageHandler.ts:127 | no user has a history at start |
| SlackMessageHandler.ConversationHistory.GetHistory | handlers/slackMessageHandler.ts:127 | a user has a history exactly when one was stored, and it is the stored one (also lines 702) |
| SlackMessageHandler.ConversationHistory.Record | handlers/slackMessageHandler.ts:126-134 | a start message (mail keyword, or no or empty history) resets the user's history to the system prompt; any other message appends the `---`-framed text; other users are untouched (also lines 699-704) |
| SlackMessageHandler.NextStartsOnlyOnKeyword | handlers/slackMessageHandler.ts:699-704 | once a message has been recorded, the next one starts a new conversation exactly when it contains a mail keyword |
| SlackMessageHandler.ToolWarnings.constructor | handlers/slackMessageHandler.ts:736 | no user has been warned at start |
| SlackMessageHandler.ToolWarnings.MaybeWarn | handlers/slackMessageHandler.ts:737-749 | the warning goes out exactly when a cached status lacks read-only Gmail tools, the message has a channel and the user was not yet warned; the user is then remembered, so nobody is warned twice |
| SlackDraftCommands.TrimmedOpt | handlers/slackMessageHandler.ts:586-588 | a captured field is kept exactly when it matched, trimmed |
| SlackDraftCommands.ContentIffFilled | handlers/slackMessageHandler.ts:584-595 | a draft has content exactly when its trimmed body, its subject or its recipient is non-empty |
| SlackDraftCommands.ProcessDraft | handlers/slackMessageHandler.ts:570-598 | an empty draft yields nothing and stores nothing; otherwise the draft is stored under the captured or generated id for that user alone and returned with `shouldPrompt` set |
| SlackDraftCommands.DraftIdAt | handlers/slackMessageHandler.ts:616 | a draft id found after `draftId` is non-empty and made of letters, digits, `-` and `_` |
| SlackDraftCommands.NamedDraftId | handlers/slackMessageHandler.ts:616-617 | `draftId: <id>` followed by a non-id character names exactly that id |
| SlackDraftCommands.LatestIndex | handlers/slackMessageHandler.ts:621-624 | the newest draft's position lies within the entries |
| SlackDraftCommands.LatestIndexIsNewest | handlers/slackMessageHandler.ts:623-624 | the picked draft has the largest `createdAt`, and is the first entry with it, as the stable descending sort puts first |
| SlackDraftCommands.LatestIndexUnique | handlers/slackMessageHandler.ts:623-624 | any entry that is newest and first among the newest is the one picked |
| SlackDraftCommands.FindDraft | handlers/slackMessageHandler.ts:628-633 | a found draft is stored under the id; no draft found means no entry has that id |
| SlackDraftCommands.NewestDraftChosen | handlers/slackMessageHandler.ts:619-633 | without an explicit id, a user with drafts acts on the newest one |
| SlackDraftCommands.ExplicitIdUsed | handlers/slackMessageHandler.ts:616-633 | an explicit id is used as given; the "draftId missing" reply comes exactly when the user has no drafts or none under that id |
| SlackDraftCommands.SaveBeforeSend | handlers/slackMessageHandler.ts:634-643 | the immediate save runs exactly when a draft was found and the text says 保存して; otherwise the confirmation asks for `gmail_send` exactly when the text says 送信して |
| SlackDraftCommands.ReplyCommand | handlers/slackMessageHandler.ts:353 | a reply command begins with a digit |
| SlackDraftCommands.NumberedReplyCommand | handlers/slackMessageHandler.ts:353-355 | `<digits>番に返信` asks to reply to the item with that decimal number |
| SlackDraftCommands.ExpiredIff | handlers/slackMessageHandler.ts:361-365 | a cached list is reported expired exactly when the current second is past its `expires_at` |
| SlackDraftCommands.ReplyShape | handlers/slackMessageHandler.ts:366-385 | a reply draft answers the first cached item with that index: to its sender, in reply to its message id, with a subject that carries a `Re:` prefix and ends with the item's subject |
| SlackDraftCommands.ComposeIsNotReply | handlers/slackMessageHandler.ts:342-350 | in a channel, a compose phrase opens an empty compose draft |
| OpenEmail.NonGtRun | services/openEmailService.ts:10 | the `[^>]+` run of a tag stops at the first `>` or at the end of the text |
| OpenEmail.TagAt | services/openEmailService.ts:10 | a tag `<…>` or `</…>` found at a position is at least three characters long and lies inside the text |
| OpenEmail.StripTags | services/openEmailService.ts:10 | removing tags never lengthens the text |
| OpenEmail.EntityAt | services/openEmailService.ts:12 | an entity recognised at the head of a text is at least four characters long and lies inside it |
| OpenEmail.DecodeEscaped | services/openEmailService.ts:12 | a single left-to-right entity decoding undoes HTML escaping of any text |
| OpenEmail.DoubleDecoding | services/openEmailService.ts:12 | the five replacements run one after another turn the escaped `&quot;` into `"`, decoding it twice, where one decoding gives back `&quot;` |
| OpenEmail.AsWrittenDecodesTwice | services/openEmailService.ts:12 | `&amp;quot;` comes out of the chained replacements as `"` |
| OpenEmail.DecodedOnceKeepsEntity | services/openEmailService.ts:12 | a single decoding turns `&amp;quot;` into `&quot;` |
| OpenEmail.EscapePlain | services/openEmailService.ts:12 | a text without `<`, `>`, `&`, `"` and `'` is its own escaping |
| OpenEmail.DecodePlain | services/openEmailService.ts:12 | a text without `&` is left as it is by decoding |
| OpenEmail.TruncateBody | services/openEmailService.ts:16-21 | an empty body stays empty and untruncated; a body within the limit is kept whole; a longer one is cut to the limit and followed by the omission note, flagged truncated |
| OpenEmail.TruncateKeepsHead | services/openEmailService.ts:16-21 | the shown text always starts with the first `limit` characters, is flagged truncated exactly when the body is longer than the limit, and is the body itself otherwise |
| OpenEmail.MadeUpIdsArePseudo | services/openEmailService.ts:49-51 | the ids the list service invents for messages without one are recognised as pseudo ids |
| OpenEmail.DigitsJoinedArePseudo | services/openEmailService.ts:49-51 | `email_<digits>_<digits>` is a pseudo id |
| OpenEmail.PseudoLayout | services/openEmailService.ts:50 | the pattern is anchored only at the start: `email_<digits>_<digit>` followed by anything is a pseudo id |
| OpenEmail.RealIdsAreNotPseudo | services/openEmailService.ts:49-51 | an id not starting with `email_` is never a pseudo id |
| OpenEmail.OrElse | services/openEmailService.ts:35-72 | a missing or empty field falls back to the placeholder; any other value is kept |
| OpenEmail.FirstParenTail | services/openEmailService.ts:72 | the removed tail starts at the first opening parenthesis from which `[（(].*?[）)]\s*$` matches; no earlier position matches |
| OpenEmail.IdText | services/openEmailService.ts:26 | the id is interpolated as given, or as `undefined` when missing (also lines 90) |
| OpenEmail.LineIf | services/openEmailService.ts:41-46 | an optional line is kept exactly when its value is non-empty |
| OpenEmail.MetaLines | services/openEmailService.ts:34-47 | the search-by-metadata request has its intro, the subject line cut to 120 characters, the sender line only for a non-empty sender cut to 120, the date line only for a non-empty date cut to 32, and the three closing lines |
| OpenEmail.OpenEmailBodyFromCache | services/openEmailService.ts:68-127 | without a token nothing is asked; otherwise the mail is asked for by id (by subject, sender and date for a pseudo id), with one metadata retry when the answer is shorter than ten characters; the post is the header followed by the body sanitized as written and cut at 4000 characters, or by the failure notice |
| OpenEmail.TokenDecidesFirstRequest | services/openEmailService.ts:76-92 | without a token nothing is asked and the authentication notice is shown; with one, one or two requests are sent and the first is the chosen one |
| OpenEmail.PseudoIdSearchesOnce | services/openEmailService.ts:88-104 | for a pseudo id only the metadata search is sent, once, and its answer is the body |
| OpenEmail.ShortAnswerIsRetried | services/openEmailService.ts:88-118 | a real id is asked for by id first; the metadata retry happens exactly when that answer is shorter than ten characters, and it is the second request |
| OpenEmail.FirstFailureShowsNotice | services/openEmailService.ts:123-126 | a failing first request shows the fetch failure notice |
| OpenEmail.BodyIsLastAnswer | services/openEmailService.ts:102-118 | the body is the answer to the last request, or the first answer when the retry failed |
| OpenEmail.PostedStartsWithHeader | services/openEmailService.ts:74-125 | every post starts with the `#index subject — from(date)` header |
| OpenEmail.LoneTagRemoved | services/openEmailService.ts:10 | a lone tag `<name>` is removed entirely |
| OpenEmail.StripTagsLeavesNoTag | services/openEmailService.ts:10 | after tag removal no `<`…`>` pair with something between is left |
| OpenEmail.TagFreeUntouched | services/openEmailService.ts:10 | a text without tags is not changed by tag removal |
| OpenEmail.EscapeHasNoLt | services/openEmailService.ts:10-12 | escaped text has no `<` |
| OpenEmail.EscapedIsTagFree | services/openEmailService.ts:10 | escaped text has no tags and loses nothing to tag removal |
| OpenEmail.SanitizeEscaped | services/openEmailService.ts:7-14 | the corrected sanitizer gives back any text from its HTML escaping |
| OpenEmail.SanitizeAsWrittenDecodesTwice | services/openEmailService.ts:7-14 | the sanitizer as written turns the escaping of the literal text `&quot;` into `"`, where the corrected one gives back `&quot;` |
| OpenEmail.StripTagsIdempotent | services/openEmailService.ts:10 | removing tags twice removes no more than once |
| OpenEmail.TrailingParenthesisDropped | services/openEmailService.ts:72 | a sender `name(inner)` is shown as the trimmed name |
| MailDryRun.PreviewBody | services/mailDryRunService.ts:4-8 | a body within the limit is shown whole; a longer one is cut to the limit and followed by the omission note; the preview always starts with the body's first `limit` characters |
| MailDryRun.PreviewBounded | services/mailDryRunService.ts:4-8 | the preview is at most the limit plus the note long, keeps the body's head, and previewing it again with the note's room changes nothing |
| MailDryRun.SafeField | services/mailDryRunService.ts:10-13 | a missing or blank field shows `_(未設定)_`; any other shows its trimmed, non-empty value |
| MailDryRun.SafeFieldStable | services/mailDryRunService.ts:10-13 | passing a shown value through again shows the same thing |
| MailDryRun.ShownIsTrimmed | services/mailDryRunService.ts:10-13 | what is shown is never empty and has no surrounding blanks |
| MailDryRun.ShownValueTrimmed | services/mailDryRunService.ts:11-12 | a field with a non-blank character shows its trimmed value |
| MailDryRun.SafeFieldOfTrimmed | services/mailDryRunService.ts:10-13 | a non-empty trimmed value is shown as it is |
| MailDryRun.Utf8Width | services/mailDryRunService.ts:86 | each character takes one to four UTF-8 bytes |
| MailDryRun.Utf8Length | services/mailDryRunService.ts:86 | a text takes between one and four bytes per character |
| MailDryRun.AsciiUtf8Length | services/mailDryRunService.ts:86 | an ASCII text takes one byte per character |
| MailDryRun.Utf8LengthAppend | services/mailDryRunService.ts:86 | the byte length of two texts joined is the sum of their byte lengths |
| MailDryRun.Card | services/mailDryRunService.ts:28-59 | both buttons carry the draft's id and the body preview uses the 500-character limit |
| MailDryRun.PromptMailDryRun | services/mailDryRunService.ts:15-81 | the draft is stored for that user under the fresh id and nothing else changes; the id is returned and both buttons lead back to the stored draft |
| MailDryRun.LogDryRun | services/mailDryRunService.ts:83-89 | the logged recipient and subject are the draft's (empty when missing), and the byte count is at least the body's length |
| SafetyService.BodyPreview | services/safetyService.ts:12-13 | a body of at most 60 characters is shown whole; a longer one is cut to 60 characters and followed by `…` |
| SafetyService.SummaryTo | services/safetyService.ts:14 | the summary's recipient is the first address found in the draft's `to`, or the `to` itself when none is found, and missing when `to` is |
| SafetyService.OrPlaceholder | services/safetyService.ts:54-56 | a missing or empty summary field shows its placeholder; any other is shown as it is |
| SafetyService.PromptUserConfirmation | services/safetyService.ts:22-94 | the trace id is a fresh `exec_` id; the ledger gains that pending execution of the requested kind with the summary's recipient, the subject, the whole body, the thread id and the draft id; the prompt is posted exactly when the id was new |
| SafetyService.PreviewIsBodyHead | services/safetyService.ts:13 | the preview starts with the body's first 60 characters and is at most 61 long |
| SafetyService.SummaryToComesFromDraft | services/safetyService.ts:14 | the summary has a recipient exactly when the draft has one, and it is part of the draft's `to` |
| SafetyService.LabelsTellTypesApart | services/safetyService.ts:31-37 | different action types have different action texts and confirm labels |
| SafetyService.PromptedExecutionIsPending | services/safetyService.ts:29-44 | after the prompt the execution is stored as pending under an `exec_` id, with no reason and no expiry, holding the draft's fields |
| SafetyService.CancelButtonCancels | services/safetyService.ts:69-75 | pressing the prompt's cancel button cancels the pending execution with the reason ユーザー操作 |
| SafetyService.ConfirmButtonRuns | services/safetyService.ts:62-68 | pressing the prompt's confirm button runs the draft creation for a `gmail_draft` execution and only prepares any other kind |
| Ids.Slice | utils/ids.ts:2 | `slice(start, end)` is empty when `end <= start`, never longer than the range, and otherwise the part of the text between the clamped bounds |
| Ids.RandomPart | utils/ids.ts:2 | the random part keeps at most the eight characters after `0.` |
| Ids.LastSegment | utils/ids.ts:8 | the last `_`-separated segment has no `_`, ends the text, and is the whole text or follows a `_` |
| Ids.PlannedMessageIdFromTrace | utils/ids.ts:7-10 | the planned id is `msg_` followed by the last `_` segment, or by the last six characters when that segment is empty |
| Ids.TraceIdShape | utils/ids.ts:1-5 | a trace id is the prefix (`trace` by default), `_`, the time in base 36, `_`, and ends with the random part |
| Ids.PlannedIdOfGeneratedTrace | utils/ids.ts:1-10 | the planned id of a generated trace id is `msg_` followed by its random part, when that part is non-empty and has no `_` |
| TextUtils.Run | utils/text.ts:3 | a run of one character class stays inside the text |
| TextUtils.RunFacts | utils/text.ts:3 | a run is as long as the class allows: every character in it belongs to the class and the next one does not |
| TextUtils.TldDot | utils/text.ts:3 | the dot before the top-level domain is found inside the domain run |
| TextUtils.LocalLength | utils/text.ts:3 | a local part is the whole non-empty run of `[A-Z0-9._%+-]` and is followed by `@` |
| TextUtils.DomainLength | utils/text.ts:3 | a domain found after `@` is non-empty and followed by the dot before the top-level domain |
| TextUtils.MatchAtSound | utils/text.ts:3 | a match at a position is a well-formed address (local part, domain, at least two letters of top-level domain) that appears there in the text |
| TextUtils.FirstMatch | utils/text.ts:3 | the first match found lies at or after the start position and is a match there |
| TextUtils.FirstMatchIsLeftmost | utils/text.ts:3 | no match starts earlier than the one found |
| TextUtils.ExtractFirstEmail | utils/text.ts:1-5 | a missing or empty input gives no address |
| TextUtils.ExtractIsSubstring | utils/text.ts:1-5 | an extracted address is part of the input and a well-formed address |
| TextUtils.CleanEmailLike | utils/text.ts:7-12 | a missing or empty input gives nothing; otherwise the first address found, or the input itself when there is none |
| TextUtils.ExtractWholeAddress | utils/text.ts:1-12 | a well-formed address on its own is extracted and cleaned to itself |
| TextUtils.MatchWholeAddress | utils/text.ts:3 | the pattern matches a well-formed address from its first character, with the same parts |
| TextUtils.ExtractIsLeftmost | utils/text.ts:1-5 | whenever a match exists, an address is extracted and it is the leftmost match |
| JsNumber.Number | handlers/slackMessageHandler.ts:369 | `Number` of an empty or blank text is 0 |
| JsNumber.NumberIgnoresTrim | handlers/slackMessageHandler.ts:369 | surrounding blanks never change what `Number` gives |
| JsNumber.NumberOfDigits | handlers/numberedReplyHandler.ts:38 | a text of decimal digits converts to its decimal value |
| JsNumber.NumberOfNegDigits | services/autoDraftService.ts:320 | `-` followed by decimal digits converts to the negated value |
| JsNumber.NumberOfNatText | handlers/slackMessageHandler.ts:369 | converting the decimal text of a natural number gives that number back |
| Strings.Trim | handlers/slackMessageHandler.ts:52 | trimming never lengthens a text, leaves no blank at either end, and gives the empty text exactly when the input is all blanks |
| Strings.TrimIdempotent | handlers/slackMessageHandler.ts:52 | trimming twice gives the same text as trimming once |
| Strings.TrimIsSlice | handlers/slackMessageHandler.ts:52 | the trimmed text is a contiguous part of the input |
| Strings.Lower | handlers/slackMessageHandler.ts:52 | lower-casing keeps the length and maps each character on its own |
| Strings.LowerIdempotent | handlers/slackMessageHandler.ts:52 | lower-casing twice gives the same text as once |
| Strings.Split | utils/ids.ts:8 | splitting gives at least one part, no part holds the separator, and joining the parts with it gives the input back |
| Strings.SplitJoin | utils/ids.ts:8 | splitting the join of separator-free parts gives the parts back |
| Strings.NatToStringRoundTrip | utils/ids.ts:3 | the decimal text of a number reads back as that number |
| Strings.NatToStringInjective | utils/ids.ts:3 | different numbers have different decimal texts |
| Strings.NatToBase36 | utils/ids.ts:3 | `toString(36)` gives a non-empty text of digits and lower-case letters |
| Drafts.WithoutDraft | slack-bot.ts:196 | deleting a draft removes that one id for that user and keeps every other user and every other draft |
| Drafts.DraftStore.constructor | handlers/slackMessageHandler.ts:19-21 | the store starts empty |
| Drafts.DraftStore.GetDrafts | handlers/slackMessageHandler.ts:619-621 | a user has drafts exactly when some were stored for that user, and they are the stored ones |
| Drafts.DraftStore.SaveDraft | handlers/slackMessageHandler.ts:596 | the draft is stored under its id for that user, replacing any draft with that id, and nothing else changes |
| Drafts.DraftStore.DeleteDraft | slack-bot.ts:196 | the store afterwards is the old one without that draft |

## Left out

- SafetyActions.ConfirmDigest: characters are Unicode scalar values, but JavaScript's `length` and `slice` count UTF-16 code units. So `body_head` is the first 50 characters of the body, where slack-bot.ts:278 takes the first 50 code units: a body of 30 emoji gives 25 emoji in the source and 30 in the model. Text within the Basic Multilingual Plane (Japanese included) is cut the same way.
- SafetyActions.DigestIgnoresBodyTail: the same; "the first 50 characters" counts scalar values, not UTF-16 code units.
- EmailDetection.BraceSpan: the 20000 bound on `last - first` is measured in scalar values, while `indexOf` and `lastIndexOf` (services/emailDetectionService.ts:171-173) give UTF-16 positions. A span with characters outside the Basic Multilingual Plane can pass the model's bound and fail the source's.
- EmailDetection.BraceSpanOf: the same; "short enough" counts scalar values.
- IntentRouter.Sanitize: `slice(0, 500)` (services/intentRouter.ts:133) keeps 500 code units; the model keeps 500 scalar values.
- OpenEmail.TruncateBody: the 4000 limit (services/openEmailService.ts:16-21) counts scalar values where the source counts code units.
- OpenEmail.TruncateKeepsHead: the same; the kept head is 4000 scalar values long.
- OpenEmail.MetaLines: the 120- and 32-character cuts (services/openEmailService.ts:35-37) count scalar values.
- OpenEmail.Retries: `bodyRaw.length < 10` (services/openEmailService.ts:104) counts code units, the model counts scalar values. An answer of 6 emoji (12 code units) is retried by the model and not by the source.
- OpenEmail.OpenEmailBodyFromCache: the same retry test and the same 4000 cut, in scalar values.
- OpenEmail.ShortAnswerIsRetried: "shorter than ten characters" counts scalar values.
- MailDryRun.PreviewBody: the preview limit (services/mailDryRunService.ts:6-7) counts scalar values where the source counts code units.
- MailDryRun.PreviewBounded: the same.
- MailDryRun.Card: the body preview in the card is cut in scalar values.
- SafetyService.BodyPreview: the 60-character cut (services/safetyService.ts:13) counts scalar values.
- SafetyService.PreviewIsBodyHead: the same.
- Ids.Slice: positions are scalar values, not UTF-16 code units. A trace id with an ASCII prefix is ASCII throughout, so `Ids.PlannedMessageIdFromTrace` agrees with the source on it.
- DateText.Normalize: `slice(0, 16)` after the ISO test counts scalar values; text with an astral character in its first 16 positions is cut differently.
- SafetyActions.ExpiresAt: `EXECUTION_TTL_MINUTES` is read with `Number()` (slack-bot.ts:44), and the model takes the result to be an integer. A fractional setting such as `0.5` (a 30 000 ms expiry) and a non-numeric one (a NaN expiry) are not modelled.
- SafetyActions.ConfirmFlow: takes the same integer TTL, as do `SafetyActions.SafetyConfirm` and `SafetyService.ConfirmButtonRuns`.
- ExpiryWatcher.WatcherPeriodMs: `EXPIRY_SWEEP_SECONDS` (slack-bot.ts:45) is taken to be an integer. Fractional and NaN settings are not modelled.
- ExpiryWatcher.SweeperDelayMs: `CACHE_SWEEP_SECONDS` and `CACHE_SWEEP_JITTER_SECONDS` (slack-bot.ts:125, 127) are taken to be integers, as in `ExpiryWatcher.JitterInRange` and `ExpiryWatcher.SweeperDelayBounds`.
- ListCache.SweepThreshold: `CACHE_SWEEP_GRACE_SECONDS` (slack-bot.ts:126) is taken to be an integer.
- ListCache.DeleteLimit: `MAX_DELETE_PER_SWEEP` (slack-bot.ts:128) is taken to be an integer. In the source, the value `abc` makes `Math.max(1, NaN)` NaN; in the model the limit is always at least 1.
- Auth.AuthServer.constructor: `OAUTH_STATE_TTL_SEC` and `OAUTH_SETTINGS_TTL_SEC` (auth.ts:24, 28) are taken to be integers. A NaN TTL is not modelled. In the source it makes every state fail the `!exp` test (auth.ts:710), and makes every settings token never expire, since `NaN < Date.now()` is false (auth.ts:39).
- EmailDetection.SaveThreshold: `GMAIL_LIST_TTL_MIN` (services/emailDetectionService.ts:45) is taken to be an integer.
- ListEmails.Phase2Reply: `GMAIL_LIST_LIMIT` (services/listEmailsService.ts:171) is taken to be a natural number when set.
- Strings.Lower: it lower-cases ASCII `A`–`Z` only, where JavaScript's `toLowerCase` maps all of Unicode. So full-width or accented letters in a phrase, an address or a flag value do not match their lower-case forms in the model. This affects `ComposeDetection.ContainsAny`, `ComposeConfig.NormalizeTarget`, `Recipients.NormalizeEmail`, `SlackMessageHandler.IsTruthyEnv` and `IntentRouter.LocalRoute`. The model has no Unicode case tables.
- ComposeDetection.Total: rule weights and scores are exact reals, so IEEE-754 rounding is not modelled. In JavaScript, weights 0.1 and 0.7 sum to 0.7999999999999999, which misses a threshold of 0.8 that the model's exact sum reaches.
- JsNumber.Number: gives an exact real. It does not model rounding to double precision, overflow to `Infinity` for huge literals such as `1e400`, or `-0`.
- DryRunThrottle.DryRunCounters.MailDryRunOk: button presses are handled one at a time. In the source, the limit test (slack-bot.ts:395) and `dryRunCount += 1` (slack-bot.ts:422) are separated by the awaited `getSlackUserEmail` (slack-bot.ts:409). Two concurrent presses can therefore both pass the test and push the count past the limit. Interleaved handlers are not modelled.
- DryRunThrottle.DryRunOkKeepsLimit: the same one-press-at-a-time assumption as MailDryRunOk.
- ExpiryWatcher.ExpiryWatcherTick: the tick runs without interleaving. In the source, each `await` between two ledger updates lets a button handler change a row in the meantime. Such interleavings are not modelled.
- SafetyActions.SafetyConfirm: one clock value `nowMs` serves both the expiry (slack-bot.ts:280) and every ledger write. The source reads `Date.now()` afresh for each of them.
- SafetyActions.ExecuteGmailDraftAction: the same single clock value for the `executed` or `canceled` update.
- EmailDetection.JsonEntry: an entry of the fallback JSON keeps only its string-valued fields. A numeric `id` or other non-string field, which the source would turn into text, is lost.
- NumberedReply.FindByIndex: item indices are integers. The source's `Number(i.index) === targetIndex` would also match an index stored as the text `"3"`, which the model's cache items cannot hold.
- Drafts.DraftStore: models/draftStore.ts is not part of this model. The store is taken to be a per-user map of drafts keyed by draft id, with `saveDraft`, `getDrafts` and `deleteDraft` as map updates and lookups.
- ListCache.EmailListCache.DeleteExpiredEmailList: requires an opened store. In the source, the statement fails on a missing handle, and `SweepExpiredEmailListCache` models that failure as `StoreUnavailable`.
- AutoDraftPrompt.LineOut: the greeting instruction is put in place of `{{GREETING_INSTRUCTION}}` literally (services/autoDraftService.ts:241). JavaScript's string `replace` would read `$&`, `$'` or `` $` `` inside it as replacement patterns. So a sender name holding such a sequence prints differently in the source; `$` patterns are not modelled.
- `SlackMessageHandler.DidUseTool`: an output entry whose `type` is not a string is not modelled. Entries carry a string type, empty when missing.
- `SlackDraftCommands.HandleDraftAction`: the in-place `sort` by descending `createdAt` is modelled by the entry it puts first. That is the first entry with the largest `createdAt`, since the sort is stable. The rest of the sorted order is never read.
- `NumberedReply` and the phase-3 reply command read the item number with `parseInt` as an unbounded natural number. Precision loss above 2^53 is not modelled.
- The regular expressions of utils/regexPatterns and the draft field patterns are not part of this model. Their matches and capture groups are parameters.
- The action logs (`logAction`, console logging) and `detectViolation`, which only logs, are not modelled. They change no state that the core reads.
- The auto-draft worker leaves out several steps:
  - `markMessageProcessed` and `ensureProcessedLabelId` (Gmail label calls);
  - `getGmailPrimarySignatureText`, whose result is a parameter;
  - `getEnabledUsers` and the per-user token fetch, which are parameters of one run;
  - the sleep of `perUserSleepMs` between users.
  The clock is read once per run.
- The mutual exclusion around the Google token fetch (`async-mutex`) is not modelled, because the provider is modelled one call at a time.
- Chat I/O is not modelled: `say`, `postMessage`, `postEphemeral` and the block payloads. The model returns the texts or outcomes that would be posted.
- The language model, HTTP, Gmail, Pipedream, Google OAuth, SHA-1, `crypto.randomBytes`, `Math.random`, the clock, timers and charset decoding (iconv, base64) are not modelled. Each is a parameter.
- `discoverGmailActions` is the parameter `discovered`.
- The SQL schema, migrations, the Postgres pool and the file-backed stores are not modelled. The tables are maps.
- The HTML pages of the OAuth server are not modelled, except the toggle value the settings page offers.
- The conversation store (`getHistory`, `setHistory`, `appendToHistory`) is not part of this model. It is taken to be a per-user map of entries in `SlackMessageHandler.ConversationHistory`.

## Findings

| source | as written | input that shows it | evidently intended | confidence | as-written member | corrected member |
|---|---|---|---|---|---|---|
| services/openEmailService.ts:7-14 | the five entity replacements run one after another, so the `&` produced by `&amp;` is decoded again by the later `&quot;` and `&#39;` passes | the body `&amp;quot;` (the escaped text `&quot;`) is shown as `"` | each entity decoded once, so that escaped text comes back as written (`&quot;`) | not executed | OpenEmail.SanitizeAsWrittenDecodesTwice | OpenEmail.SanitizeEscaped |
| services/listEmailsService.ts:108-110 | `昨日` is tested before `一昨日`, and `一昨日` contains `昨日` | the request `一昨日` (the day before yesterday) searches yesterday's mail | `一昨日` gives an offset of -2 days | not executed | ListEmails.DayBeforeYesterdayAsWritten | ListEmails.DayBeforeYesterday |
| services/autoDraftService.ts:72 | `/[様御中殿]$/` is a character class, so any name ending in `中` (or `御`) counts as already carrying an honorific | the sender `田中` is greeted as `田中` with no honorific | only the honorifics 様, 御中 and 殿 are recognised, so `田中` becomes `田中様` | not executed | Greeting.TanakaAsWritten | Greeting.TanakaGetsSama |

The handlers follow the source as written:
- the opened mail's body (`OpenEmail.OpenEmailBodyFromCache`, `OpenEmail.Shown`) uses `OpenEmail.SanitizeHtmlAsWritten`;
- the listing handler (`ListEmails.Phase2Reply`, `ListEmails.RunPhase2List`) reads the request with `ListEmails.ParseParamsAsWritten`;
- the auto-draft worker (`AutoDraftRun.ThreadGreeting`, and so `PlanThread`, `DraftThread(s)` and `RunAutoDraftForToken`) greets with `Greeting.RecipientGreetingAsWritten`.

The corrected definitions `OpenEmail.SanitizeHtml`, `ListEmails.ParseParamsFromText` (with `ListEmails.RelativeOffset`) and `Greeting.BuildRecipientGreeting` stand beside them, and carry the intended properties.
