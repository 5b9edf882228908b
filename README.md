# TM Auto Clicker, modelled in Dafny

`TM_Auto_Clicker.user.js` is a userscript that clicks one button on three kinds of page:

- the "参加する" (join) link of a gift-campaign page on `gcp.giftee.biz`;
- that page's "結果をみる" (see the result) link;
- the authorise button of X's OAuth2 page (`x.com/i/oauth2/authorize?client_id=…`).

This project models the script's decision core and proves properties of it. The core has four parts.

- **Element evaluation and selection.** `getElementIssues` turns an element's attributes into an ordered list of issue tags. `findBestCandidate` picks the first element without issues. Each phase's finder builds on these:
  - the join link: the first join anchor that passes;
  - the result link: a cascade of text and href matches, then a stable sort by relevance;
  - the X button: a list of text matchers, tried in priority order.
- **The click fallback chain.** `clickWithFallback` tries `el.click()`, then a synthetic `click` event, then the pointer sequence. It stops at the first strategy that does not throw.
- **The schedulers.**
  - One-shot: `scheduleAutoClickFixed` and the result phase's `scheduleFixed`. Each is guarded by a session-storage key.
  - Repeatable: `scheduleGcpJoinWithCooldown`. It keeps a per-page record `{lastClickTs, clickCount}`, a 7000 ms cooldown (10000 ms while the page shows a wait advisory), a budget of five clicks and a map of retry timers.
- **Observers, routing and the manual run.** `startObserver` waits for the target, with a 60 s timeout. `main` chooses the phases from the location. `tmAutoClickRun` refuses an unforced run while the last guard is set. A forced run bypasses the guard when `DEBUG` is on and is refused when it is off.

Files:

- The pure parts are functions with contracts and lemmas `Text.dfy`, `Page.dfy`, `Elements.dfy`, `Selection.dfy`, `Click.dfy`, `Store.dfy`.
- `Machine.dfy` states each event as a function on a `State`. An event is one of:
  - a schedule call;
  - a timer firing at time `now`;
  - a mutation batch delivered to an observer;
  - a call of `main` or of the manual run.
- `Invariants.dfy` defines what every reachable state satisfies and proves that every event keeps it.
- `Properties.dfy` proves what the script promises event by event, and over runs.
- `Scheduler.dfy` is the class `AutoClicker`. It holds the script's mutable state as fields (`seq`, `map` and `set` values that its methods reassign). Each of its methods performs one event step by step, as the script does. Its contract states that the new state is the machine's function of the old one and that the invariant holds.

The page is an input:

- the anchors, the button-like elements and the body text;
- for every element, its attribute record: computed display, visibility and opacity, a zero-width and a zero-height flag, `disabled`, `aria-disabled`, `innerText`, `textContent`, `href`.

Whether a click dispatch throws is given per dispatch (`Click.Platform`). The current time is the `now` parameter of every event. The session store is a map from key to `Stored`, one of:

- `Stamp(ms)`: the decimal time stamp a guard write stores;
- `Record(meta)`: a join record;
- `Malformed(raw)`: text that is empty or that `JSON.parse` rejects.

Timers are an explicit queue of pending events. Any pending timer whose due time has come may fire, in any order. What the model proves therefore holds for the browser's own order. The observers are a sequence of records with an `active` flag.

The one-shot schedulers write their guard just before the click, with `Date.now().toString()` as the value (a decimal time stamp). The result phase's callback carries the comment "set guard before clicking to avoid races" (`TM_Auto_Clicker.user.js:516-517`). The guard keeps out only schedulings made after the write. The delayed callbacks never read the guard again (`TM_Auto_Clicker.user.js:298-313`, `TM_Auto_Clicker.user.js:508-524`). So two schedulings made before either callback fires both click. `Properties.DoubleClick` shows it with `main` followed by a manual run on the X page.

## Model

| member | source | states |
|---|---|---|
| Text.NormalizeCanonical | TM_Auto_Clicker.user.js:106-108 | `normalizeText` yields text with no leading or trailing whitespace and no whitespace other than single spaces between words |
| Text.NormalizeIdempotent | TM_Auto_Clicker.user.js:106-108 | normalizing twice is normalizing once |
| Text.NormalizeKeepsVisible | TM_Auto_Clicker.user.js:106-108 | normalizing changes only whitespace: the non-space characters and their order are kept |
| Text.NormalizeKeepsWord | TM_Auto_Clicker.user.js:106-108 | a word without whitespace anywhere in the text is still contained after normalization |
| Text.TruncateText | TM_Auto_Clicker.user.js:99-104 | the normalized text when it fits in `max`; otherwise its first `max` characters followed by three more; never longer than `max + 3` |
| Text.ContainsLower | TM_Auto_Clicker.user.js:471-474 | lower-casing keeps a contained substring contained |
| Page.GuardKey | TM_Auto_Clicker.user.js:95-97 | the key starts with the prefix and the rest is pathname then search |
| Page.GuardKeyIdentifiesPage | TM_Auto_Clicker.user.js:95-97 | for one prefix, two well-formed locations give the same key exactly when pathname and search agree |
| Page.JoinAndGuardKeysDisjoint | TM_Auto_Clicker.user.js:27-41 | no key is both a join record key and a one-shot guard key |
| Page.OneShotGuardsDisjoint | TM_Auto_Clicker.user.js:27-41 | the three one-shot guard prefixes never produce the same key |
| Page.Route | TM_Auto_Clicker.user.js:711-737 | the join and result phases run exactly on the GCP host, in that order; the X phase runs exactly on `x.com` with the authorise path and a `client_id` parameter |
| Page.WaitMessageDetected | TM_Auto_Clicker.user.js:111-120 | either wait advisory anywhere in the body text is detected, whatever whitespace surrounds it |
| Elements.GetElementIssues | TM_Auto_Clicker.user.js:123-166 | the list the checks push, one tag per failed check |
| Elements.IssuesOfAbsent | TM_Auto_Clicker.user.js:125-128 | an absent element gives exactly `['no_element']`, and a present one never gives that tag |
| Elements.IssuesInCheckOrder | TM_Auto_Clicker.user.js:130-163 | tags come in the order the checks run; only `not_visible` repeats, twice exactly when both the style check and the size check fail |
| Elements.IssuesMembership | TM_Auto_Clicker.user.js:130-163 | each tag appears exactly when its own check fails: hidden by style or zero size; `disabled`; `aria-disabled` equal to `"true"`; a non-empty matcher list none of which the normalized text contains; a required href substring that the `href` lacks or a missing `href` |
| Elements.IssuesEmptyIffActionable | TM_Auto_Clicker.user.js:123-166 | the issue list is empty exactly when the element is shown, enabled and meets the text and href requirements |
| Elements.SingleMatcherVersusList | TM_Auto_Clicker.user.js:150-156 | with a non-empty matcher list, an element passes under the list exactly when it passes under one of its matchers alone |
| Selection.FindBestCandidate | TM_Auto_Clicker.user.js:168-181 | the loop returns the first candidate whose issue list is empty, or none |
| Selection.FindJoinTarget | TM_Auto_Clicker.user.js:552-578 | the join finder: `findBestCandidate` over the anchors whose `href` contains the join path |
| Selection.JoinTargetSpec | TM_Auto_Clicker.user.js:552-578 | the join target is an anchor that passes the join requirements; there is none exactly when no anchor passes |
| Selection.FindXOAuthTarget | TM_Auto_Clicker.user.js:616-644 | the matcher loop with its `break` computes the XOAuth finder |
| Selection.XTargetChoice | TM_Auto_Clicker.user.js:622-630 | a found X button is the first candidate passing under the earliest matcher that has any hit |
| Selection.XTargetNoneIff | TM_Auto_Clicker.user.js:622-630 | the X finder finds nothing exactly when no candidate passes under the whole matcher list; what it finds is a candidate that passes under that list |
| Selection.XTargetFindsHit | TM_Auto_Clicker.user.js:622-630 | if any candidate passes under any matcher, something is found |
| Selection.FindResultTarget | TM_Auto_Clicker.user.js:444-493 | the cascade, the sort and the loop compute the result finder |
| Selection.FirstPassingOwn | TM_Auto_Clicker.user.js:478-489 | the loop over the sorted candidates returns the first one that passes under its own options |
| Selection.CascadeSubsetMembers | TM_Auto_Clicker.user.js:453-455 | every member of the chosen subset is an anchor that matches the text or the href |
| Selection.RelevanceOrderPermutes | TM_Auto_Clicker.user.js:470-476 | the sort is a permutation of the candidates |
| Selection.RelevanceOrderSorted | TM_Auto_Clicker.user.js:470-476 | after the sort every relevant candidate precedes every irrelevant one, and each group keeps its original order (stability) |
| Selection.RelevanceOrderMembers | TM_Auto_Clicker.user.js:470-476 | the sort neither adds nor drops candidates |
| Selection.HrefMatchIsRelevant | TM_Auto_Clicker.user.js:450-474 | an anchor matching the result href always scores as relevant |
| Selection.OwnRequirementsCheckOnlyState | TM_Auto_Clicker.user.js:478-489 | under its own options a candidate is rejected only for being hidden, zero-size, disabled or `aria-disabled="true"` |
| Selection.ResultTargetSpec | TM_Auto_Clicker.user.js:444-493 | a result target is a member of the chosen subset that passes under its own options; there is none exactly when no member passes |
| Selection.ResultTargetPrecedence | TM_Auto_Clicker.user.js:453-455 | when some anchor matches text and href, the target matches both; when some anchor matches the href, the target matches the href |
| Selection.ResultTargetPrefersRelevant | TM_Auto_Clicker.user.js:470-489 | an irrelevant target is chosen only when no relevant candidate passes |
| Click.RunBlock | TM_Auto_Clicker.user.js:214-245 | a `try` block completes exactly when all its dispatches complete; its calls are a prefix of its dispatches, and a failing block stops at the dispatch that threw |
| Click.ClickWithFallback | TM_Auto_Clicker.user.js:214-245 | false with no calls for an absent element; otherwise true exactly when some strategy completes |
| Click.FallbackOrder | TM_Auto_Clicker.user.js:214-245 | the first strategy that completes ends the chain and no later one is called; the result is false exactly when all three fail |
| Click.PointerSequenceCalls | TM_Auto_Clicker.user.js:230-241 | the pointer sequence stops at the first of its three dispatches that throws |
| Store.LoadMetaDefaults | TM_Auto_Clicker.user.js:320-327 | a missing, empty or unparseable record reads as `{lastClickTs: 0, clickCount: 0}` |
| Store.SaveLoadRoundTrip | TM_Auto_Clicker.user.js:320-335 | what `saveMeta` writes `loadMeta` reads back; no other key's record changes |
| Store.SaveMeta | TM_Auto_Clicker.user.js:329-335 | the record's key becomes present and truthy, and every other key keeps its value |
| Store.EffectiveCooldownValues | TM_Auto_Clicker.user.js:344-346 | the cooldown is 10000 ms while a wait advisory is shown and 7000 ms otherwise, never below 7000 |
| Store.ManualRunVerdict | TM_Auto_Clicker.user.js:687-700 | refused unless forced while the last guard is set; a forced run is refused when debugging is off; otherwise `main` runs (each outcome stated as an if-and-only-if) |
| Store.ManualRunAsConfigured | TM_Auto_Clicker.user.js:687-700 | with debugging on, as shipped, a forced run always proceeds and an unforced one proceeds exactly when no guard is set |
| Invariants.StartValid | TM_Auto_Clicker.user.js:58-69 | the start state satisfies the invariant, whatever the session holds |
| Invariants.ScheduleAutoClickFixedValid | TM_Auto_Clicker.user.js:282-314 | scheduling keeps the attempt counter at most 3 and keeps the rest of the invariant |
| Invariants.ScheduleResultValid | TM_Auto_Clicker.user.js:495-525 | the result scheduler keeps the invariant |
| Invariants.FireGuardedClickValid | TM_Auto_Clicker.user.js:298-313 | the one-shot click keeps the invariant: the click comes right after the guard write, and no join record moves |
| Invariants.ScheduleJoinValid | TM_Auto_Clicker.user.js:317-368 | the join scheduler keeps one retry timer per key, exactly for the keys in the retry map |
| Invariants.FireJoinRetryValid | TM_Auto_Clicker.user.js:355-359 | the retry timer keeps the invariant |
| Invariants.FireJoinClickValid | TM_Auto_Clicker.user.js:370-406 | the join click keeps the invariant: consecutive saves of a key are at least 7000 ms apart, one click apart, and within the budget of 5 |
| Invariants.StartWatcherValid | TM_Auto_Clicker.user.js:409-433 | a new observer comes with exactly one pending timeout |
| Invariants.MutationValid | TM_Auto_Clicker.user.js:411-419 | a mutation batch keeps the invariant; `onFound` ran at most once per observer, and only for a disconnected one |
| Invariants.FireWatchTimeoutValid | TM_Auto_Clicker.user.js:426-432 | the timeout keeps the invariant |
| Invariants.RunPhasesValid | TM_Auto_Clicker.user.js:438-670 | running phases in order keeps the invariant |
| Invariants.MainValid | TM_Auto_Clicker.user.js:711-750 | `main` keeps the invariant |
| Invariants.ManualRunValid | TM_Auto_Clicker.user.js:687-700 | the manual run keeps the invariant |
| Properties.OneShotScheduling | TM_Auto_Clicker.user.js:282-314 | at the ceiling nothing changes; otherwise the attempt is counted and the phase and guard key are recorded before the guard is read; a timer at `now + delay` is added exactly when the counter had room and the guard was absent; nothing is written or clicked |
| Properties.ResultScheduling | TM_Auto_Clicker.user.js:495-525 | no counter and no phase change; a timer at `now + 1000` exactly when the guard is absent and the target is present; nothing is written or clicked |
| Properties.GuardedClickFiring | TM_Auto_Clicker.user.js:298-313 | the timer is consumed; with no target nothing is written; with one, the guard is written with the time stamp, then the click is made, then the phase is `done` whatever the click returned; the guard is not read again |
| Properties.JoinScheduling | TM_Auto_Clicker.user.js:317-368 | over the budget nothing changes; in cooldown with no retry pending, one retry is added at `lastClickTs + cooldown + 50`; out of cooldown with the target present, a click is added at `now + 1000`; never a write or a click |
| Properties.RetryDelay | TM_Auto_Clicker.user.js:343-360 | the retry fires `remain + 50` ms later: 10050 ms after the last click with a wait advisory, 7050 ms without, and always in the future |
| Properties.JoinRecheckEffect | TM_Auto_Clicker.user.js:371-404 | with the target present, budget left, 7000 ms since the last click and a record that is not a number, the record with `now` and one more click is saved before the click, then the phase is `done` and the key leaves the retry map; otherwise nothing is written or clicked |
| Properties.JoinClickFiring | TM_Auto_Clicker.user.js:370-406 | the fired join timer leaves the queue. When the join target is on the page now, the count is below 5 and 7000 ms have passed since the last click, the page's retry timer is cancelled and removed from the map; otherwise the retries stay. When in addition the stored value is not a number, the record `{now, count + 1}` replaces it, the write and then the click with its own result are appended, and the phase is `done`. In every other case the store and the effects are unchanged and the phase stays `recheck` |
| Properties.JoinClickClearsRetry | TM_Auto_Clicker.user.js:390-394 | after a committed join click no retry timer is pending for the key |
| Properties.HistoryGrowth | TM_Auto_Clicker.user.js:396-398 | along a history of saves the count grows by one per save and the time stamp by at least 7000 ms per save |
| Properties.ClickBudget | TM_Auto_Clicker.user.js:338-398 | in every reachable state the clicks of a join page are one per save of its record. There are none before the first save. There are at most `5 - c`, where `c` is the count the record held before the first click, so at most 5 when `c` is not negative. The store holds the last save, whose count is `c` plus the clicks, and the last click is at least 7000 ms per click after the first record's time |
| Properties.MutationHandling | TM_Auto_Clicker.user.js:411-419 | a disconnected observer, or one whose target is absent, leaves the state unchanged. A connected one that finds its target disconnects and is recorded as found; the result is that phase's `onFound` applied to the disconnected state, which keeps the observers, the store and the effects |
| Properties.TimeoutHandling | TM_Auto_Clicker.user.js:426-432 | the timeout disconnects the observer and does nothing else; after a find it only discards the timer |
| Properties.ConnectedObserverTimesOut | TM_Auto_Clicker.user.js:426-432 | a connected observer always has its timeout pending |
| Properties.RunPhaseWritesNothing | TM_Auto_Clicker.user.js:438-670 | looking and scheduling neither write nor click |
| Properties.MainWritesNothing | TM_Auto_Clicker.user.js:711-750 | `main` neither writes nor clicks |
| Properties.MainOnXOAuth | TM_Auto_Clicker.user.js:711-750 | on the X authorise page with the button present, `main` resets the counter and counts one attempt, records the X guard key, and schedules the click exactly when the guard is absent |
| Properties.DoubleClick | TM_Auto_Clicker.user.js:282-314 | `main` at `t0` and an unforced manual run at `t1`, before the first timer is due at `t0 + 1000`, schedule two clicks; at `t2`, once both are due, both fire and click under the same guard key |
| Scheduler.Find | TM_Auto_Clicker.user.js:444-644 | each phase's `findFn` returns that phase's target |
| Scheduler.AutoClicker.constructor | TM_Auto_Clicker.user.js:58-69 | the script's start state over the session's contents, satisfying the invariant |
| Scheduler.AutoClicker.ScheduleAutoClickFixed | TM_Auto_Clicker.user.js:282-314 | the new state is the one-shot scheduler's, and the invariant holds |
| Scheduler.AutoClicker.ScheduleResult | TM_Auto_Clicker.user.js:495-525 | the new state is the result scheduler's, and the invariant holds |
| Scheduler.AutoClicker.FireGuardedClick | TM_Auto_Clicker.user.js:298-313 | a due one-shot timer fires as the delayed callback does, and the invariant holds |
| Scheduler.AutoClicker.GuardedRecheck | TM_Auto_Clicker.user.js:302-312 | without a target nothing changes; with one, the guard timestamp is written, then the click is made, then the phase is `done` |
| Scheduler.AutoClicker.ScheduleJoin | TM_Auto_Clicker.user.js:317-368 | the new state is the join scheduler's, and the invariant holds |
| Scheduler.AutoClicker.FireJoinRetry | TM_Auto_Clicker.user.js:355-359 | a due retry leaves the retry map and reschedules, and the invariant holds |
| Scheduler.AutoClicker.FireJoinClick | TM_Auto_Clicker.user.js:370-406 | a due join click fires as the delayed callback does, and the invariant holds |
| Scheduler.AutoClicker.JoinRecheck | TM_Auto_Clicker.user.js:377-394 | the checks made again before the join click, then the commit |
| Scheduler.AutoClicker.JoinCommit | TM_Auto_Clicker.user.js:396-404 | the save, then the click, then `done`; nothing when the record parsed to a number |
| Scheduler.AutoClicker.StartWatcher | TM_Auto_Clicker.user.js:409-433 | a connected observer and its timeout are added, and the invariant holds |
| Scheduler.AutoClicker.OnFound | TM_Auto_Clicker.user.js:533-668 | each phase's `onFound` calls its scheduler |
| Scheduler.AutoClicker.Mutation | TM_Auto_Clicker.user.js:411-419 | a mutation batch as the observer handles it, and the invariant holds |
| Scheduler.AutoClicker.FireWatchTimeout | TM_Auto_Clicker.user.js:426-432 | a due timeout as the observer handles it, and the invariant holds |
| Scheduler.AutoClicker.RunGcpPhase | TM_Auto_Clicker.user.js:546-605 | look once; on a find, run the join scheduler; otherwise observe |
| Scheduler.AutoClicker.RunGcpResultPhase | TM_Auto_Clicker.user.js:438-541 | look once; on a find, run the result scheduler; otherwise observe |
| Scheduler.AutoClicker.RunXOAuthPhase | TM_Auto_Clicker.user.js:610-670 | look once; on a find, run the one-shot scheduler; otherwise observe |
| Scheduler.AutoClicker.RunMain | TM_Auto_Clicker.user.js:711-750 | phase `main`, counter reset, and the routed phases in order; the invariant holds |
| Scheduler.AutoClicker.TmAutoClickRun | TM_Auto_Clicker.user.js:687-700 | refused or run as the verdict says, and the invariant holds |

## Left out

- DOM access (`querySelectorAll`, `getComputedStyle`, `getBoundingClientRect`, `document.body.innerText`) is not modelled: the page is given as element records and body text, and the bounding box only as zero-width and zero-height flags.
- `MutationObserver`, real timers and `Date.now` are not modelled: they are explicit events, with `now` as a parameter. Any due timer may fire, which includes the browser's order.
- The promise returned by `clickWithFallback` is not modelled: the click and the `done` phase happen in one event, and the `click` phase shows only inside the class's methods.
- `delayRand`, `Math.random` and `scheduleAutoClick` (`TM_Auto_Clicker.user.js:90-93, 247-279`) are not modelled, because the script never calls them.
- Logging and debug output (`log`, `info`, `warn`, `err`, `dumpCandidates`, `elementInfo`) are not modelled: they do not affect any decision.
- `state.lastError` and `state.lastCandidateCount` are not modelled: only logging and the status call read them.
- `tmAutoClickStatus` is not modelled: it is a read-only snapshot.
- The keydown shortcut and the userscript metadata block are not modelled: they are user interface and loader configuration.
- The exceptions that `main` catches are not modelled: no modelled operation throws there.
- The one exception the model does keep is the strict-mode `TypeError` of the join click on a record that parsed to a number. It ends the callback after the retry was cancelled and before anything is saved.
- `JSON.parse` and `JSON.stringify` are abstracted by the three kinds of stored value. The abstraction does not cover JSON that parses to something other than a number or a `{lastClickTs, clickCount}` record, such as `null` or an object missing a field.
- Exceptions thrown by `sessionStorage` are not modelled: storage is taken never to fail, as an environmental failure outside the script's control. Only `loadMeta` and `saveMeta` (`TM_Auto_Clicker.user.js:320-335`) catch them. The guard reads at `TM_Auto_Clicker.user.js:292`, `:496` and `:689` and the guard writes at `:307` and `:518` are outside any `try`. The model therefore does not show three outcomes of a failing store. A throwing guard write ends the delayed callback after `findFn` and before the click, with the phase left at `recheck`. A throwing guard read during `main` goes to its `catch` (`:738`) and skips the phases still to run; in an observer's callback or the manual run it ends that call. A failing `setItem` inside `saveMeta` is swallowed, so the join click happens without its record saved.
- Invariants.SavesSpaced, Invariants.ClicksSaved and Properties.ClickBudget: assume that every `setItem` succeeds. When `saveMeta` fails, a join click leaves no record, and neither the cooldown spacing nor the five-click budget holds for it.
- `String.length` counts UTF-16 code units and the model counts characters. The two differ in `truncateText` only for text outside the Basic Multilingual Plane.
- `toLowerCase` is modelled on ASCII letters only. That is exact for containment of the ASCII words `result` and `lottery`.
- Percent-escapes of bytes 0x80 and above in query parameter names decode to one stand-in character. They also never compare equal to `client_id`.
- Properties.RetryDelay: states that the retry is due in the future, in unbounded milliseconds. `setTimeout` converts its delay to a 32-bit integer, so a delay above 2^31-1 ms fires at once. Only a stored `lastClickTs` far in the future gives such a delay.
- Properties.ClickBudget: bounds the clicks by 5 only when the record's count before the first click is not negative. Another script may put a record with a negative `clickCount` into the session, and then the page is clicked more than five times.
- Text.TruncateText: states the length bound and the prefix of the normalized text, not the exact `'...'` suffix characters.
