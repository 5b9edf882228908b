/**
  The schedulers, the observers and `main` as a state machine.  A `State`
  holds what the script keeps between events: the session store, the `state`
  object's phase, attempt counter and guard key, the keys of
  `gcpJoinRetryTimers`, the pending timers and the observers.  The last three
  fields are history kept for the proofs: the store writes and clicks in
  order, the join records saved per key, and the observers whose `onFound`
  ran.  Every event is a function from the state before to the state after;
  the time of the event and the page it sees are parameters.
*/
module Machine {
  import opened Wrappers
  import opened Config
  import Seqs
  import opened Page
  import opened Elements
  import Selection
  import Click
  import opened Store

  /** What a lookup sees of the page: all anchors, the button-like elements
      (`button, div[role="button"], a[role="button"]`) and the body text. */
  datatype Snapshot = Snapshot(anchors: seq<Element>, buttons: seq<Element>, bodyText: string)

  /** `state.phase`: `'init'`, `'main'`, or `label:step`. */
  datatype Step = Begin | Scheduled | Recheck | Clicking | Done
  datatype Phase = Initial | MainPhase | At(name: PhaseName, step: Step)

  /** A pending `setTimeout` callback with the values its closure holds. */
  datatype Timer =
    | GuardedClick(name: PhaseName, guardKey: string, due: nat)   // one-shot click
    | JoinRetry(metaKey: string, due: nat)                        // cooldown retry
    | JoinClick(metaKey: string, due: nat)                        // join click
    | WatchTimeout(watcher: nat, due: nat)                        // observer timeout

  /** A `startObserver` call: its phase, the guard key its `onFound` closes
      over, and its `active` flag. */
  datatype Watcher = Watcher(name: PhaseName, guardKey: string, active: bool)

  datatype Effect = Wrote(key: string, value: Stored) | Clicked(key: string, ok: bool)

  datatype State = State(
    store: Sessions,
    phase: Phase,
    attempts: nat,
    guardKey: Option<string>,
    retryTimers: set<string>,
    pending: seq<Timer>,
    watchers: seq<Watcher>,
    effects: seq<Effect>,
    saves: map<string, seq<JoinMeta>>,
    found: seq<nat>)

  /** The state when the script starts, over whatever the session holds. */
  function Start(store: Sessions): State
  {
    State(store, Initial, 0, None, {}, [], [], [], map[], [])
  }

  /** Each phase's `findFn`. */
  function Target(name: PhaseName, page: Snapshot): Option<Element>
  {
    match name
    case Gcp => Selection.JoinTarget(page.anchors)
    case GcpResult => Selection.ResultTarget(page.anchors)
    case XOAuth => Selection.XTarget(page.buttons, X_TEXT_MATCHERS)
  }

  // ----- one-shot schedulers -----

  /** `scheduleAutoClickFixed`: the attempt is counted and the guard key
      recorded before the guard is read. */
  function ScheduleAutoClickFixed(s: State, name: PhaseName, guardKey: string, delayMs: nat, now: nat): State
  {
    if s.attempts >= MAX_ATTEMPTS_PER_PAGE then s
    else
      var counted := s.(attempts := s.attempts + 1, phase := At(name, Scheduled), guardKey := Some(guardKey));
      if GuardHit(s.store, guardKey) then counted
      else counted.(pending := s.pending + [GuardedClick(name, guardKey, now + delayMs)])
  }

  /** The result phase's `scheduleFixed`: no attempt counter, no phase change. */
  function ScheduleResult(s: State, guardKey: string, now: nat, page: Snapshot): State
  {
    if GuardHit(s.store, guardKey) then s
    else if Target(GcpResult, page).None? then s
    else s.(pending := s.pending + [GuardedClick(GcpResult, guardKey, now + GCP_RESULT_DELAY_MS)])
  }

  /** The delayed callback of both one-shot schedulers: look again, and if the
      target is there write the guard, then click.  The guard is not read again. */
  function FireGuardedClick(s: State, i: nat, now: nat, page: Snapshot, env: Click.Platform): State
    requires i < |s.pending| && s.pending[i].GuardedClick?
  {
    var t := s.pending[i];
    GuardedRecheck(s.(pending := Seqs.RemoveAt(s.pending, i), phase := At(t.name, Recheck)),
                   t.name, t.guardKey, now, Target(t.name, page), env)
  }

  /** The fired one-shot timer's callback once the timer is gone: nothing
      without a target, otherwise the guard write and then the click. */
  function GuardedRecheck(s: State, name: PhaseName, key: string, now: nat,
                          el: Option<Elements.Element>, env: Click.Platform): State
  {
    if el.None? then s
    else
      var ok := Click.ClickWithFallback(el, env).ok;
      s.(store := s.store[key := Stamp(now)],
         phase := At(name, Done),
         effects := s.effects + [Wrote(key, Stamp(now)), Clicked(key, ok)])
  }

  // ----- the join scheduler -----

  function IsRetryOf(k: string): Timer -> bool
  {
    (t: Timer) => t.JoinRetry? && t.metaKey == k
  }

  function IsTimeoutOf(w: nat): Timer -> bool
  {
    (t: Timer) => t.WatchTimeout? && t.watcher == w
  }

  /** The clicks made under key `k`. */
  function IsClickOf(k: string): Effect -> bool
  {
    (e: Effect) => e.Clicked? && e.key == k
  }

  /** `clearTimeout` of the retry timer of key `k`, if one is pending. */
  function WithoutRetry(pending: seq<Timer>, k: string): seq<Timer>
  {
    var i := Seqs.FirstIndex(pending, IsRetryOf(k));
    if i < |pending| then Seqs.RemoveAt(pending, i) else pending
  }

  /** `scheduleGcpJoinWithCooldown`: over the click budget nothing happens; in
      cooldown a retry is scheduled unless one is pending; otherwise, if the
      target is there, the click is scheduled. */
  function ScheduleJoin(s: State, loc: Location, now: nat, page: Snapshot): State
  {
    var key := GuardKey(GCP_JOIN_KEY_PREFIX, loc);
    var meta := LoadMeta(s.store, key);
    if meta.clickCount >= GCP_JOIN_MAX_CLICKS_PER_PAGE then s
    else
      var since := now - meta.lastClickTs;
      var cooldown := EffectiveCooldown(DetectWaitMessage(page.bodyText));
      if since < cooldown then
        if key in s.retryTimers then s
        else
          var remain := cooldown - since;
          s.(pending := s.pending + [JoinRetry(key, now + remain + GCP_JOIN_RETRY_SLACK_MS)],
             retryTimers := s.retryTimers + {key})
      else if Target(Gcp, page).None? then s
      else s.(pending := s.pending + [JoinClick(key, now + GCP_JOIN_DELAY_MS)])
  }

  /** The retry timer: its key leaves the retry map, then the scheduler runs again. */
  function FireJoinRetry(s: State, i: nat, loc: Location, now: nat, page: Snapshot): State
    requires i < |s.pending| && s.pending[i].JoinRetry?
  {
    var k := s.pending[i].metaKey;
    ScheduleJoin(s.(pending := Seqs.RemoveAt(s.pending, i), retryTimers := s.retryTimers - {k}), loc, now, page)
  }

  /** The join history of key `k` up to the record read now. */
  function HistoryBefore(saves: map<string, seq<JoinMeta>>, k: string, read: JoinMeta): seq<JoinMeta>
  {
    if k in saves then saves[k] else [read]
  }

  /** The delayed join click: look again, read the record again, check the
      budget and the 7000 ms cooldown, cancel a pending retry, save the record
      with `lastClickTs = now` and one more click, then click.  A record that
      parsed to a number makes the field assignment throw (strict mode), after
      the retry was cancelled and before anything is saved. */
  function FireJoinClick(s: State, i: nat, now: nat, page: Snapshot, env: Click.Platform): State
    requires i < |s.pending| && s.pending[i].JoinClick?
  {
    var el := Target(Gcp, page);
    JoinRecheck(s.(pending := Seqs.RemoveAt(s.pending, i), phase := At(Gcp, Recheck)),
                s.pending[i].metaKey, now, el.Some?, Click.ClickWithFallback(el, env).ok)
  }

  /** After the timer has fired: the checks made again before clicking, given
      whether the button is still there and what the click would return. */
  function JoinRecheck(s: State, k: string, now: nat, present: bool, ok: bool): State
  {
    if RecheckPasses(s.store, k, now, present)
    then ClearAndCommit(s, k, JoinMeta(now, LoadMeta(s.store, k).clickCount + 1), ok)
    else s
  }

  /** The button is still there, the record read again leaves room in the
      budget, and the cooldown has passed since its last click. */
  predicate RecheckPasses(store: Sessions, k: string, now: nat, present: bool)
  {
    var meta := LoadMeta(store, k);
    present && meta.clickCount < GCP_JOIN_MAX_CLICKS_PER_PAGE
    && now - meta.lastClickTs >= GCP_JOIN_RETRY_COOLDOWN_MS
  }

  /** The checks passed: the pending retry of `k` is cancelled, then the commit. */
  function ClearAndCommit(s: State, k: string, saved: JoinMeta, ok: bool): State
  {
    JoinCommit(s.(pending := WithoutRetry(s.pending, k), retryTimers := s.retryTimers - {k}), k, saved, ok)
  }

  /** With the retry cancelled: the save, which throws on a record that
      parsed to a number, then the click. */
  function JoinCommit(s: State, k: string, saved: JoinMeta, ok: bool): State
  {
    if k in s.store && s.store[k].Stamp? then s
    else RecordJoinClick(s, k, saved, ok)
  }

  /** The save of the incremented record, then the click, then `done`. */
  function RecordJoinClick(s: State, k: string, saved: JoinMeta, ok: bool): State
  {
    s.(store := SaveMeta(s.store, k, saved),
       phase := At(Gcp, Done),
       effects := s.effects + [Wrote(k, Record(saved)), Clicked(k, ok)],
       saves := s.saves[k := HistoryBefore(s.saves, k, LoadMeta(s.store, k)) + [saved]])
  }

  // ----- startObserver -----

  /** `startObserver`: a connected observer and its timeout timer. */
  function StartWatcher(s: State, name: PhaseName, guardKey: string, now: nat): State
  {
    s.(watchers := s.watchers + [Watcher(name, guardKey, true)],
       pending := s.pending + [WatchTimeout(|s.watchers|, now + OBSERVER_TIMEOUT_MS)])
  }

  /** The `onFound` each phase passes to `startObserver`. */
  function OnFound(s: State, w: Watcher, loc: Location, now: nat, page: Snapshot): State
  {
    match w.name
    case Gcp => ScheduleJoin(s, loc, now, page)
    case GcpResult => ScheduleResult(s, w.guardKey, now, page)
    case XOAuth => ScheduleAutoClickFixed(s, XOAuth, w.guardKey, X_FIXED_DELAY_MS, now)
  }

  /** A mutation batch delivered to observer `w`: a disconnected observer gets
      none; a connected one looks, and on a find disconnects and calls `onFound`. */
  function Mutation(s: State, w: nat, loc: Location, now: nat, page: Snapshot): State
  {
    if w >= |s.watchers| || !s.watchers[w].active then s
    else if Target(s.watchers[w].name, page).None? then s
    else
      var ow := s.watchers[w];
      var disconnected := s.(watchers := s.watchers[w := ow.(active := false)], found := s.found + [w]);
      OnFound(disconnected, ow, loc, now, page)
  }

  /** The observer's timeout: disconnects it if it is still active. */
  function FireWatchTimeout(s: State, i: nat): State
    requires i < |s.pending| && s.pending[i].WatchTimeout?
  {
    var w := s.pending[i].watcher;
    var removed := s.(pending := Seqs.RemoveAt(s.pending, i));
    if w < |s.watchers| && s.watchers[w].active then
      removed.(watchers := s.watchers[w := s.watchers[w].(active := false)])
    else removed
  }

  // ----- phases and main -----

  /** `runGcpPhase`, `runGcpResultPhase`, `runXOAuthPhase`: look once; on a
      find schedule, otherwise observe. */
  function RunPhase(s: State, name: PhaseName, loc: Location, now: nat, page: Snapshot): State
  {
    var begun := s.(phase := At(name, Begin));
    var found := Target(name, page).Some?;
    match name
    case Gcp =>
      if found then ScheduleJoin(begun, loc, now, page)
      else StartWatcher(begun, Gcp, GuardKey(GCP_GUARD_PREFIX, loc), now)
    case GcpResult =>
      var key := GuardKey(GCP_RESULT_GUARD_PREFIX, loc);
      if found then ScheduleResult(begun, key, now, page)
      else StartWatcher(begun, GcpResult, key, now)
    case XOAuth =>
      var key := GuardKey(X_GUARD_PREFIX, loc);
      if found then ScheduleAutoClickFixed(begun, XOAuth, key, X_FIXED_DELAY_MS, now)
      else StartWatcher(begun, XOAuth, key, now)
  }

  function RunPhases(s: State, labels: seq<PhaseName>, loc: Location, now: nat, page: Snapshot): State
    decreases |labels|
  {
    if labels == [] then s
    else RunPhases(RunPhase(s, labels[0], loc, now, page), labels[1..], loc, now, page)
  }

  /** `main`: the phase becomes `main`, the attempt counter is reset, and the
      phases of the location run in order.  The guard key is kept. */
  function Main(s: State, loc: Location, now: nat, page: Snapshot): State
  {
    RunPhases(s.(phase := MainPhase, attempts := 0), Route(loc), loc, now, page)
  }

  /** `tmAutoClickRun({force})`. */
  function ManualRun(s: State, force: bool, loc: Location, now: nat, page: Snapshot): State
  {
    if ManualRunVerdict(s.guardKey, s.store, force, DEBUG) == Proceed then Main(s, loc, now, page) else s
  }
}
