/**
  The script's running state as an object: the session store, the `state`
  record (phase, attempt counter, last guard key), the retry map
  `gcpJoinRetryTimers`, the pending timers and the observers.  Each method is
  one event, written step by step as the script does it; its contract ties
  the new state to the machine's function for that event and keeps the
  invariant.  The write and click history, the saved join records and the
  observers that found their target are ghost.

  Every event is thus written twice.  The function in `Machine` specifies it,
  and the lemmas of `Invariants` and `Properties` are about that function.
  The method here performs it in the script's order of steps and is proved
  to end in the function's result.  Read the function for what an event
  does, and the method for how the script does it.
*/
module Scheduler {
  import opened Wrappers
  import opened Config
  import Seqs
  import opened Page
  import opened Store
  import Elements
  import Selection
  import Click
  import opened Machine
  import Invariants

  /** Each phase's `findFn`, run on the page as it is now. */
  method Find(name: PhaseName, page: Snapshot) returns (el: Option<Elements.Element>)
    ensures el == Machine.Target(name, page)
  {
    match name
    case Gcp => el := Selection.FindJoinTarget(page.anchors);
    case GcpResult => el := Selection.FindResultTarget(page.anchors);
    case XOAuth => el := Selection.FindXOAuthTarget(page.buttons, X_TEXT_MATCHERS);
  }

  class AutoClicker {
    var store: Sessions
    var phase: Phase
    var attempts: nat
    var guardKey: Option<string>
    var retryTimers: set<string>
    var pending: seq<Timer>
    var watchers: seq<Watcher>
    ghost var effects: seq<Effect>
    ghost var saves: map<string, seq<JoinMeta>>
    ghost var found: seq<nat>

    ghost function V(): State
      reads this
    {
      State(store, phase, attempts, guardKey, retryTimers, pending, watchers, effects, saves, found)
    }

    ghost predicate Valid()
      reads this
    {
      Invariants.Valid(V())
    }

    /** The script's start over whatever the session already holds. */
    constructor (initial: Sessions)
      ensures V() == Machine.Start(initial) && Valid()
    {
      store := initial;
      phase := Initial;
      attempts := 0;
      guardKey := None;
      retryTimers := {};
      pending := [];
      watchers := [];
      effects := [];
      saves := map[];
      found := [];
    }

    /** `scheduleAutoClickFixed`. */
    method ScheduleAutoClickFixed(name: PhaseName, key: string, delayMs: nat, now: nat)
      requires Valid() && IsOneShotKey(key)
      modifies this
      ensures V() == Machine.ScheduleAutoClickFixed(old(V()), name, key, delayMs, now)
      ensures Valid()
    {
      Invariants.ScheduleAutoClickFixedValid(V(), name, key, delayMs, now);
      if attempts >= MAX_ATTEMPTS_PER_PAGE {
        return;
      }
      attempts := attempts + 1;
      phase := At(name, Scheduled);
      guardKey := Some(key);
      if GuardHit(store, key) {
        return;
      }
      pending := pending + [GuardedClick(name, key, now + delayMs)];
    }

    /** The result phase's `scheduleFixed`. */
    method ScheduleResult(key: string, now: nat, page: Snapshot)
      requires Valid() && IsOneShotKey(key)
      modifies this
      ensures V() == Machine.ScheduleResult(old(V()), key, now, page)
      ensures Valid()
    {
      Invariants.ScheduleResultValid(V(), key, now, page);
      if GuardHit(store, key) {
        return;
      }
      var el := Find(GcpResult, page);
      if el.None? {
        return;
      }
      pending := pending + [GuardedClick(GcpResult, key, now + GCP_RESULT_DELAY_MS)];
    }

    /** The one-shot click timer `i` fires at `now`. */
    method FireGuardedClick(i: nat, now: nat, page: Snapshot, env: Click.Platform)
      requires Valid() && i < |pending| && pending[i].GuardedClick? && pending[i].due <= now
      modifies this
      ensures V() == Machine.FireGuardedClick(old(V()), i, now, page, env)
      ensures Valid()
    {
      Invariants.FireGuardedClickValid(V(), i, now, page, env);
      var t := pending[i];
      pending := Seqs.RemoveAt(pending, i);
      phase := At(t.name, Recheck);
      var el := Find(t.name, page);
      GuardedRecheck(t.name, t.guardKey, now, el, env);
    }

    /** The callback of a fired one-shot timer, after its removal. */
    method GuardedRecheck(name: PhaseName, key: string, now: nat,
                          el: Option<Elements.Element>, env: Click.Platform)
      modifies this
      ensures V() == Machine.GuardedRecheck(old(V()), name, key, now, el, env)
    {
      if el.None? {
        return;
      }
      store := store[key := Stamp(now)];
      effects := effects + [Wrote(key, Stamp(now))];
      phase := At(name, Clicking);
      var report := Click.ClickWithFallback(el, env);
      effects := effects + [Clicked(key, report.ok)];
      phase := At(name, Done);
      assert effects == old(effects) + [Wrote(key, Stamp(now)), Clicked(key, report.ok)];
    }

    /** `scheduleGcpJoinWithCooldown`. */
    method ScheduleJoin(loc: Location, now: nat, page: Snapshot)
      requires Valid()
      modifies this
      ensures V() == Machine.ScheduleJoin(old(V()), loc, now, page)
      ensures Valid()
    {
      Invariants.ScheduleJoinValid(V(), loc, now, page);
      var key := GuardKey(GCP_JOIN_KEY_PREFIX, loc);
      var meta := LoadMeta(store, key);
      if meta.clickCount >= GCP_JOIN_MAX_CLICKS_PER_PAGE {
        return;
      }
      var since := now - meta.lastClickTs;
      var cooldown := EffectiveCooldown(DetectWaitMessage(page.bodyText));
      if since < cooldown {
        var remain := cooldown - since;
        if key in retryTimers {
          return;
        }
        pending := pending + [JoinRetry(key, now + remain + GCP_JOIN_RETRY_SLACK_MS)];
        retryTimers := retryTimers + {key};
        return;
      }
      var el := Find(Gcp, page);
      if el.None? {
        return;
      }
      pending := pending + [JoinClick(key, now + GCP_JOIN_DELAY_MS)];
    }

    /** The cooldown retry timer `i` fires at `now`. */
    method FireJoinRetry(i: nat, loc: Location, now: nat, page: Snapshot)
      requires Valid() && i < |pending| && pending[i].JoinRetry? && pending[i].due <= now
      modifies this
      ensures V() == Machine.FireJoinRetry(old(V()), i, loc, now, page)
      ensures Valid()
    {
      Invariants.RetryFiredValid(V(), i);
      var k := pending[i].metaKey;
      pending := Seqs.RemoveAt(pending, i);
      retryTimers := retryTimers - {k};
      ScheduleJoin(loc, now, page);
    }

    /** The join click timer `i` fires at `now`. */
    method FireJoinClick(i: nat, now: nat, page: Snapshot, env: Click.Platform)
      requires Valid() && i < |pending| && pending[i].JoinClick? && pending[i].due <= now
      modifies this
      ensures V() == Machine.FireJoinClick(old(V()), i, now, page, env)
      ensures Valid()
    {
      Invariants.FireJoinClickValid(V(), i, now, page, env);
      var k := pending[i].metaKey;
      pending := Seqs.RemoveAt(pending, i);
      phase := At(Gcp, Recheck);
      var el := Find(Gcp, page);
      JoinRecheck(k, now, el, env);
    }

    /** After the join timer has fired: read the record again, check the
        budget and the cooldown, cancel the retry, save, click. */
    method JoinRecheck(k: string, now: nat, el: Option<Elements.Element>, env: Click.Platform)
      modifies this
      ensures V() == Machine.JoinRecheck(old(V()), k, now, el.Some?, Click.ClickWithFallback(el, env).ok)
    {
      if el.None? {
        return;
      }
      var meta := LoadMeta(store, k);
      if meta.clickCount >= GCP_JOIN_MAX_CLICKS_PER_PAGE {
        return;
      }
      if now - meta.lastClickTs < GCP_JOIN_RETRY_COOLDOWN_MS {
        return;
      }
      pending := WithoutRetry(pending, k);
      retryTimers := retryTimers - {k};
      JoinCommit(k, JoinMeta(now, meta.clickCount + 1), el, env);
    }

    /** The save, which throws on a record that parsed to a number, then the click. */
    method JoinCommit(k: string, saved: JoinMeta, el: Option<Elements.Element>, env: Click.Platform)
      modifies this
      ensures V() == Machine.JoinCommit(old(V()), k, saved, Click.ClickWithFallback(el, env).ok)
    {
      if k in store && store[k].Stamp? {
        return;
      }
      saves := saves[k := HistoryBefore(saves, k, LoadMeta(store, k)) + [saved]];
      store := SaveMeta(store, k, saved);
      effects := effects + [Wrote(k, Record(saved))];
      phase := At(Gcp, Clicking);
      var report := Click.ClickWithFallback(el, env);
      effects := effects + [Clicked(k, report.ok)];
      phase := At(Gcp, Done);
      assert effects == old(effects) + [Wrote(k, Record(saved)), Clicked(k, report.ok)];
    }

    /** `startObserver`. */
    method StartWatcher(name: PhaseName, key: string, now: nat)
      requires Valid() && IsOneShotKey(key)
      modifies this
      ensures V() == Machine.StartWatcher(old(V()), name, key, now)
      ensures Valid()
    {
      Invariants.StartWatcherValid(V(), name, key, now);
      pending := pending + [WatchTimeout(|watchers|, now + OBSERVER_TIMEOUT_MS)];
      watchers := watchers + [Watcher(name, key, true)];
    }

    /** The `onFound` of observer `w`. */
    method OnFound(w: Watcher, loc: Location, now: nat, page: Snapshot)
      requires Valid() && IsOneShotKey(w.guardKey)
      modifies this
      ensures V() == Machine.OnFound(old(V()), w, loc, now, page)
      ensures Valid()
    {
      match w.name
      case Gcp => ScheduleJoin(loc, now, page);
      case GcpResult => ScheduleResult(w.guardKey, now, page);
      case XOAuth => ScheduleAutoClickFixed(XOAuth, w.guardKey, X_FIXED_DELAY_MS, now);
    }

    /** A mutation batch delivered to observer `w`. */
    method Mutation(w: nat, loc: Location, now: nat, page: Snapshot)
      requires Valid()
      modifies this
      ensures V() == Machine.Mutation(old(V()), w, loc, now, page)
      ensures Valid()
    {
      if w >= |watchers| || !watchers[w].active {
        return;
      }
      var el := Find(watchers[w].name, page);
      if el.None? {
        return;
      }
      Invariants.DisconnectValid(V(), w);
      var ow := watchers[w];
      watchers := watchers[w := ow.(active := false)];
      found := found + [w];
      OnFound(ow, loc, now, page);
    }

    /** Observer timeout timer `i` fires at `now`. */
    method FireWatchTimeout(i: nat, now: nat)
      requires Valid() && i < |pending| && pending[i].WatchTimeout? && pending[i].due <= now
      modifies this
      ensures V() == Machine.FireWatchTimeout(old(V()), i)
      ensures Valid()
    {
      Invariants.FireWatchTimeoutValid(V(), i);
      var w := pending[i].watcher;
      pending := Seqs.RemoveAt(pending, i);
      if w < |watchers| && watchers[w].active {
        watchers := watchers[w := watchers[w].(active := false)];
      }
    }

    /** `runGcpPhase`. */
    method RunGcpPhase(loc: Location, now: nat, page: Snapshot)
      requires Valid()
      modifies this
      ensures V() == Machine.RunPhase(old(V()), Gcp, loc, now, page)
      ensures Valid()
    {
      phase := At(Gcp, Begin);
      var key := GuardKey(GCP_GUARD_PREFIX, loc);
      var el := Find(Gcp, page);
      if el.Some? {
        ScheduleJoin(loc, now, page);
        return;
      }
      StartWatcher(Gcp, key, now);
    }

    /** `runGcpResultPhase`. */
    method RunGcpResultPhase(loc: Location, now: nat, page: Snapshot)
      requires Valid()
      modifies this
      ensures V() == Machine.RunPhase(old(V()), GcpResult, loc, now, page)
      ensures Valid()
    {
      phase := At(GcpResult, Begin);
      var key := GuardKey(GCP_RESULT_GUARD_PREFIX, loc);
      var el := Find(GcpResult, page);
      if el.Some? {
        ScheduleResult(key, now, page);
        return;
      }
      StartWatcher(GcpResult, key, now);
    }

    /** `runXOAuthPhase`. */
    method RunXOAuthPhase(loc: Location, now: nat, page: Snapshot)
      requires Valid()
      modifies this
      ensures V() == Machine.RunPhase(old(V()), XOAuth, loc, now, page)
      ensures Valid()
    {
      phase := At(XOAuth, Begin);
      var key := GuardKey(X_GUARD_PREFIX, loc);
      var el := Find(XOAuth, page);
      if el.Some? {
        ScheduleAutoClickFixed(XOAuth, key, X_FIXED_DELAY_MS, now);
        return;
      }
      StartWatcher(XOAuth, key, now);
    }

    /** `main`. */
    method RunMain(loc: Location, now: nat, page: Snapshot)
      requires Valid()
      modifies this
      ensures V() == Machine.Main(old(V()), loc, now, page)
      ensures Valid()
    {
      phase := MainPhase;
      attempts := 0;
      if loc.host == GCP_HOST {
        RunGcpPhase(loc, now, page);
        RunGcpResultPhase(loc, now, page);
        assert [Gcp, GcpResult][1..] == [GcpResult];
        return;
      }
      if loc.host == X_HOST {
        if loc.pathname == X_OAUTH_PATH && HasQueryParam(loc.search, X_OAUTH_PARAM) {
          RunXOAuthPhase(loc, now, page);
          assert [XOAuth][1..] == [];
        }
        return;
      }
    }

    /** `tmAutoClickRun({force})`. */
    method TmAutoClickRun(force: bool, loc: Location, now: nat, page: Snapshot)
      requires Valid()
      modifies this
      ensures V() == Machine.ManualRun(old(V()), force, loc, now, page)
      ensures Valid()
    {
      if guardKey.Some? && GuardHit(store, guardKey.value) && !force {
        return;
      }
      if force && !DEBUG {
        return;
      }
      RunMain(loc, now, page);
    }
  }
}
