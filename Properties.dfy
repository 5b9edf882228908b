/**
  What the schedulers, the observers and `main` promise, event by event, and
  the consequences over whole runs: the click budget of the join scheduler,
  the spacing of its saves, and the double click the one-shot guard lets
  through because it is not read again when the timer fires.
*/
module Properties {
  import opened Wrappers
  import opened Config
  import Seqs
  import opened Page
  import opened Store
  import Click
  import opened Machine
  import opened Invariants

  // ----- scheduleAutoClickFixed -----

  /** The attempt is counted, and the phase and guard key recorded, before
      the guard is read; a timer is added exactly when the counter had room
      and the guard was absent.  Nothing is written or clicked. */
  lemma OneShotScheduling(s: State, name: PhaseName, guardKey: string, delayMs: nat, now: nat)
    ensures var r := ScheduleAutoClickFixed(s, name, guardKey, delayMs, now);
            && (s.attempts >= MAX_ATTEMPTS_PER_PAGE ==> r == s)
            && (s.attempts < MAX_ATTEMPTS_PER_PAGE ==>
                  r.attempts == s.attempts + 1 && r.phase == At(name, Scheduled) && r.guardKey == Some(guardKey))
            && (r.pending != s.pending <==> s.attempts < MAX_ATTEMPTS_PER_PAGE && !GuardHit(s.store, guardKey))
            && (r.pending != s.pending ==> r.pending == s.pending + [GuardedClick(name, guardKey, now + delayMs)])
            && r.store == s.store && r.effects == s.effects
  {
    var r := ScheduleAutoClickFixed(s, name, guardKey, delayMs, now);
    if s.attempts < MAX_ATTEMPTS_PER_PAGE && !GuardHit(s.store, guardKey) {
      assert |r.pending| == |s.pending| + 1;
    }
  }

  /** The result phase's scheduler: no counter and no phase change; a timer
      at `now + 1000` exactly when no guard is present and the target is. */
  lemma ResultScheduling(s: State, guardKey: string, now: nat, page: Snapshot)
    ensures var r := ScheduleResult(s, guardKey, now, page);
            && r.attempts == s.attempts && r.phase == s.phase && r.guardKey == s.guardKey
            && (r.pending != s.pending <==> !GuardHit(s.store, guardKey) && Target(GcpResult, page).Some?)
            && (r.pending != s.pending ==> r.pending == s.pending + [GuardedClick(GcpResult, guardKey, now + GCP_RESULT_DELAY_MS)])
            && r.store == s.store && r.effects == s.effects
  {
    var r := ScheduleResult(s, guardKey, now, page);
    if !GuardHit(s.store, guardKey) && Target(GcpResult, page).Some? {
      assert |r.pending| == |s.pending| + 1;
    }
  }

  /** The delayed one-shot click: the timer is gone; without a target nothing
      is written; with one, the guard is written with the time stamp and then
      the element is clicked, and the phase ends `done` whatever the click
      returned.  The guard present in the store is not consulted. */
  lemma GuardedClickFiring(s: State, i: nat, now: nat, page: Snapshot, env: Click.Platform)
    requires i < |s.pending| && s.pending[i].GuardedClick?
    ensures var t := s.pending[i];
            var r := FireGuardedClick(s, i, now, page, env);
            var el := Target(t.name, page);
            && r.pending == Seqs.RemoveAt(s.pending, i)
            && (el.None? ==> r.store == s.store && r.effects == s.effects && r.phase == At(t.name, Recheck))
            && (el.Some? ==>
                  && r.store == s.store[t.guardKey := Stamp(now)]
                  && r.effects == s.effects + [Wrote(t.guardKey, Stamp(now)),
                                               Clicked(t.guardKey, Click.ClickWithFallback(el, env).ok)]
                  && r.phase == At(t.name, Done))
  {
  }

  // ----- scheduleGcpJoinWithCooldown -----

  /** The join scheduler never writes and never clicks; it adds at most one
      timer: a retry while in cooldown and none is pending for the key, a
      click once out of cooldown with the target present, and nothing over
      the budget. */
  lemma JoinScheduling(s: State, loc: Location, now: nat, page: Snapshot)
    ensures var key := GuardKey(GCP_JOIN_KEY_PREFIX, loc);
            var meta := LoadMeta(s.store, key);
            var cooldown := EffectiveCooldown(DetectWaitMessage(page.bodyText));
            var r := ScheduleJoin(s, loc, now, page);
            && r.store == s.store && r.effects == s.effects && r.saves == s.saves
            && r.watchers == s.watchers && r.attempts == s.attempts && r.phase == s.phase
            && (meta.clickCount >= GCP_JOIN_MAX_CLICKS_PER_PAGE ==> r == s)
            && (meta.clickCount < GCP_JOIN_MAX_CLICKS_PER_PAGE && now - meta.lastClickTs < cooldown ==>
                  if key in s.retryTimers then r == s
                  else r.pending == s.pending + [JoinRetry(key, meta.lastClickTs + cooldown + GCP_JOIN_RETRY_SLACK_MS)]
                       && r.retryTimers == s.retryTimers + {key})
            && (meta.clickCount < GCP_JOIN_MAX_CLICKS_PER_PAGE && now - meta.lastClickTs >= cooldown ==>
                  r.retryTimers == s.retryTimers
                  && if Target(Gcp, page).None? then r == s
                     else r.pending == s.pending + [JoinClick(key, now + GCP_JOIN_DELAY_MS)])
  {
  }

  /** The retry waits the remaining cooldown plus 50 ms: 10000 ms after the
      last click while a wait message is shown, 7000 ms otherwise. */
  lemma RetryDelay(s: State, loc: Location, now: nat, page: Snapshot)
    requires var meta := LoadMeta(s.store, GuardKey(GCP_JOIN_KEY_PREFIX, loc));
             meta.clickCount < GCP_JOIN_MAX_CLICKS_PER_PAGE
             && now - meta.lastClickTs < EffectiveCooldown(DetectWaitMessage(page.bodyText))
             && GuardKey(GCP_JOIN_KEY_PREFIX, loc) !in s.retryTimers
    ensures var meta := LoadMeta(s.store, GuardKey(GCP_JOIN_KEY_PREFIX, loc));
            var r := ScheduleJoin(s, loc, now, page);
            && |r.pending| == |s.pending| + 1
            && r.pending[|s.pending|].JoinRetry?
            && r.pending[|s.pending|].due
               == meta.lastClickTs + (if DetectWaitMessage(page.bodyText) then 10000 else 7000) + 50
            && r.pending[|s.pending|].due > now
  {
    EffectiveCooldownValues(DetectWaitMessage(page.bodyText));
  }

  /** After the join timer has fired: with the button present, room in the
      budget and 7000 ms since the last click, the pending retry of the key
      is cancelled; if moreover the record did not parse to a number, the
      record with the click time and one more click is saved, then the click
      is made and the phase ends `done`.  Otherwise nothing is written or
      clicked and the phase stays as it was. */
  lemma JoinRecheckEffect(s: State, k: string, now: nat, present: bool, ok: bool)
    ensures var meta := LoadMeta(s.store, k);
            var r := JoinRecheck(s, k, now, present, ok);
            var saved := JoinMeta(now, meta.clickCount + 1);
            var passes := present && meta.clickCount < GCP_JOIN_MAX_CLICKS_PER_PAGE
                          && now - meta.lastClickTs >= GCP_JOIN_RETRY_COOLDOWN_MS;
            var commits := passes && !(k in s.store && s.store[k].Stamp?);
            && (passes ==> r.pending == WithoutRetry(s.pending, k) && r.retryTimers == s.retryTimers - {k})
            && (!passes ==> r.pending == s.pending && r.retryTimers == s.retryTimers)
            && r.phase == (if commits then At(Gcp, Done) else s.phase)
            && (commits ==>
                  && r.store == s.store[k := Record(saved)]
                  && LoadMeta(r.store, k) == saved
                  && r.effects == s.effects + [Wrote(k, Record(saved)), Clicked(k, ok)])
            && (!commits ==> r.store == s.store && r.effects == s.effects)
  {
    var meta := LoadMeta(s.store, k);
    SaveLoadRoundTrip(s.store, k, JoinMeta(now, meta.clickCount + 1), k);
  }

  /** The recheck of the join timer `i` once it is removed, given whether the
      button is found again and what the click returns. */
  lemma FiredRecheck(s: State, i: nat, now: nat, present: bool, ok: bool)
    requires i < |s.pending| && s.pending[i].JoinClick?
    ensures var k := s.pending[i].metaKey;
            var meta := LoadMeta(s.store, k);
            var passes := present && meta.clickCount < GCP_JOIN_MAX_CLICKS_PER_PAGE
                          && now - meta.lastClickTs >= GCP_JOIN_RETRY_COOLDOWN_MS;
            var commits := passes && !(k in s.store && s.store[k].Stamp?);
            var saved := JoinMeta(now, meta.clickCount + 1);
            var r := JoinRecheck(s.(pending := Seqs.RemoveAt(s.pending, i), phase := At(Gcp, Recheck)), k, now, present, ok);
            && (!passes ==> r.pending == Seqs.RemoveAt(s.pending, i) && r.retryTimers == s.retryTimers)
            && (passes ==> r.pending == WithoutRetry(Seqs.RemoveAt(s.pending, i), k)
                           && r.retryTimers == s.retryTimers - {k})
            && r.phase == (if commits then At(Gcp, Done) else At(Gcp, Recheck))
            && (commits ==>
                  && r.store == s.store[k := Record(saved)]
                  && r.effects == s.effects + [Wrote(k, Record(saved)), Clicked(k, ok)])
            && (!commits ==> r.store == s.store && r.effects == s.effects)
  {
    var rechecked := s.(pending := Seqs.RemoveAt(s.pending, i), phase := At(Gcp, Recheck));
    JoinRecheckEffect(rechecked, s.pending[i].metaKey, now, present, ok);
  }

  /** The delayed join click, as the timer fires it: the timer is consumed;
      when the button is found again, the record read again leaves room in
      the budget and 7000 ms have passed since its last click, the pending
      retry of the key is cancelled; and unless that record parsed to a
      number, the record with the click time and one more click is saved,
      then the button is clicked and the phase ends `done`.  Otherwise
      nothing is written or clicked. */
  lemma JoinClickFiring(s: State, i: nat, now: nat, page: Snapshot, env: Click.Platform)
    requires i < |s.pending| && s.pending[i].JoinClick?
    ensures var k := s.pending[i].metaKey;
            var meta := LoadMeta(s.store, k);
            var el := Target(Gcp, page);
            var passes := el.Some? && meta.clickCount < GCP_JOIN_MAX_CLICKS_PER_PAGE
                          && now - meta.lastClickTs >= GCP_JOIN_RETRY_COOLDOWN_MS;
            var commits := passes && !(k in s.store && s.store[k].Stamp?);
            var saved := JoinMeta(now, meta.clickCount + 1);
            var r := FireJoinClick(s, i, now, page, env);
            && (!passes ==> r.pending == Seqs.RemoveAt(s.pending, i) && r.retryTimers == s.retryTimers)
            && (passes ==> r.pending == WithoutRetry(Seqs.RemoveAt(s.pending, i), k)
                           && r.retryTimers == s.retryTimers - {k})
            && r.phase == (if commits then At(Gcp, Done) else At(Gcp, Recheck))
            && (commits ==>
                  && r.store == s.store[k := Record(saved)]
                  && r.effects == s.effects + [Wrote(k, Record(saved)), Clicked(k, Click.ClickWithFallback(el, env).ok)])
            && (!commits ==> r.store == s.store && r.effects == s.effects)
  {
    var el := Target(Gcp, page);
    FiredRecheck(s, i, now, el.Some?, Click.ClickWithFallback(el, env).ok);
  }

  /** A committed join click leaves no retry pending for its key. */
  lemma JoinClickClearsRetry(s: State, i: nat, now: nat, page: Snapshot, env: Click.Platform)
    requires Valid(s) && i < |s.pending| && s.pending[i].JoinClick?
    requires FireJoinClick(s, i, now, page, env).phase == At(Gcp, Done)
    ensures var k := s.pending[i].metaKey;
            Seqs.CountWhere(FireJoinClick(s, i, now, page, env).pending, IsRetryOf(k)) == 0
  {
    var k := s.pending[i].metaKey;
    var el := Target(Gcp, page);
    var rechecked := s.(pending := Seqs.RemoveAt(s.pending, i), phase := At(Gcp, Recheck));
    FireJoinClickValid(s, i, now, page, env);
    JoinRecheckEffect(rechecked, k, now, el.Some?, Click.ClickWithFallback(el, env).ok);
  }

  /** The history of a saved key: each save one click more and at least the
      cooldown after the one before. */
  lemma {:induction false} HistoryGrowth(h: seq<JoinMeta>)
    requires |h| >= 1
    requires forall i :: 0 < i < |h| ==> Spaced(h[i - 1], h[i])
    ensures h[|h| - 1].clickCount == h[0].clickCount + |h| - 1
    ensures h[|h| - 1].lastClickTs >= h[0].lastClickTs + GCP_JOIN_RETRY_COOLDOWN_MS * (|h| - 1)
  {
    if |h| > 1 {
      var init := h[..|h| - 1];
      assert forall i :: 0 < i < |init| ==> Spaced(init[i - 1], init[i]) by {
        forall i | 0 < i < |init| ensures Spaced(init[i - 1], init[i]) {
          assert init[i - 1] == h[i - 1] && init[i] == h[i];
        }
      }
      HistoryGrowth(init);
      assert Spaced(h[|h| - 2], h[|h| - 1]);
    }
  }

  /** In any reachable state, a join key has one click per save of its
      record: none before its first save, and at most five minus the count
      its record held before the first click, so at most five when that
      count was not negative.  The store holds the last save, whose count is
      that first count plus the clicks, and the clicks lie at least 7000 ms
      apart in total. */
  lemma ClickBudget(s: State, k: string)
    requires Valid(s) && IsJoinKey(k)
    ensures var clicks := Seqs.CountWhere(s.effects, IsClickOf(k));
            && (k !in s.saves ==> clicks == 0)
            && (k in s.saves && s.saves[k][0].clickCount >= 0 ==> clicks <= GCP_JOIN_MAX_CLICKS_PER_PAGE)
            && (k in s.saves ==>
                  var h := s.saves[k];
                  && clicks == |h| - 1
                  && clicks <= GCP_JOIN_MAX_CLICKS_PER_PAGE - h[0].clickCount
                  && LoadMeta(s.store, k) == h[|h| - 1]
                  && LoadMeta(s.store, k).clickCount == h[0].clickCount + clicks
                  && h[|h| - 1].lastClickTs >= h[0].lastClickTs + GCP_JOIN_RETRY_COOLDOWN_MS * clicks)
  {
    var clicks := Seqs.CountWhere(s.effects, IsClickOf(k));
    if k in s.saves {
      var h := s.saves[k];
      assert forall i :: 0 < i < |h| ==> Spaced(h[i - 1], h[i]);
      HistoryGrowth(h);
      assert Spaced(h[|h| - 2], h[|h| - 1]);
      assert clicks == |h| - 1;
      assert h[|h| - 1].clickCount <= GCP_JOIN_MAX_CLICKS_PER_PAGE;
    }
  }

  // ----- startObserver -----

  /** A disconnected observer ignores mutations; a connected one that finds
      its target disconnects, is recorded as found, and runs its `onFound`,
      which leaves the observers as they are. */
  lemma MutationHandling(s: State, w: nat, loc: Location, now: nat, page: Snapshot)
    ensures var r := Mutation(s, w, loc, now, page);
            && (w >= |s.watchers| || !s.watchers[w].active || Target(s.watchers[w].name, page).None? ==> r == s)
            && (w < |s.watchers| && s.watchers[w].active && Target(s.watchers[w].name, page).Some? ==>
                  var ow := s.watchers[w];
                  var disconnected := s.(watchers := s.watchers[w := ow.(active := false)], found := s.found + [w]);
                  && r == OnFound(disconnected, ow, loc, now, page)
                  && r.watchers == s.watchers[w := ow.(active := false)]
                  && r.found == s.found + [w] && r.store == s.store && r.effects == s.effects)
  {
    if w < |s.watchers| && s.watchers[w].active && Target(s.watchers[w].name, page).Some? {
      var ow := s.watchers[w];
      var d := s.(watchers := s.watchers[w := ow.(active := false)], found := s.found + [w]);
      match ow.name
      case Gcp => JoinScheduling(d, loc, now, page);
      case GcpResult => ResultScheduling(d, ow.guardKey, now, page);
      case XOAuth => OneShotScheduling(d, XOAuth, ow.guardKey, X_FIXED_DELAY_MS, now);
    }
  }

  /** The timeout disconnects the observer and does nothing else; after a
      find it only discards the timer. */
  lemma TimeoutHandling(s: State, i: nat)
    requires Valid(s) && i < |s.pending| && s.pending[i].WatchTimeout?
    ensures var w := s.pending[i].watcher;
            var r := FireWatchTimeout(s, i);
            && w < |s.watchers| && w < |r.watchers| && !r.watchers[w].active
            && r.pending == Seqs.RemoveAt(s.pending, i)
            && r.store == s.store && r.effects == s.effects && r.found == s.found
            && (!s.watchers[w].active ==> r.watchers == s.watchers)
  {
    RemoveTimeout(s.pending, s.retryTimers, s.watchers, i);
  }

  /** A connected observer always has its timeout pending. */
  lemma ConnectedObserverTimesOut(s: State, w: nat)
    requires Valid(s) && w < |s.watchers| && s.watchers[w].active
    ensures exists i :: 0 <= i < |s.pending| && s.pending[i] == WatchTimeout(w, s.pending[i].due)
  {
    Seqs.CountPositive(s.pending, IsTimeoutOf(w));
    var i := Seqs.FirstIndex(s.pending, IsTimeoutOf(w));
    Seqs.FirstIndexIs(s.pending, IsTimeoutOf(w), i);
    assert s.pending[i] == WatchTimeout(w, s.pending[i].due);
  }

  // ----- main and tmAutoClickRun -----

  /** Looking and scheduling never write to the store and never click. */
  lemma RunPhaseWritesNothing(s: State, name: PhaseName, loc: Location, now: nat, page: Snapshot)
    ensures RunPhase(s, name, loc, now, page).store == s.store
    ensures RunPhase(s, name, loc, now, page).effects == s.effects
  {
    var begun := s.(phase := At(name, Begin));
    match name
    case Gcp => JoinScheduling(begun, loc, now, page);
    case GcpResult => ResultScheduling(begun, GuardKey(GCP_RESULT_GUARD_PREFIX, loc), now, page);
    case XOAuth => OneShotScheduling(begun, XOAuth, GuardKey(X_GUARD_PREFIX, loc), X_FIXED_DELAY_MS, now);
  }

  lemma {:induction false} RunPhasesWriteNothing(s: State, names: seq<PhaseName>, loc: Location, now: nat, page: Snapshot)
    ensures RunPhases(s, names, loc, now, page).store == s.store
    ensures RunPhases(s, names, loc, now, page).effects == s.effects
    decreases |names|
  {
    if names != [] {
      RunPhaseWritesNothing(s, names[0], loc, now, page);
      RunPhasesWriteNothing(RunPhase(s, names[0], loc, now, page), names[1..], loc, now, page);
    }
  }

  /** `main` writes nothing and clicks nothing. */
  lemma MainWritesNothing(s: State, loc: Location, now: nat, page: Snapshot)
    ensures Main(s, loc, now, page).store == s.store
    ensures Main(s, loc, now, page).effects == s.effects
  {
    RunPhasesWriteNothing(s.(phase := MainPhase, attempts := 0), Route(loc), loc, now, page);
  }

  /** On the X authorisation page with the button present, `main` counts one
      attempt from zero, records the X guard key, and schedules the click
      exactly when the guard is absent. */
  lemma MainOnXOAuth(s: State, loc: Location, now: nat, page: Snapshot)
    requires Route(loc) == [XOAuth] && Target(XOAuth, page).Some?
    ensures var key := GuardKey(X_GUARD_PREFIX, loc);
            var r := Main(s, loc, now, page);
            && r.attempts == 1 && r.guardKey == Some(key)
            && r.store == s.store && r.effects == s.effects
            && (!GuardHit(s.store, key) ==> r.pending == s.pending + [GuardedClick(XOAuth, key, now + X_FIXED_DELAY_MS)])
            && (GuardHit(s.store, key) ==> r.pending == s.pending)
  {
    var key := GuardKey(X_GUARD_PREFIX, loc);
    var reset := s.(phase := MainPhase, attempts := 0);
    var names := Route(loc);
    assert names[1..] == [];
    assert RunPhases(reset, names, loc, now, page)
           == RunPhases(RunPhase(reset, XOAuth, loc, now, page), [], loc, now, page);
    OneShotScheduling(reset.(phase := At(XOAuth, Begin)), XOAuth, key, X_FIXED_DELAY_MS, now);
  }

  /** The double click: on the X authorisation page with the button present,
      `main` at `t0` schedules a click; a manual run at `t1`, before that timer
      is due, finds no guard yet, so it is not refused, and schedules a second
      click; at `t2`, when both timers are due, they fire and the button is
      clicked twice under the same guard. */
  lemma DoubleClick(s: State, loc: Location, t0: nat, t1: nat, t2: nat, page: Snapshot, env: Click.Platform)
    requires Route(loc) == [XOAuth]
    requires Target(XOAuth, page).Some?
    requires !GuardHit(s.store, GuardKey(X_GUARD_PREFIX, loc))
    requires t0 <= t1 < t0 + X_FIXED_DELAY_MS && t1 + X_FIXED_DELAY_MS <= t2
    ensures var key := GuardKey(X_GUARD_PREFIX, loc);
            var s1 := Main(s, loc, t0, page);
            var s2 := ManualRun(s1, false, loc, t1, page);
            && |s2.pending| == |s.pending| + 2
            && s2.pending[|s.pending|].GuardedClick?
            && s2.pending[|s.pending| + 1].GuardedClick?
            && t1 < s2.pending[|s.pending|].due <= s2.pending[|s.pending| + 1].due <= t2
            && var s3 := FireGuardedClick(s2, |s.pending|, t2, page, env);
               && |s3.pending| == |s.pending| + 1
               && s3.pending[|s.pending|].GuardedClick?
               && var s4 := FireGuardedClick(s3, |s.pending|, t2, page, env);
                  && |s4.effects| == |s.effects| + 4
                  && s4.effects[|s.effects| + 1].Clicked? && s4.effects[|s.effects| + 1].key == key
                  && s4.effects[|s.effects| + 3].Clicked? && s4.effects[|s.effects| + 3].key == key
  {
    var key := GuardKey(X_GUARD_PREFIX, loc);
    var n := |s.pending|;
    var g0 := GuardedClick(XOAuth, key, t0 + X_FIXED_DELAY_MS);
    var g1 := GuardedClick(XOAuth, key, t1 + X_FIXED_DELAY_MS);
    var s1 := Main(s, loc, t0, page);
    MainOnXOAuth(s, loc, t0, page);
    assert ManualRunVerdict(s1.guardKey, s1.store, false, DEBUG) == Proceed;
    var s2 := ManualRun(s1, false, loc, t1, page);
    assert s2 == Main(s1, loc, t1, page);
    MainOnXOAuth(s1, loc, t1, page);
    assert s2.pending == s.pending + [g0, g1];
    var s3 := FireGuardedClick(s2, n, t2, page, env);
    assert Seqs.RemoveAt(s2.pending, n) == s.pending + [g1];
    var s4 := FireGuardedClick(s3, n, t2, page, env);
    GuardedClickFiring(s2, n, t2, page, env);
    GuardedClickFiring(s3, n, t2, page, env);
  }
}
