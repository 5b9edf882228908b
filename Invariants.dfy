/**
  What every reachable state satisfies, and that every event keeps it: the
  attempt bound, one retry timer per join key and exactly the keys of the
  retry map, a pending timeout for every connected observer, each store
  write immediately before its click, the join records spaced by the
  cooldown and within the click budget, and `onFound` at most once per
  observer.
*/
module Invariants {
  import opened Wrappers
  import opened Config
  import Seqs
  import opened Page
  import opened Store
  import Click
  import opened Machine

  /** The keys of the retry map are exactly the keys with a pending retry
      timer, and no key has two. */
  ghost predicate RetriesExact(p: seq<Timer>, r: set<string>)
  {
    forall k :: Seqs.CountWhere(p, IsRetryOf(k)) == (if k in r then 1 else 0)
  }

  /** Every observer has at most one pending timeout, a connected one exactly
      one, and no timeout belongs to an observer that was never started. */
  ghost predicate TimeoutsExact(p: seq<Timer>, ws: seq<Watcher>)
  {
    && (forall w: nat :: Seqs.CountWhere(p, IsTimeoutOf(w)) <= (if w < |ws| then 1 else 0))
    && (forall w :: 0 <= w < |ws| && ws[w].active ==> Seqs.CountWhere(p, IsTimeoutOf(w)) == 1)
  }

  predicate TimerKeyOk(t: Timer)
  {
    match t
    case GuardedClick(_, k, _) => IsOneShotKey(k)
    case JoinRetry(k, _) => IsJoinKey(k)
    case JoinClick(k, _) => IsJoinKey(k)
    case WatchTimeout(_, _) => true
  }

  ghost predicate TimerKeys(p: seq<Timer>)
  {
    forall i :: 0 <= i < |p| ==> TimerKeyOk(p[i])
  }

  ghost predicate WatcherKeys(ws: seq<Watcher>)
  {
    forall i :: 0 <= i < |ws| ==> IsOneShotKey(ws[i].guardKey)
  }

  /** Every click comes right after a write to the key that guards it. */
  ghost predicate WriteBeforeClick(e: seq<Effect>)
  {
    forall i :: 0 <= i < |e| && e[i].Clicked? ==> 0 < i && e[i - 1].Wrote? && e[i - 1].key == e[i].key
  }

  /** One save after another: at least the cooldown later, one click more,
      and within the budget. */
  predicate Spaced(a: JoinMeta, b: JoinMeta)
  {
    && b.lastClickTs >= a.lastClickTs + GCP_JOIN_RETRY_COOLDOWN_MS
    && b.clickCount == a.clickCount + 1
    && b.clickCount <= GCP_JOIN_MAX_CLICKS_PER_PAGE
  }

  /** The history of each saved join key: the record read before the first
      save, then every saved record, the last of them still in the store. */
  ghost predicate SavesSpaced(saves: map<string, seq<JoinMeta>>, store: Sessions)
  {
    && (forall k :: k in saves ==> IsJoinKey(k) && |saves[k]| >= 2
                                   && k in store && store[k] == Record(saves[k][|saves[k]| - 1]))
    && (forall k, i :: k in saves && 0 < i < |saves[k]| ==> Spaced(saves[k][i - 1], saves[k][i]))
  }

  /** Every click under a join key came with one save of its record: a key
      has as many clicks as saved records after the one first read. */
  ghost predicate ClicksSaved(e: seq<Effect>, saves: map<string, seq<JoinMeta>>)
  {
    forall k {:trigger Seqs.CountWhere(e, IsClickOf(k))} ::
      IsJoinKey(k) ==> Seqs.CountWhere(e, IsClickOf(k)) == (if k in saves then |saves[k]| - 1 else 0)
  }

  /** `onFound` ran at most once per observer, and only for disconnected ones. */
  ghost predicate FoundOnce(found: seq<nat>, ws: seq<Watcher>)
  {
    && (forall i :: 0 <= i < |found| ==> found[i] < |ws| && !ws[found[i]].active)
    && (forall i, j :: 0 <= i < j < |found| ==> found[i] != found[j])
  }

  ghost predicate Valid(s: State)
  {
    && s.attempts <= MAX_ATTEMPTS_PER_PAGE
    && RetriesExact(s.pending, s.retryTimers)
    && TimeoutsExact(s.pending, s.watchers)
    && TimerKeys(s.pending)
    && WatcherKeys(s.watchers)
    && WriteBeforeClick(s.effects)
    && SavesSpaced(s.saves, s.store)
    && ClicksSaved(s.effects, s.saves)
    && FoundOnce(s.found, s.watchers)
  }

  lemma ValidSame(a: State, b: State)
    requires Valid(a) && a == b
    ensures Valid(b)
  {
  }

  lemma StartValid(store: Sessions)
    ensures Valid(Start(store))
  {
  }

  // ----- counting pending timers -----

  lemma CountsAfterSnoc(p: seq<Timer>, t: Timer)
    ensures forall k :: Seqs.CountWhere(p + [t], IsRetryOf(k))
                        == Seqs.CountWhere(p, IsRetryOf(k)) + (if IsRetryOf(k)(t) then 1 else 0)
    ensures forall w: nat :: Seqs.CountWhere(p + [t], IsTimeoutOf(w))
                        == Seqs.CountWhere(p, IsTimeoutOf(w)) + (if IsTimeoutOf(w)(t) then 1 else 0)
  {
    forall k { Seqs.CountSnoc(p, t, IsRetryOf(k)); }
    forall w: nat { Seqs.CountSnoc(p, t, IsTimeoutOf(w)); }
  }

  lemma CountsAfterRemove(p: seq<Timer>, i: nat)
    requires i < |p|
    ensures forall k :: Seqs.CountWhere(Seqs.RemoveAt(p, i), IsRetryOf(k))
                        == Seqs.CountWhere(p, IsRetryOf(k)) - (if IsRetryOf(k)(p[i]) then 1 else 0)
    ensures forall w: nat :: Seqs.CountWhere(Seqs.RemoveAt(p, i), IsTimeoutOf(w))
                        == Seqs.CountWhere(p, IsTimeoutOf(w)) - (if IsTimeoutOf(w)(p[i]) then 1 else 0)
  {
    forall k { Seqs.CountRemoveAt(p, i, IsRetryOf(k)); }
    forall w: nat { Seqs.CountRemoveAt(p, i, IsTimeoutOf(w)); }
  }

  lemma TimerKeysAfterSnoc(p: seq<Timer>, t: Timer)
    requires TimerKeys(p) && TimerKeyOk(t)
    ensures TimerKeys(p + [t])
  {
    forall j | 0 <= j < |p + [t]| ensures TimerKeyOk((p + [t])[j]) {
      if j < |p| { assert (p + [t])[j] == p[j]; }
    }
  }

  lemma TimerKeysAfterRemove(p: seq<Timer>, i: nat)
    requires TimerKeys(p) && i < |p|
    ensures TimerKeys(Seqs.RemoveAt(p, i))
  {
    var r := Seqs.RemoveAt(p, i);
    forall j | 0 <= j < |r| ensures TimerKeyOk(r[j]) {
      if j < i { assert r[j] == p[j]; } else { assert r[j] == p[j + 1]; }
    }
  }

  /** Adding or removing a one-shot or join click timer touches neither the
      retry count nor the timeout count. */
  lemma SnocClickTimer(p: seq<Timer>, r: set<string>, ws: seq<Watcher>, t: Timer)
    requires RetriesExact(p, r) && TimeoutsExact(p, ws) && TimerKeys(p)
    requires (t.GuardedClick? || t.JoinClick?) && TimerKeyOk(t)
    ensures RetriesExact(p + [t], r) && TimeoutsExact(p + [t], ws) && TimerKeys(p + [t])
  {
    CountsAfterSnoc(p, t);
    TimerKeysAfterSnoc(p, t);
  }

  lemma RemoveClickTimer(p: seq<Timer>, r: set<string>, ws: seq<Watcher>, i: nat)
    requires RetriesExact(p, r) && TimeoutsExact(p, ws) && TimerKeys(p)
    requires i < |p| && (p[i].GuardedClick? || p[i].JoinClick?)
    ensures RetriesExact(Seqs.RemoveAt(p, i), r) && TimeoutsExact(Seqs.RemoveAt(p, i), ws)
    ensures TimerKeys(Seqs.RemoveAt(p, i))
  {
    CountsAfterRemove(p, i);
    TimerKeysAfterRemove(p, i);
  }

  lemma SnocRetry(p: seq<Timer>, r: set<string>, ws: seq<Watcher>, k: string, due: nat)
    requires RetriesExact(p, r) && TimeoutsExact(p, ws) && TimerKeys(p)
    requires k !in r && IsJoinKey(k)
    ensures RetriesExact(p + [JoinRetry(k, due)], r + {k}) && TimeoutsExact(p + [JoinRetry(k, due)], ws)
    ensures TimerKeys(p + [JoinRetry(k, due)])
  {
    CountsAfterSnoc(p, JoinRetry(k, due));
    TimerKeysAfterSnoc(p, JoinRetry(k, due));
  }

  lemma RemoveRetry(p: seq<Timer>, r: set<string>, ws: seq<Watcher>, i: nat)
    requires RetriesExact(p, r) && TimeoutsExact(p, ws) && TimerKeys(p)
    requires i < |p| && p[i].JoinRetry?
    ensures RetriesExact(Seqs.RemoveAt(p, i), r - {p[i].metaKey}) && TimeoutsExact(Seqs.RemoveAt(p, i), ws)
    ensures TimerKeys(Seqs.RemoveAt(p, i))
  {
    CountsAfterRemove(p, i);
    TimerKeysAfterRemove(p, i);
  }

  /** Cancelling the retry of key `k` leaves no retry for `k` and the others as they were. */
  lemma CancelRetry(p: seq<Timer>, r: set<string>, ws: seq<Watcher>, k: string)
    requires RetriesExact(p, r) && TimeoutsExact(p, ws) && TimerKeys(p)
    ensures RetriesExact(WithoutRetry(p, k), r - {k}) && TimeoutsExact(WithoutRetry(p, k), ws)
    ensures TimerKeys(WithoutRetry(p, k))
  {
    var i := Seqs.FirstIndex(p, IsRetryOf(k));
    if i < |p| {
      RemoveRetry(p, r, ws, i);
    } else {
      if k in r {
        Seqs.CountPositive(p, IsRetryOf(k));
      }
      assert r - {k} == r;
    }
  }

  lemma StartTimeout(p: seq<Timer>, r: set<string>, ws: seq<Watcher>, w: Watcher, due: nat)
    requires RetriesExact(p, r) && TimeoutsExact(p, ws) && TimerKeys(p)
    requires w.active
    ensures RetriesExact(p + [WatchTimeout(|ws|, due)], r)
    ensures TimeoutsExact(p + [WatchTimeout(|ws|, due)], ws + [w])
    ensures TimerKeys(p + [WatchTimeout(|ws|, due)])
  {
    var t := WatchTimeout(|ws|, due);
    CountsAfterSnoc(p, t);
    TimerKeysAfterSnoc(p, t);
    var ws' := ws + [w];
    forall v | 0 <= v < |ws'| && ws'[v].active ensures Seqs.CountWhere(p + [t], IsTimeoutOf(v)) == 1 {
      if v < |ws| {
        assert ws'[v] == ws[v];
      }
    }
  }

  lemma RemoveTimeout(p: seq<Timer>, r: set<string>, ws: seq<Watcher>, i: nat)
    requires RetriesExact(p, r) && TimeoutsExact(p, ws) && TimerKeys(p)
    requires i < |p| && p[i].WatchTimeout?
    ensures p[i].watcher < |ws|
    ensures RetriesExact(Seqs.RemoveAt(p, i), r) && TimerKeys(Seqs.RemoveAt(p, i))
    ensures TimeoutsExact(Seqs.RemoveAt(p, i), ws[p[i].watcher := ws[p[i].watcher].(active := false)])
  {
    CountsAfterRemove(p, i);
    TimerKeysAfterRemove(p, i);
    var w := p[i].watcher;
    assert Seqs.CountWhere(p, IsTimeoutOf(w)) >= 1;
  }

  /** Disconnecting an observer keeps the timeout counts. */
  lemma DisconnectKeepsTimeouts(p: seq<Timer>, ws: seq<Watcher>, w: nat)
    requires TimeoutsExact(p, ws) && w < |ws|
    ensures TimeoutsExact(p, ws[w := ws[w].(active := false)])
  {
  }

  // ----- each event keeps the invariant -----

  lemma ScheduleAutoClickFixedValid(s: State, name: PhaseName, guardKey: string, delayMs: nat, now: nat)
    requires Valid(s) && IsOneShotKey(guardKey)
    ensures Valid(ScheduleAutoClickFixed(s, name, guardKey, delayMs, now))
  {
    if s.attempts < MAX_ATTEMPTS_PER_PAGE && !GuardHit(s.store, guardKey) {
      SnocClickTimer(s.pending, s.retryTimers, s.watchers, GuardedClick(name, guardKey, now + delayMs));
    }
  }

  lemma ScheduleResultValid(s: State, guardKey: string, now: nat, page: Snapshot)
    requires Valid(s) && IsOneShotKey(guardKey)
    ensures Valid(ScheduleResult(s, guardKey, now, page))
  {
    if !GuardHit(s.store, guardKey) {
      SnocClickTimer(s.pending, s.retryTimers, s.watchers, GuardedClick(GcpResult, guardKey, now + GCP_RESULT_DELAY_MS));
    }
  }

  /** A write of a one-shot guard leaves every join record in place. */
  lemma GuardWriteKeepsSaves(saves: map<string, seq<JoinMeta>>, store: Sessions, k: string, v: Stored)
    requires SavesSpaced(saves, store) && IsOneShotKey(k)
    ensures SavesSpaced(saves, store[k := v])
  {
    forall j | j in saves ensures j != k {
      JoinAndGuardKeysDisjoint(k);
    }
  }

  lemma EffectsAppend(e: seq<Effect>, k: string, v: Stored, ok: bool)
    requires WriteBeforeClick(e)
    ensures WriteBeforeClick(e + [Wrote(k, v), Clicked(k, ok)])
  {
    var e' := e + [Wrote(k, v), Clicked(k, ok)];
    forall i | 0 <= i < |e'| && e'[i].Clicked? ensures 0 < i && e'[i - 1].Wrote? && e'[i - 1].key == e'[i].key {
      if i < |e| {
        assert e'[i] == e[i] && e'[i - 1] == e[i - 1];
      }
    }
  }

  lemma ClicksOfPair(k: string, v: Stored, ok: bool, j: string)
    ensures Seqs.CountWhere([Wrote(k, v), Clicked(k, ok)], IsClickOf(j)) == (if j == k then 1 else 0)
  {
    var p := IsClickOf(j);
    var tail := [Wrote(k, v), Clicked(k, ok)];
    var last := [Clicked(k, ok)];
    assert tail[1..] == last && last[1..] == [];
    assert !p(tail[0]) && (p(last[0]) <==> j == k);
    assert Seqs.CountWhere(last, p) == (if j == k then 1 else 0) + Seqs.CountWhere([], p);
    assert Seqs.CountWhere(tail, p) == Seqs.CountWhere(last, p);
  }

  /** A write and a click under `k` add one click to `k` and none to any other key. */
  lemma ClicksAppend(e: seq<Effect>, k: string, v: Stored, ok: bool)
    ensures forall j :: Seqs.CountWhere(e + [Wrote(k, v), Clicked(k, ok)], IsClickOf(j))
                        == Seqs.CountWhere(e, IsClickOf(j)) + (if j == k then 1 else 0)
  {
    forall j
      ensures Seqs.CountWhere(e + [Wrote(k, v), Clicked(k, ok)], IsClickOf(j))
              == Seqs.CountWhere(e, IsClickOf(j)) + (if j == k then 1 else 0)
    {
      Seqs.CountAppend(e, [Wrote(k, v), Clicked(k, ok)], IsClickOf(j));
      ClicksOfPair(k, v, ok, j);
    }
  }

  lemma FireGuardedClickValid(s: State, i: nat, now: nat, page: Snapshot, env: Click.Platform)
    requires Valid(s) && i < |s.pending| && s.pending[i].GuardedClick?
    ensures Valid(FireGuardedClick(s, i, now, page, env))
  {
    var t := s.pending[i];
    assert TimerKeyOk(t);
    RemoveClickTimer(s.pending, s.retryTimers, s.watchers, i);
    var el := Target(t.name, page);
    if el.Some? {
      var ok := Click.ClickWithFallback(el, env).ok;
      GuardWriteKeepsSaves(s.saves, s.store, t.guardKey, Stamp(now));
      EffectsAppend(s.effects, t.guardKey, Stamp(now), ok);
      ClicksAppend(s.effects, t.guardKey, Stamp(now), ok);
      JoinAndGuardKeysDisjoint(t.guardKey);
    }
  }

  lemma ScheduleJoinValid(s: State, loc: Location, now: nat, page: Snapshot)
    requires Valid(s)
    ensures Valid(ScheduleJoin(s, loc, now, page))
  {
    var key := GuardKey(GCP_JOIN_KEY_PREFIX, loc);
    var meta := LoadMeta(s.store, key);
    if meta.clickCount < GCP_JOIN_MAX_CLICKS_PER_PAGE {
      var since := now - meta.lastClickTs;
      var cooldown := EffectiveCooldown(DetectWaitMessage(page.bodyText));
      if since < cooldown {
        if key !in s.retryTimers {
          SnocRetry(s.pending, s.retryTimers, s.watchers, key, now + (cooldown - since) + GCP_JOIN_RETRY_SLACK_MS);
        }
      } else if Target(Gcp, page).Some? {
        SnocClickTimer(s.pending, s.retryTimers, s.watchers, JoinClick(key, now + GCP_JOIN_DELAY_MS));
      }
    }
  }

  /** The retry timer has fired and its key left the retry map. */
  lemma RetryFiredValid(s: State, i: nat)
    requires Valid(s) && i < |s.pending| && s.pending[i].JoinRetry?
    ensures Valid(s.(pending := Seqs.RemoveAt(s.pending, i), retryTimers := s.retryTimers - {s.pending[i].metaKey}))
  {
    RemoveRetry(s.pending, s.retryTimers, s.watchers, i);
  }

  lemma FireJoinRetryValid(s: State, i: nat, loc: Location, now: nat, page: Snapshot)
    requires Valid(s) && i < |s.pending| && s.pending[i].JoinRetry?
    ensures Valid(FireJoinRetry(s, i, loc, now, page))
  {
    var k := s.pending[i].metaKey;
    RetryFiredValid(s, i);
    ScheduleJoinValid(s.(pending := Seqs.RemoveAt(s.pending, i), retryTimers := s.retryTimers - {k}), loc, now, page);
  }

  /** Saving the record read now plus one click, after the cooldown, extends
      the history of that key by one spaced entry. */
  lemma SaveKeepsSaves(saves: map<string, seq<JoinMeta>>, store: Sessions, k: string, saved: JoinMeta)
    requires SavesSpaced(saves, store) && IsJoinKey(k)
    requires Spaced(LoadMeta(store, k), saved)
    ensures SavesSpaced(saves[k := HistoryBefore(saves, k, LoadMeta(store, k)) + [saved]], SaveMeta(store, k, saved))
  {
    var h := HistoryBefore(saves, k, LoadMeta(store, k));
    var h' := h + [saved];
    var saves', store' := saves[k := h'], SaveMeta(store, k, saved);
    assert h[|h| - 1] == LoadMeta(store, k);
    forall j, n | j in saves' && 0 < n < |saves'[j]| ensures Spaced(saves'[j][n - 1], saves'[j][n]) {
      if j == k && n < |h| {
        assert h'[n - 1] == h[n - 1] && h'[n] == h[n];
      }
    }
  }

  /** The state after a join save is valid. */
  lemma JoinSaveValid(s: State, k: string, saved: JoinMeta, ok: bool)
    requires Valid(s)
    requires IsJoinKey(k) && Spaced(LoadMeta(s.store, k), saved)
    ensures Valid(RecordJoinClick(s, k, saved, ok))
  {
    SaveKeepsSaves(s.saves, s.store, k, saved);
    EffectsAppend(s.effects, k, Record(saved), ok);
    ClicksAppend(s.effects, k, Record(saved), ok);
  }

  lemma JoinCommitValid(s: State, k: string, saved: JoinMeta, ok: bool)
    requires Valid(s)
    requires IsJoinKey(k) && Spaced(LoadMeta(s.store, k), saved)
    ensures Valid(JoinCommit(s, k, saved, ok))
  {
    if !(k in s.store && s.store[k].Stamp?) {
      JoinSaveValid(s, k, saved, ok);
    }
  }

  lemma ClearRetryValid(s: State, k: string)
    requires Valid(s)
    ensures Valid(s.(pending := WithoutRetry(s.pending, k), retryTimers := s.retryTimers - {k}))
  {
    CancelRetry(s.pending, s.retryTimers, s.watchers, k);
  }

  /** The commit after the retry of its key was cancelled. */
  lemma ClearedCommitValid(s: State, k: string, saved: JoinMeta, ok: bool)
    requires Valid(s) && IsJoinKey(k) && Spaced(LoadMeta(s.store, k), saved)
    ensures Valid(ClearAndCommit(s, k, saved, ok))
  {
    ClearRetryValid(s, k);
    var cleared := s.(pending := WithoutRetry(s.pending, k), retryTimers := s.retryTimers - {k});
    assert LoadMeta(cleared.store, k) == LoadMeta(s.store, k);
    JoinCommitValid(cleared, k, saved, ok);
  }

  lemma JoinRecheckValid(s: State, k: string, now: nat, present: bool, ok: bool)
    requires Valid(s) && IsJoinKey(k)
    ensures Valid(JoinRecheck(s, k, now, present, ok))
  {
    if RecheckPasses(s.store, k, now, present) {
      var saved := JoinMeta(now, LoadMeta(s.store, k).clickCount + 1);
      ClearedCommitValid(s, k, saved, ok);
      ValidSame(ClearAndCommit(s, k, saved, ok), JoinRecheck(s, k, now, present, ok));
    } else {
      ValidSame(s, JoinRecheck(s, k, now, present, ok));
    }
  }

  lemma FireJoinClickValid(s: State, i: nat, now: nat, page: Snapshot, env: Click.Platform)
    requires Valid(s) && i < |s.pending| && s.pending[i].JoinClick?
    ensures Valid(FireJoinClick(s, i, now, page, env))
  {
    assert TimerKeyOk(s.pending[i]);
    RemoveClickTimer(s.pending, s.retryTimers, s.watchers, i);
    var el := Target(Gcp, page);
    JoinRecheckValid(s.(pending := Seqs.RemoveAt(s.pending, i), phase := At(Gcp, Recheck)),
                     s.pending[i].metaKey, now, el.Some?, Click.ClickWithFallback(el, env).ok);
  }

  lemma StartWatcherValid(s: State, name: PhaseName, guardKey: string, now: nat)
    requires Valid(s) && IsOneShotKey(guardKey)
    ensures Valid(StartWatcher(s, name, guardKey, now))
  {
    var w := Watcher(name, guardKey, true);
    StartTimeout(s.pending, s.retryTimers, s.watchers, w, now + OBSERVER_TIMEOUT_MS);
    var ws' := s.watchers + [w];
    forall j | 0 <= j < |s.found| ensures s.found[j] < |ws'| && !ws'[s.found[j]].active {
      assert ws'[s.found[j]] == s.watchers[s.found[j]];
    }
    forall j | 0 <= j < |ws'| ensures IsOneShotKey(ws'[j].guardKey) {
      if j < |s.watchers| { assert ws'[j] == s.watchers[j]; }
    }
  }

  lemma OnFoundValid(s: State, w: Watcher, loc: Location, now: nat, page: Snapshot)
    requires Valid(s) && IsOneShotKey(w.guardKey)
    ensures Valid(OnFound(s, w, loc, now, page))
  {
    match w.name
    case Gcp => ScheduleJoinValid(s, loc, now, page);
    case GcpResult => ScheduleResultValid(s, w.guardKey, now, page);
    case XOAuth => ScheduleAutoClickFixedValid(s, XOAuth, w.guardKey, X_FIXED_DELAY_MS, now);
  }

  /** Disconnecting a connected observer and recording its find keeps
      `onFound` at most once per observer. */
  lemma DisconnectKeepsFound(found: seq<nat>, ws: seq<Watcher>, w: nat)
    requires FoundOnce(found, ws) && w < |ws| && ws[w].active
    ensures FoundOnce(found + [w], ws[w := ws[w].(active := false)])
  {
    var ws' := ws[w := ws[w].(active := false)];
    var f' := found + [w];
    forall j | 0 <= j < |f'| ensures f'[j] < |ws'| && !ws'[f'[j]].active {
      if j < |found| { assert f'[j] == found[j]; }
    }
    forall a, b | 0 <= a < b < |f'| ensures f'[a] != f'[b] {
      if b < |found| {
        assert f'[a] == found[a] && f'[b] == found[b];
      } else {
        assert f'[a] == found[a];
      }
    }
  }

  /** A connected observer has found its target and disconnected. */
  lemma DisconnectValid(s: State, w: nat)
    requires Valid(s) && w < |s.watchers| && s.watchers[w].active
    ensures Valid(s.(watchers := s.watchers[w := s.watchers[w].(active := false)], found := s.found + [w]))
  {
    var ws' := s.watchers[w := s.watchers[w].(active := false)];
    DisconnectKeepsTimeouts(s.pending, s.watchers, w);
    DisconnectKeepsFound(s.found, s.watchers, w);
    assert WatcherKeys(ws') by {
      forall j | 0 <= j < |ws'| ensures IsOneShotKey(ws'[j].guardKey) {
        assert ws'[j].guardKey == s.watchers[j].guardKey;
      }
    }
  }

  lemma MutationValid(s: State, w: nat, loc: Location, now: nat, page: Snapshot)
    requires Valid(s)
    ensures Valid(Mutation(s, w, loc, now, page))
  {
    if w < |s.watchers| && s.watchers[w].active && Target(s.watchers[w].name, page).Some? {
      var ow := s.watchers[w];
      DisconnectValid(s, w);
      assert IsOneShotKey(ow.guardKey);
      OnFoundValid(s.(watchers := s.watchers[w := ow.(active := false)], found := s.found + [w]), ow, loc, now, page);
    }
  }

  lemma FireWatchTimeoutValid(s: State, i: nat)
    requires Valid(s) && i < |s.pending| && s.pending[i].WatchTimeout?
    ensures Valid(FireWatchTimeout(s, i))
  {
    var w := s.pending[i].watcher;
    RemoveTimeout(s.pending, s.retryTimers, s.watchers, i);
    var p' := Seqs.RemoveAt(s.pending, i);
    var ws' := s.watchers[w := s.watchers[w].(active := false)];
    if !s.watchers[w].active {
      assert ws' == s.watchers;
    } else {
      assert FoundOnce(s.found, ws') by {
        forall j | 0 <= j < |s.found| ensures s.found[j] < |ws'| && !ws'[s.found[j]].active {
          assert s.found[j] != w;
        }
      }
      assert WatcherKeys(ws') by {
        forall j | 0 <= j < |ws'| ensures IsOneShotKey(ws'[j].guardKey) {
          assert ws'[j].guardKey == s.watchers[j].guardKey;
        }
      }
    }
  }

  lemma RunPhaseValid(s: State, name: PhaseName, loc: Location, now: nat, page: Snapshot)
    requires Valid(s)
    ensures Valid(RunPhase(s, name, loc, now, page))
  {
    var begun := s.(phase := At(name, Begin));
    var found := Target(name, page).Some?;
    match name
    case Gcp =>
      if found { ScheduleJoinValid(begun, loc, now, page); }
      else { StartWatcherValid(begun, Gcp, GuardKey(GCP_GUARD_PREFIX, loc), now); }
    case GcpResult =>
      var key := GuardKey(GCP_RESULT_GUARD_PREFIX, loc);
      if found { ScheduleResultValid(begun, key, now, page); }
      else { StartWatcherValid(begun, GcpResult, key, now); }
    case XOAuth =>
      var key := GuardKey(X_GUARD_PREFIX, loc);
      if found { ScheduleAutoClickFixedValid(begun, XOAuth, key, X_FIXED_DELAY_MS, now); }
      else { StartWatcherValid(begun, XOAuth, key, now); }
  }

  lemma {:induction false} RunPhasesValid(s: State, names: seq<PhaseName>, loc: Location, now: nat, page: Snapshot)
    requires Valid(s)
    ensures Valid(RunPhases(s, names, loc, now, page))
    decreases |names|
  {
    if names != [] {
      RunPhaseValid(s, names[0], loc, now, page);
      RunPhasesValid(RunPhase(s, names[0], loc, now, page), names[1..], loc, now, page);
    }
  }

  lemma MainValid(s: State, loc: Location, now: nat, page: Snapshot)
    requires Valid(s)
    ensures Valid(Main(s, loc, now, page))
  {
    RunPhasesValid(s.(phase := MainPhase, attempts := 0), Route(loc), loc, now, page);
  }

  lemma ManualRunValid(s: State, force: bool, loc: Location, now: nat, page: Snapshot)
    requires Valid(s)
    ensures Valid(ManualRun(s, force, loc, now, page))
  {
    if ManualRunVerdict(s.guardKey, s.store, force, DEBUG) == Proceed {
      MainValid(s, loc, now, page);
    }
  }
}
