/**
  The session store as the schedulers use it: one-shot guards (any truthy
  value), and the per-page join record `{lastClickTs, clickCount}` that
  `loadMeta` reads and `saveMeta` writes.  Also the refusal logic of the
  manual run.
*/
module Store {
  import opened Wrappers
  import opened Config

  /** The join record. */
  datatype JoinMeta = JoinMeta(lastClickTs: int, clickCount: int)

  /** A stored string, by what `JSON.parse` makes of it: a decimal time stamp
      (what a guard write stores), a join record, or text that is empty or
      that `JSON.parse` rejects. */
  datatype Stored = Stamp(ms: nat) | Record(meta: JoinMeta) | Malformed(raw: string)

  type Sessions = map<string, Stored>

  /** `sessionStorage.getItem(key)` is truthy: present and not the empty string. */
  predicate GuardHit(store: Sessions, key: string)
  {
    key in store && store[key] != Malformed("")
  }

  const DEFAULT_META := JoinMeta(0, 0)

  /** `loadMeta()`: the stored record; the default when the key is absent or
      empty, when the text does not parse, and when it parses to a number,
      whose missing fields compare and default exactly as the zero record. */
  function LoadMeta(store: Sessions, key: string): JoinMeta
  {
    if key !in store then DEFAULT_META
    else match store[key]
      case Record(m) => m
      case Stamp(_) => DEFAULT_META
      case Malformed(_) => DEFAULT_META
  }

  /** `saveMeta(m)`. */
  function SaveMeta(store: Sessions, key: string, m: JoinMeta): (r: Sessions)
    ensures key in r && GuardHit(r, key)
    ensures forall k :: k != key ==> (k in r <==> k in store) && (k in r ==> r[k] == store[k])
  {
    store[key := Record(m)]
  }

  /** An absent or unreadable record reads as `{lastClickTs: 0, clickCount: 0}`. */
  lemma LoadMetaDefaults(store: Sessions, key: string)
    ensures key !in store ==> LoadMeta(store, key) == JoinMeta(0, 0)
    ensures key in store && store[key].Malformed? ==> LoadMeta(store, key) == JoinMeta(0, 0)
    ensures !GuardHit(store, key) ==> LoadMeta(store, key) == JoinMeta(0, 0)
  {
  }

  /** What `saveMeta` writes, `loadMeta` reads back, and no other key's record moves. */
  lemma SaveLoadRoundTrip(store: Sessions, key: string, m: JoinMeta, other: string)
    ensures LoadMeta(SaveMeta(store, key, m), key) == m
    ensures other != key ==> LoadMeta(SaveMeta(store, key, m), other) == LoadMeta(store, other)
  {
  }

  /** The cooldown the join scheduler applies: `Math.max(7000, 10000)` while a
      wait message is shown, 7000 otherwise. */
  function EffectiveCooldown(hasWaitMessage: bool): nat
  {
    if hasWaitMessage then Max(GCP_JOIN_RETRY_COOLDOWN_MS, GCP_JOIN_WAIT_COOLDOWN_MS)
    else GCP_JOIN_RETRY_COOLDOWN_MS
  }

  function Max(a: nat, b: nat): nat
  {
    if a < b then b else a
  }

  lemma EffectiveCooldownValues(hasWaitMessage: bool)
    ensures EffectiveCooldown(hasWaitMessage) == (if hasWaitMessage then 10000 else 7000)
    ensures EffectiveCooldown(hasWaitMessage) >= GCP_JOIN_RETRY_COOLDOWN_MS
  {
  }

  // ----- tmAutoClickRun -----

  datatype Verdict = RefusedGuarded | RefusedForceIgnored | Proceed

  /** `tmAutoClickRun({force})`: refused while the last guard is present unless
      forced; a forced run is refused when debugging is off; otherwise `main`
      runs again. */
  function ManualRunVerdict(guardKey: Option<string>, store: Sessions, force: bool, debug: bool): (v: Verdict)
    ensures v == RefusedGuarded <==> guardKey.Some? && GuardHit(store, guardKey.value) && !force
    ensures v == RefusedForceIgnored <==> force && !debug
    ensures v == Proceed <==> (!force && !(guardKey.Some? && GuardHit(store, guardKey.value)))
                              || (force && debug)
  {
    if guardKey.Some? && GuardHit(store, guardKey.value) && !force then RefusedGuarded
    else if force && !debug then RefusedForceIgnored
    else Proceed
  }

  /** With debugging on, as configured, a forced run always proceeds and an
      unforced one proceeds exactly when no guard was hit. */
  lemma ManualRunAsConfigured(guardKey: Option<string>, store: Sessions, force: bool)
    ensures force ==> ManualRunVerdict(guardKey, store, force, DEBUG) == Proceed
    ensures !force ==> (ManualRunVerdict(guardKey, store, force, DEBUG) == Proceed
                        <==> guardKey.None? || !GuardHit(store, guardKey.value))
  {
  }
}
