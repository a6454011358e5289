/**
 * The state of the key-combination tracker as a value, and the effect of each
 * of its operations as a function of the old state. Times are integer ticks of
 * one millisecond, supplied by the caller as `now`.
 */
module TrackerSpec {
  import opened Wrappers
  import opened Keys
  import opened Combinations

  /** Inactivity (5.0 seconds) after which a tick resets a tracker that still holds keys. */
  const InactivityLimit: int := 5000

  /** combination_timeout and max_key_hold_time, in ticks. */
  datatype Config = Config(combinationTimeout: int, maxKeyHoldTime: int)

  /** The configuration used when the settings file does not give one (0.8 s and 2.0 s). */
  const DefaultConfig: Config := Config(800, 2000)

  datatype Stats = Stats(
    totalKeyPresses: nat,
    combinationsDetected: nat,
    combinationsTimeout: nat,
    stuckKeysCleaned: nat)

  /** Every counter of `b` is at least the matching counter of `a`. */
  predicate StatsGrow(a: Stats, b: Stats) {
    && a.totalKeyPresses <= b.totalKeyPresses
    && a.combinationsDetected <= b.combinationsDetected
    && a.combinationsTimeout <= b.combinationsTimeout
    && a.stuckKeysCleaned <= b.stuckKeysCleaned
  }

  /**
   * held: each held key with the time it was pressed; start: the start of the
   * current attempt; lastActivity: the time of the last press, release or reset.
   */
  datatype Tracker = Tracker(held: map<Key, int>, start: Option<int>, lastActivity: int, stats: Stats)

  /** The attempt timer is set exactly when some key is held. */
  predicate Inv(s: Tracker) {
    s.start.Some? <==> s.held != map[]
  }

  /** The outcome of a press: the new state and the name of the combination matched, if any. */
  datatype PressResult = PressResult(after: Tracker, matched: Option<string>)

  function Initial(now: int): (r: Tracker)
    ensures Inv(r) && r.held == map[] && r.lastActivity == now
    ensures r.stats == Stats(0, 0, 0, 0)
  {
    Tracker(map[], None, now, Stats(0, 0, 0, 0))
  }

  /**
   * The timeout test reads the start time by truthiness, so a start time of
   * exactly 0 counts as no running attempt.
   */
  predicate TimerRunning(start: Option<int>) {
    start.Some? && start.value != 0
  }

  /** The held keys pressed more than `maxKeyHoldTime` ticks before `now`. */
  function StuckKeys(held: map<Key, int>, now: int, maxKeyHoldTime: int): set<Key> {
    set k | k in held && now - held[k] > maxKeyHoldTime
  }

  lemma RemoveKeysCard(m: map<Key, int>, ks: set<Key>)
    requires ks <= m.Keys
    ensures |m - ks| + |ks| == |m|
  {
    assert (m - ks).Keys == m.Keys - ks;
    assert m.Keys - ks + ks == m.Keys;
  }

  /**
   * The stuck-key sweep: when some held key is older than the hold limit, all
   * such keys are dropped and counted, and the timer stops if nothing is left.
   */
  function Sweep(cfg: Config, s: Tracker, now: int): (r: Tracker)
    ensures r.held.Keys <= s.held.Keys
    ensures r.lastActivity == s.lastActivity
    ensures StatsGrow(s.stats, r.stats)
  {
    var stuck := StuckKeys(s.held, now, cfg.maxKeyHoldTime);
    if stuck == {} then
      s
    else
      var held := s.held - stuck;
      s.(held := held,
         start := if held == map[] then None else s.start,
         stats := s.stats.(stuckKeysCleaned := s.stats.stuckKeysCleaned + |stuck|))
  }

  /**
   * The sweep keeps exactly the keys held no longer than the limit, with their
   * times, counts each key it drops once, and keeps the timer invariant.
   */
  lemma SweepEvictsStuckKeys(cfg: Config, s: Tracker, now: int)
    ensures var r := Sweep(cfg, s, now);
      && (forall k :: k in r.held <==> k in s.held && now - s.held[k] <= cfg.maxKeyHoldTime)
      && (forall k :: k in r.held ==> r.held[k] == s.held[k])
      && |r.held| + |StuckKeys(s.held, now, cfg.maxKeyHoldTime)| == |s.held|
      && r.stats == s.stats.(stuckKeysCleaned :=
           s.stats.stuckKeysCleaned + |StuckKeys(s.held, now, cfg.maxKeyHoldTime)|)
      && r.lastActivity == s.lastActivity
      && r.start == (if r.held == map[] && StuckKeys(s.held, now, cfg.maxKeyHoldTime) != {} then None else s.start)
      && (Inv(s) ==> Inv(r))
  {
    var stuck := StuckKeys(s.held, now, cfg.maxKeyHoldTime);
    RemoveKeysCard(s.held, stuck);
    if stuck == {} {
      assert s.held - stuck == s.held;
    }
  }

  /** The running attempt began more than the combination timeout before `now`. */
  predicate Expired(cfg: Config, s: Tracker, now: int) {
    TimerRunning(s.start) && now - s.start.value > cfg.combinationTimeout
  }

  /** After the sweep of a press, keys are still held and the current attempt is older than the timeout. */
  predicate AttemptTimedOut(cfg: Config, s: Tracker, now: int) {
    var swept := Sweep(cfg, s, now);
    swept.held != map[] && Expired(cfg, swept, now)
  }

  /**
   * Steps 3 and 4 of a press, on the swept state: an empty state starts a new
   * attempt at `now`; an attempt older than the timeout is abandoned and
   * restarted at `now`.
   */
  function StartAttempt(cfg: Config, swept: Tracker, now: int): (r: Tracker)
    ensures Inv(swept) ==> r.start.Some?
    ensures r.held == map[] || r.held == swept.held
    ensures swept.held == map[] ==> r == swept.(start := Some(now))
    ensures swept.held != map[] && Expired(cfg, swept, now) ==>
      r.held == map[] && r.start == Some(now)
      && r.stats.combinationsTimeout == swept.stats.combinationsTimeout + 1
    ensures swept.held != map[] && !Expired(cfg, swept, now) ==> r == swept
    ensures r.lastActivity == swept.lastActivity
  {
    if swept.held == map[] then
      swept.(start := Some(now))
    else if Expired(cfg, swept, now) then
      swept.(held := map[], start := Some(now),
             stats := swept.stats.(combinationsTimeout := swept.stats.combinationsTimeout + 1))
    else
      swept
  }

  /** The state after counting a press and before sweeping. */
  function Counted(s: Tracker): Tracker {
    s.(stats := s.stats.(totalKeyPresses := s.stats.totalKeyPresses + 1))
  }

  /**
   * A press up to, but not including, the match check: count it, sweep, start
   * a new attempt or abandon a timed-out one, then record the key.
   */
  function Admit(cfg: Config, s: Tracker, key: Key, now: int): (r: Tracker)
    ensures key in r.held && r.held[key] == now
    ensures r.lastActivity == now
  {
    var started := StartAttempt(cfg, Sweep(cfg, Counted(s), now), now);
    started.(held := started.held[key := now], lastActivity := now)
  }

  /**
   * Admission records the key at `now`, keeps only unexpired earlier keys with
   * their times, counts the press, and counts a timeout exactly when the
   * current attempt has expired, in which case the key starts a new attempt alone.
   */
  lemma AdmitRecordsKey(cfg: Config, s: Tracker, key: Key, now: int)
    ensures var r := Admit(cfg, s, key, now);
      && key in r.held && r.held[key] == now && r.lastActivity == now
      && (forall k :: k in r.held && k != key ==>
            k in s.held && r.held[k] == s.held[k] && now - s.held[k] <= cfg.maxKeyHoldTime)
      && (AttemptTimedOut(cfg, s, now) ==>
            r.held == map[key := now] && r.start == Some(now)
            && r.stats.combinationsTimeout == s.stats.combinationsTimeout + 1)
      && (!AttemptTimedOut(cfg, s, now) ==>
            r.held == Sweep(cfg, s, now).held[key := now]
            && r.stats.combinationsTimeout == s.stats.combinationsTimeout)
      && (Sweep(cfg, s, now).held == map[] ==> r.start == Some(now))
      && (Sweep(cfg, s, now).held != map[] && !AttemptTimedOut(cfg, s, now) ==> r.start == s.start)
      && r.stats.totalKeyPresses == s.stats.totalKeyPresses + 1
      && r.stats.combinationsDetected == s.stats.combinationsDetected
      && r.stats.stuckKeysCleaned == Sweep(cfg, s, now).stats.stuckKeysCleaned
      && StatsGrow(s.stats, r.stats)
      && (Inv(s) ==> Inv(r))
  {
    var counted := Counted(s);
    var swept := Sweep(cfg, counted, now);
    SweepEvictsStuckKeys(cfg, s, now);
    SweepEvictsStuckKeys(cfg, counted, now);
    assert StuckKeys(counted.held, now, cfg.maxKeyHoldTime) == StuckKeys(s.held, now, cfg.maxKeyHoldTime);
    assert swept.held == Sweep(cfg, s, now).held && swept.start == Sweep(cfg, s, now).start;
  }

  /**
   * The exact-set match check: an empty held set never matches; otherwise the
   * first table entry whose set equals the held set wins, and a match clears
   * the held keys and the timer.
   */
  function Match(t: Table, s: Tracker): (r: PressResult)
    ensures r.matched.None? ==> r.after == s
    ensures r.matched.Some? ==> r.after.held == map[] && r.after.start == None
  {
    if s.held == map[] then
      PressResult(s, None)
    else
      match FirstMatch(t, s.held.Keys)
      case None => PressResult(s, None)
      case Some(name) =>
        PressResult(s.(held := map[], start := None,
                       stats := s.stats.(combinationsDetected := s.stats.combinationsDetected + 1)),
                    Some(name))
  }

  /**
   * The match check reports a name exactly when something is held and some
   * entry's set equals the held set, and then the first such entry's name; a
   * match counts one detection and ends the attempt, no match changes nothing.
   */
  lemma MatchIsFirstExact(t: Table, s: Tracker)
    ensures var r := Match(t, s);
      && (r.matched.None? <==> s.held == map[] || forall i :: 0 <= i < |t| ==> t[i].keys != s.held.Keys)
      && (r.matched.Some? ==>
            exists i :: 0 <= i < |t| && t[i] == Combination(r.matched.value, s.held.Keys) && NoneBefore(t, s.held.Keys, i))
      && (r.matched.Some? ==>
            r.after == s.(held := map[], start := None,
                          stats := s.stats.(combinationsDetected := s.stats.combinationsDetected + 1)))
      && (r.matched.None? ==> r.after == s)
      && StatsGrow(s.stats, r.after.stats)
      && (Inv(s) ==> Inv(r.after))
  {
    if s.held != map[] {
      assert s.held.Keys != {} by {
        var k :| k in s.held;
      }
    }
  }

  /** A full key press: admission, then the match check. */
  function Press(cfg: Config, t: Table, s: Tracker, key: Key, now: int): (r: PressResult)
    ensures r.matched.None? ==> key in r.after.held && r.after.held[key] == now
    ensures r.matched.Some? ==> r.after.held == map[]
  {
    Match(t, Admit(cfg, s, key, now))
  }

  /**
   * A press counts itself and lowers no counter, keeps the timer invariant,
   * ends the attempt on a match (whose registered set, with unique names,
   * holds the key just pressed), and otherwise leaves the key held at `now`.
   */
  lemma PressOutcome(cfg: Config, t: Table, s: Tracker, key: Key, now: int)
    ensures var r := Press(cfg, t, s, key, now);
      && r.after.stats.totalKeyPresses == s.stats.totalKeyPresses + 1
      && StatsGrow(s.stats, r.after.stats)
      && (Inv(s) ==> Inv(r.after))
      && (r.matched.Some? ==> r.after.held == map[] && r.after.start == None)
      && (UniqueNames(t) && r.matched.Some? ==>
            Lookup(t, r.matched.value).Some? && key in Lookup(t, r.matched.value).value)
      && (r.matched.None? ==> key in r.after.held && r.after.held[key] == now && r.after.lastActivity == now)
      && (r.matched.None? && Sweep(cfg, s, now).held != map[] && !AttemptTimedOut(cfg, s, now) ==>
            r.after.start == s.start)
  {
    var admitted := Admit(cfg, s, key, now);
    var r := Match(t, admitted);
    AdmitRecordsKey(cfg, s, key, now);
    MatchIsFirstExact(t, admitted);
    if UniqueNames(t) && r.matched.Some? {
      MatchIsExact(t, admitted.held.Keys, r.matched.value);
    }
  }

  /** A key release: forget the key if held; releasing the last key stops the timer. */
  function Release(s: Tracker, key: Key, now: int): (r: Tracker)
    ensures key !in r.held
    ensures r.stats == s.stats
  {
    if key in s.held then
      var held := s.held - {key};
      s.(held := held, lastActivity := now, start := if held == map[] then None else s.start)
    else
      s
  }

  /**
   * A release forgets the key and keeps every other key with its time; it
   * changes nothing when the key was not held, never touches the counters,
   * and stops the timer when the last key goes.
   */
  lemma ReleaseForgetsKey(s: Tracker, key: Key, now: int)
    ensures var r := Release(s, key, now);
      && key !in r.held
      && (forall k :: k != key ==> (k in r.held <==> k in s.held))
      && (forall k :: k in r.held ==> r.held[k] == s.held[k])
      && (key !in s.held ==> r == s)
      && (key in s.held ==> r.lastActivity == now)
      && (r.held == map[] && key in s.held ==> r.start == None)
      && (r.held != map[] ==> r.start == s.start)
      && r.stats == s.stats
      && (Inv(s) ==> Inv(r))
  {
  }

  /** Forced reset: nothing held, no attempt, activity now; counters untouched. */
  function ForceReset(s: Tracker, now: int): (r: Tracker)
    ensures r.held == map[] && r.start == None && r.lastActivity == now
    ensures r.stats == s.stats
    ensures Inv(r)
  {
    s.(held := map[], start := None, lastActivity := now)
  }

  /** One watchdog tick: the sweep, then a forced reset after long inactivity with keys still held. */
  function Tick(cfg: Config, s: Tracker, now: int): (r: Tracker)
    ensures r.held.Keys <= s.held.Keys
    ensures now - s.lastActivity > InactivityLimit ==> r.held == map[]
  {
    var swept := Sweep(cfg, s, now);
    if now - swept.lastActivity > InactivityLimit && swept.held != map[] then
      ForceReset(swept, now)
    else
      swept
  }

  /**
   * After a tick no key is older than the hold limit and every key kept has
   * its time; after more than the inactivity limit nothing is held; counters
   * change only by the sweep's count.
   */
  lemma TickBounds(cfg: Config, s: Tracker, now: int)
    ensures var r := Tick(cfg, s, now);
      && r.stats == Sweep(cfg, s, now).stats
      && StatsGrow(s.stats, r.stats)
      && (forall k :: k in r.held ==> k in s.held && r.held[k] == s.held[k])
      && (forall k :: k in r.held ==> now - r.held[k] <= cfg.maxKeyHoldTime)
      && (now - s.lastActivity > InactivityLimit ==> r.held == map[])
      && (now - s.lastActivity <= InactivityLimit ==> r == Sweep(cfg, s, now))
      && (Inv(s) ==> Inv(r))
  {
    SweepEvictsStuckKeys(cfg, s, now);
  }

  /** The tick the tracker runs as soon as it is built leaves the initial state as it is. */
  lemma FirstTickIsNoOp(cfg: Config, now: int)
    ensures Tick(cfg, Initial(now), now) == Initial(now)
  {
  }

  lemma ForceResetIdempotent(s: Tracker, now: int)
    ensures ForceReset(ForceReset(s, now), now) == ForceReset(s, now)
  {
  }

  /** The events that reach the tracker once its table is built. */
  datatype Event =
    | KeyPress(key: Key, time: int)
    | KeyRelease(key: Key, time: int)
    | MonitorTick(time: int)
    | Reset(time: int)

  function Step(cfg: Config, t: Table, s: Tracker, e: Event): Tracker {
    match e
    case KeyPress(k, now) => Press(cfg, t, s, k, now).after
    case KeyRelease(k, now) => Release(s, k, now)
    case MonitorTick(now) => Tick(cfg, s, now)
    case Reset(now) => ForceReset(s, now)
  }

  function Run(cfg: Config, t: Table, s: Tracker, events: seq<Event>): Tracker
    decreases |events|
  {
    if events == [] then s else Run(cfg, t, Step(cfg, t, s, events[0]), events[1..])
  }

  /** Every event keeps the timer invariant and lowers no counter. */
  lemma StepPreserves(cfg: Config, t: Table, s: Tracker, e: Event)
    requires Inv(s)
    ensures Inv(Step(cfg, t, s, e))
    ensures StatsGrow(s.stats, Step(cfg, t, s, e).stats)
  {
    match e
    case KeyPress(k, now) => PressOutcome(cfg, t, s, k, now);
    case KeyRelease(k, now) => ReleaseForgetsKey(s, k, now);
    case MonitorTick(now) => TickBounds(cfg, s, now);
    case Reset(now) =>
  }

  /** Over any sequence of events the timer invariant holds and no counter goes down. */
  lemma {:induction false} RunPreserves(cfg: Config, t: Table, s: Tracker, events: seq<Event>)
    requires Inv(s)
    ensures Inv(Run(cfg, t, s, events))
    ensures StatsGrow(s.stats, Run(cfg, t, s, events).stats)
    decreases |events|
  {
    if events != [] {
      var next := Step(cfg, t, s, events[0]);
      StepPreserves(cfg, t, s, events[0]);
      RunPreserves(cfg, t, next, events[1..]);
    }
  }
}
