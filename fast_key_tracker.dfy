/**
 * The key-combination tracker as an object whose methods update its fields in
 * place. Each state-changing method is proved to move the object's state
 * exactly as the matching function says: a function of TrackerSpec, or
 * `Combinations.Register` for `AddCombination`. `GetStats` and
 * `CollectStuckKeys` change nothing.
 */
module FastKeyTracking {
  import opened Wrappers
  import opened Keys
  import opened Combinations
  import opened TrackerSpec

  class FastKeyTracker {
    const combinationTimeout: int
    const maxKeyHoldTime: int

    var keyStates: map<Key, int>          // held key -> press time
    var combinations: Table               // name -> key set, in registration order
    var combinationStartTime: Option<int>
    var lastActivity: int
    var stats: Stats

    function Cfg(): Config {
      Config(combinationTimeout, maxKeyHoldTime)
    }

    function State(): Tracker
      reads this
    {
      Tracker(keyStates, combinationStartTime, lastActivity, stats)
    }

    ghost predicate Valid()
      reads this
    {
      Inv(State()) && WellFormed(combinations)
    }

    constructor (combinationTimeout: int, maxKeyHoldTime: int, now: int)
      ensures Valid()
      ensures Cfg() == Config(combinationTimeout, maxKeyHoldTime)
      ensures State() == Initial(now) && combinations == []
    {
      this.combinationTimeout := combinationTimeout;
      this.maxKeyHoldTime := maxKeyHoldTime;
      keyStates := map[];
      combinations := [];
      combinationStartTime := None;
      lastActivity := now;
      stats := Stats(0, 0, 0, 0);
    }

    /** Registers `keys` under `name` unless the set is empty or a lone modifier. */
    method AddCombination(name: string, keys: seq<Key>) returns (ok: bool)
      requires Valid()
      modifies this`combinations
      ensures Valid()
      ensures ok == Acceptable(set k | k in keys)
      ensures combinations == Register(old(combinations), name, keys)
    {
      var keySet := set k | k in keys;
      if keySet == {} {
        return false;
      }
      if |keySet| == 1 && keySet <= {Ctrl, Shift, Alt} {
        return false;
      }
      PutKeepsWellFormed(combinations, name, keySet);
      combinations := Put(combinations, name, keySet);
      return true;
    }

    method OnKeyPress(key: Key, now: int) returns (matched: Option<string>)
      requires Valid()
      modifies this`keyStates, this`combinationStartTime, this`lastActivity, this`stats
      ensures Valid()
      ensures PressResult(State(), matched) == Press(Cfg(), combinations, old(State()), key, now)
    {
      ghost var s0 := State();
      stats := stats.(totalKeyPresses := stats.totalKeyPresses + 1);
      assert State() == Counted(s0);
      CleanupStuckKeys(now);
      ghost var swept := State();
      if keyStates == map[] {
        combinationStartTime := Some(now);
      } else if TimerRunning(combinationStartTime) && now - combinationStartTime.value > combinationTimeout {
        stats := stats.(combinationsTimeout := stats.combinationsTimeout + 1);
        keyStates := map[];
        combinationStartTime := Some(now);
      }
      assert State() == StartAttempt(Cfg(), swept, now);
      keyStates := keyStates[key := now];
      lastActivity := now;
      assert State() == Admit(Cfg(), s0, key, now);
      assert key in keyStates && combinationStartTime.Some?;
      matched := CheckCombinations();
    }

    method OnKeyRelease(key: Key, now: int)
      requires Valid()
      modifies this`keyStates, this`combinationStartTime, this`lastActivity
      ensures Valid()
      ensures State() == Release(old(State()), key, now)
    {
      ReleaseForgetsKey(State(), key, now);
      if key in keyStates {
        keyStates := keyStates - {key};
        lastActivity := now;
        if keyStates == map[] {
          combinationStartTime := None;
        }
      }
    }

    /** Looks the held set up in the table, in table order; a match resets the attempt. */
    method CheckCombinations() returns (matched: Option<string>)
      requires Valid()
      modifies this`keyStates, this`combinationStartTime, this`stats
      ensures Valid()
      ensures PressResult(State(), matched) == Match(combinations, old(State()))
    {
      MatchIsFirstExact(combinations, State());
      var current := keyStates.Keys;
      if current == {} {
        assert keyStates == map[];
        return None;
      }
      var i := 0;
      while i < |combinations|
        invariant 0 <= i <= |combinations|
        invariant NoneBefore(combinations, current, i)
      {
        if combinations[i].keys == current {
          FirstMatchAt(combinations, current, i);
          stats := stats.(combinationsDetected := stats.combinationsDetected + 1);
          keyStates := map[];
          combinationStartTime := None;
          return Some(combinations[i].name);
        }
        i := i + 1;
      }
      return None;
    }

    /** The first pass of the cleanup: the held keys pressed more than the hold limit ago. */
    method CollectStuckKeys(now: int) returns (stuck: set<Key>)
      ensures stuck == StuckKeys(keyStates, now, maxKeyHoldTime)
      ensures forall k :: k in stuck <==> k in keyStates && now - keyStates[k] > maxKeyHoldTime
    {
      stuck := {};
      var pending := keyStates.Keys;
      while pending != {}
        invariant pending <= keyStates.Keys
        invariant stuck == StuckKeys(keyStates, now, maxKeyHoldTime) - pending
        decreases pending
      {
        var k :| k in pending;
        if now - keyStates[k] > maxKeyHoldTime {
          stuck := stuck + {k};
        }
        pending := pending - {k};
      }
    }

    /** Collects the keys held too long, then deletes them one by one. */
    method CleanupStuckKeys(now: int)
      modifies this`keyStates, this`combinationStartTime, this`stats
      ensures State() == Sweep(Cfg(), old(State()), now)
    {
      ghost var s0 := State();
      var stuck := CollectStuckKeys(now);
      if stuck != {} {
        stats := stats.(stuckKeysCleaned := stats.stuckKeysCleaned + |stuck|);
        var toDelete := stuck;
        while toDelete != {}
          invariant toDelete <= stuck
          invariant keyStates == s0.held - (stuck - toDelete)
          invariant combinationStartTime == s0.start && lastActivity == s0.lastActivity
          invariant stats == s0.stats.(stuckKeysCleaned := s0.stats.stuckKeysCleaned + |stuck|)
          decreases toDelete
        {
          var k :| k in toDelete;
          keyStates := keyStates - {k};
          toDelete := toDelete - {k};
        }
        assert keyStates == s0.held - stuck by {
          assert stuck - toDelete == stuck;
        }
        if keyStates == map[] {
          combinationStartTime := None;
        }
      }
    }

    method ForceReset(now: int)
      requires Valid()
      modifies this`keyStates, this`combinationStartTime, this`lastActivity
      ensures Valid()
      ensures State() == TrackerSpec.ForceReset(old(State()), now)
    {
      if keyStates != map[] {
        keyStates := map[];
      }
      combinationStartTime := None;
      lastActivity := now;
    }

    method GetStats() returns (snapshot: Stats)
      ensures snapshot == stats
    {
      snapshot := stats;
    }

    /** The body of one watchdog tick (the timer that re-arms it is not modelled). */
    method Monitor(now: int)
      requires Valid()
      modifies this`keyStates, this`combinationStartTime, this`lastActivity, this`stats
      ensures Valid()
      ensures State() == Tick(Cfg(), old(State()), now)
    {
      TickBounds(Cfg(), State(), now);
      SweepEvictsStuckKeys(Cfg(), State(), now);
      CleanupStuckKeys(now);
      if now - lastActivity > InactivityLimit && keyStates != map[] {
        ForceReset(now);
      }
    }
  }
}
