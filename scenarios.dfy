/**
 * Consequences of the tracker's specification over several events: how a
 * timed-out attempt restarts, how stuck keys disappear, and the behaviour of
 * the default settings on short key sequences.
 */
module Scenarios {
  import opened Wrappers
  import opened Keys
  import opened Combinations
  import opened TrackerSpec
  import opened KeyParsing

  /**
   * Two presses further apart than the combination timeout (and closer than
   * the hold limit) count one timeout, and the second key starts a fresh
   * attempt on its own.
   */
  lemma TimeoutRestartsAttempt(cfg: Config, t: Table, s: Tracker, k1: Key, t0: int, k2: Key, t1: int)
    requires s.held == map[] && t0 != 0
    requires cfg.combinationTimeout < t1 - t0 <= cfg.maxKeyHoldTime
    requires Press(cfg, t, s, k1, t0).matched.None?
    ensures Press(cfg, t, Press(cfg, t, s, k1, t0).after, k2, t1).after.stats.combinationsTimeout
            == s.stats.combinationsTimeout + 1
    ensures Press(cfg, t, Press(cfg, t, s, k1, t0).after, k2, t1).matched.None? ==>
            Press(cfg, t, Press(cfg, t, s, k1, t0).after, k2, t1).after.held == map[k2 := t1]
  {
    var first := Press(cfg, t, s, k1, t0).after;
    SweepEvictsStuckKeys(cfg, s, t0);
    AdmitRecordsKey(cfg, s, k1, t0);
    MatchIsFirstExact(t, Admit(cfg, s, k1, t0));
    assert Sweep(cfg, s, t0).held == map[];
    assert first == Admit(cfg, s, k1, t0);
    assert first.held == map[k1 := t0] && first.start == Some(t0);
    var swept := Sweep(cfg, first, t1);
    SweepEvictsStuckKeys(cfg, first, t1);
    assert swept.held == first.held && swept.start == Some(t0);
    assert AttemptTimedOut(cfg, first, t1);
    var second := Admit(cfg, first, k2, t1);
    AdmitRecordsKey(cfg, first, k2, t1);
    MatchIsFirstExact(t, second);
    assert second.held == map[k2 := t1];
  }

  /**
   * The timeout is measured from the first key of the attempt, not from the
   * latest press: three presses, each within the timeout of the one before
   * but the last more than the timeout after the first, count one timeout,
   * and the third key starts a fresh attempt on its own.
   */
  lemma TimeoutCountsFromFirstKey(cfg: Config, t: Table, s: Tracker,
                                  k1: Key, t0: int, k2: Key, t1: int, k3: Key, t2: int)
    requires s.held == map[] && t0 != 0
    requires 0 <= t1 - t0 <= cfg.combinationTimeout
    requires t2 - t1 <= cfg.combinationTimeout < t2 - t0 <= cfg.maxKeyHoldTime
    requires Press(cfg, t, s, k1, t0).matched.None?
    requires Press(cfg, t, Press(cfg, t, s, k1, t0).after, k2, t1).matched.None?
    ensures
      var second := Press(cfg, t, Press(cfg, t, s, k1, t0).after, k2, t1).after;
      var third := Press(cfg, t, second, k3, t2);
      && third.after.stats.combinationsTimeout == s.stats.combinationsTimeout + 1
      && (third.matched.None? ==> third.after.held == map[k3 := t2])
  {
    var first := Press(cfg, t, s, k1, t0).after;
    FirstPressStartsAttempt(cfg, t, s, k1, t0);
    var second := Press(cfg, t, first, k2, t1).after;
    SecondPressKeepsStart(cfg, t, first, k1, t0, k2, t1);
    var third := Press(cfg, t, second, k3, t2);
    ThirdPressTimesOut(cfg, t, second, t0, k3, t2);
  }

  lemma FirstPressStartsAttempt(cfg: Config, t: Table, s: Tracker, k1: Key, t0: int)
    requires s.held == map[]
    requires Press(cfg, t, s, k1, t0).matched.None?
    ensures Press(cfg, t, s, k1, t0).after.held == map[k1 := t0]
    ensures Press(cfg, t, s, k1, t0).after.start == Some(t0)
    ensures Press(cfg, t, s, k1, t0).after.stats.combinationsTimeout == s.stats.combinationsTimeout
  {
    SweepEvictsStuckKeys(cfg, s, t0);
    AdmitRecordsKey(cfg, s, k1, t0);
    MatchIsFirstExact(t, Admit(cfg, s, k1, t0));
  }

  lemma SecondPressKeepsStart(cfg: Config, t: Table, first: Tracker, k1: Key, t0: int, k2: Key, t1: int)
    requires first.held == map[k1 := t0] && first.start == Some(t0) && t0 != 0
    requires 0 <= t1 - t0 <= cfg.combinationTimeout && t1 - t0 <= cfg.maxKeyHoldTime
    requires Press(cfg, t, first, k2, t1).matched.None?
    ensures Press(cfg, t, first, k2, t1).after.start == Some(t0)
    ensures Press(cfg, t, first, k2, t1).after.held == map[k1 := t0][k2 := t1]
    ensures Press(cfg, t, first, k2, t1).after.stats.combinationsTimeout == first.stats.combinationsTimeout
  {
    SweepEvictsStuckKeys(cfg, first, t1);
    assert Sweep(cfg, first, t1).held == first.held;
    assert !AttemptTimedOut(cfg, first, t1);
    AdmitRecordsKey(cfg, first, k2, t1);
    MatchIsFirstExact(t, Admit(cfg, first, k2, t1));
  }

  lemma ThirdPressTimesOut(cfg: Config, t: Table, second: Tracker, t0: int, k3: Key, t2: int)
    requires second.held != map[] && second.start == Some(t0) && t0 != 0
    requires forall k :: k in second.held ==> t0 <= second.held[k]
    requires cfg.combinationTimeout < t2 - t0 <= cfg.maxKeyHoldTime
    ensures Press(cfg, t, second, k3, t2).after.stats.combinationsTimeout == second.stats.combinationsTimeout + 1
    ensures Press(cfg, t, second, k3, t2).matched.None? ==> Press(cfg, t, second, k3, t2).after.held == map[k3 := t2]
  {
    SweepEvictsStuckKeys(cfg, second, t2);
    assert Sweep(cfg, second, t2).held == second.held;
    assert AttemptTimedOut(cfg, second, t2);
    AdmitRecordsKey(cfg, second, k3, t2);
    MatchIsFirstExact(t, Admit(cfg, second, k3, t2));
  }

  /** A key held longer than the hold limit is gone after the next press or tick. */
  lemma StuckKeyEvicted(cfg: Config, t: Table, s: Tracker, k: Key, key: Key, now: int)
    requires k in s.held && now - s.held[k] > cfg.maxKeyHoldTime
    requires key != k
    ensures k !in Tick(cfg, s, now).held
    ensures k !in Press(cfg, t, s, key, now).after.held
    ensures Sweep(cfg, s, now).stats.stuckKeysCleaned > s.stats.stuckKeysCleaned
  {
    var stuck := StuckKeys(s.held, now, cfg.maxKeyHoldTime);
    assert k in stuck;
    SweepEvictsStuckKeys(cfg, s, now);
    TickBounds(cfg, s, now);
    AdmitRecordsKey(cfg, s, key, now);
    MatchIsFirstExact(t, Admit(cfg, s, key, now));
    assert k !in Sweep(cfg, s, now).held;
  }

  /** The table the program builds from its default settings. */
  function DefaultTable(): (t: Table)
    ensures WellFormed(t)
  {
    [Combination("quick", {Ctrl, Space}),
     Combination("popup", {Shift, Function(1)}),
     Combination("reset", {Ctrl, Alt, Char('r')})]
  }

  /**
   * setup_key_combinations: register the quick and popup strings as parsed,
   * then the emergency reset ctrl+alt+r. Whatever the settings say, the
   * table is well formed.
   */
  function SetupTable(quickKeys: string, popupKeys: string): (t: Table)
    ensures WellFormed(t)
  {
    var empty: Table := [];
    assert WellFormed(empty);
    var quick := Register(empty, "quick", ParseKeyCombination(quickKeys));
    assert WellFormed(quick);
    var popup := Register(quick, "popup", ParseKeyCombination(popupKeys));
    assert WellFormed(popup);
    Register(popup, "reset", [Ctrl, Alt, Char('r')])
  }

  /** With the default settings, setup builds exactly the quick, popup and reset entries, in that order. */
  lemma DefaultSetupTable()
    ensures SetupTable("ctrl+space", "shift+f1") == DefaultTable()
  {
    QuickStringParses();
    PopupStringParses();
    SetupFromParsedDefaults("ctrl+space", "shift+f1");
  }

  lemma SetupFromParsedDefaults(quickKeys: string, popupKeys: string)
    requires ParseKeyCombination(quickKeys) == [Ctrl, Space]
    requires ParseKeyCombination(popupKeys) == [Shift, Function(1)]
    ensures SetupTable(quickKeys, popupKeys) == DefaultTable()
  {
    var t1 := [Combination("quick", {Ctrl, Space})];
    var t2 := t1 + [Combination("popup", {Shift, Function(1)})];
    RegisterQuick();
    RegisterPopup(t1, t2);
    RegisterReset(t2);
  }

  lemma RegisterQuick()
    ensures Register([], "quick", [Ctrl, Space]) == [Combination("quick", {Ctrl, Space})]
  {
    assert (set k | k in [Ctrl, Space]) == {Ctrl, Space};
  }

  lemma RegisterPopup(t1: Table, t2: Table)
    requires t1 == [Combination("quick", {Ctrl, Space})]
    requires t2 == t1 + [Combination("popup", {Shift, Function(1)})]
    ensures Register(t1, "popup", [Shift, Function(1)]) == t2
  {
    assert (set k | k in [Shift, Function(1)]) == {Shift, Function(1)};
    assert Lookup(t1, "popup").None?;
    PutAppends(t1, "popup", {Shift, Function(1)});
  }

  lemma RegisterReset(t2: Table)
    requires t2 == [Combination("quick", {Ctrl, Space}), Combination("popup", {Shift, Function(1)})]
    ensures Register(t2, "reset", [Ctrl, Alt, Char('r')]) == DefaultTable()
  {
    assert (set k | k in [Ctrl, Alt, Char('r')]) == {Ctrl, Alt, Char('r')};
    assert Lookup(t2, "reset").None?;
    PutAppends(t2, "reset", {Ctrl, Alt, Char('r')});
  }

  /** Whitespace around the parts and upper-case letters do not change what a string reads as. */
  lemma PaddedMixedCaseStringParses()
    ensures ParseKeyCombination(" CTRL + Space ") == [Ctrl, Space]
  {
    PaddedPartsJoin();
    PaddedCtrlParses();
    PaddedSpaceParses();
    TwoPartsParse(" CTRL + Space ", [" CTRL ", " Space "]);
  }

  lemma TwoPartsParse(s: string, parts: seq<string>)
    requires |parts| == 2 && Join(parts, '+') == s
    requires '+' !in parts[0] && '+' !in parts[1]
    requires PartKeys(parts[0]) == [Ctrl] && PartKeys(parts[1]) == [Space]
    ensures ParseKeyCombination(s) == [Ctrl, Space]
  {
    forall i | 0 <= i < |parts| ensures '+' !in parts[i] {
      assert i == 0 || i == 1;
    }
    SplitJoin(parts, '+');
    var rest := parts[1..];
    assert rest[0] == parts[1] && rest[1..] == [];
    assert ParseParts(rest) == [Space];
    assert ParseParts(parts) == PartKeys(parts[0]) + ParseParts(rest);
  }

  lemma PaddedPartsJoin()
    ensures Join([" CTRL ", " Space "], '+') == " CTRL + Space "
    ensures '+' !in " CTRL " && '+' !in " Space "
  {
    assert [" CTRL ", " Space "][1..] == [" Space "];
  }

  lemma PaddedCtrlParses()
    ensures PartKeys(" CTRL ") == [Ctrl]
  {
    assert Lower("CTRL") == "ctrl";
    assert " CTRL " == " " + "CTRL" + " ";
    PaddedNameParses(" ", "CTRL", " ", Ctrl);
  }

  lemma PaddedSpaceParses()
    ensures PartKeys(" Space ") == [Space]
  {
    assert Lower("Space") == "space";
    assert " Space " == " " + "Space" + " ";
    PaddedNameParses(" ", "Space", " ", Space);
  }

  /** The default quick-completion string reads as ctrl and space. */
  lemma QuickStringParses()
    ensures ParseKeyCombination("ctrl+space") == [Ctrl, Space]
  {
    var keys := [Ctrl, Space];
    assert Parseable(keys[0]) && Parseable(keys[1]);
    assert keys[1..] == [Space] && [Space][1..] == [];
    assert KeyNames(keys) == ["ctrl", "space"];
    assert ["ctrl", "space"][1..] == ["space"];
    assert Format(keys) == "ctrl+space";
    FormatParses(keys);
  }

  /** The default popup string reads as shift and F1. */
  lemma PopupStringParses()
    ensures ParseKeyCombination("shift+f1") == [Shift, Function(1)]
  {
    var keys := [Shift, Function(1)];
    assert Parseable(keys[0]) && Parseable(keys[1]);
    assert NatToString(1) == "1";
    assert KeyName(Function(1)) == "f1";
    assert keys[1..] == [Function(1)] && [Function(1)][1..] == [];
    assert KeyNames(keys) == ["shift", "f1"];
    assert ["shift", "f1"][1..] == ["f1"];
    assert Format(keys) == "shift+f1";
    FormatParses(keys);
  }

  /** Ctrl, then space 300 ms later, reports "quick". */
  lemma CtrlThenSpaceMatches(s: Tracker)
    requires s.held == map[]
    ensures Press(DefaultConfig, DefaultTable(), Press(DefaultConfig, DefaultTable(), s, Ctrl, 1000).after,
                  Space, 1300).matched == Some("quick")
  {
    var first := Press(DefaultConfig, DefaultTable(), s, Ctrl, 1000);
    assert Sweep(DefaultConfig, s, 1000).held == map[];
    assert first.after.held == map[Ctrl := 1000];
    var admitted := Admit(DefaultConfig, first.after, Space, 1300);
    assert Sweep(DefaultConfig, first.after, 1300).held == map[Ctrl := 1000];
    assert admitted.held == map[Ctrl := 1000, Space := 1300];
    assert admitted.held.Keys == {Ctrl, Space};
    FirstMatchAt(DefaultTable(), {Ctrl, Space}, 0);
  }

  /** Ctrl released before space is pressed: only space is held, and nothing matches. */
  lemma ReleasedKeyIsNotPartOfTheAttempt(s: Tracker)
    requires s.held == map[]
    ensures
      var afterCtrl := Press(DefaultConfig, DefaultTable(), s, Ctrl, 1000).after;
      var afterRelease := Release(afterCtrl, Ctrl, 1100);
      var r := Press(DefaultConfig, DefaultTable(), afterRelease, Space, 1200);
      r.matched == None && r.after.held == map[Space := 1200]
  {
    var afterCtrl := Press(DefaultConfig, DefaultTable(), s, Ctrl, 1000).after;
    assert Sweep(DefaultConfig, s, 1000).held == map[];
    assert afterCtrl.held == map[Ctrl := 1000];
    var afterRelease := Release(afterCtrl, Ctrl, 1100);
    assert afterRelease.held == map[];
    assert Sweep(DefaultConfig, afterRelease, 1200).held == map[];
    var admitted := Admit(DefaultConfig, afterRelease, Space, 1200);
    assert admitted.held == map[Space := 1200];
    assert admitted.held.Keys == {Space};
    var t := DefaultTable();
    assert forall i :: 0 <= i < |t| ==> t[i].keys != {Space} by {
      assert Ctrl in t[0].keys && Shift in t[1].keys && Alt in t[2].keys;
    }
  }

  /** Alt pressed 2.5 s after ctrl: ctrl is evicted as stuck first, so only alt is held. */
  lemma StuckModifierEvictedBeforeNextPress(s: Tracker)
    requires s.held == map[]
    ensures
      var afterCtrl := Press(DefaultConfig, DefaultTable(), s, Ctrl, 1000).after;
      var r := Press(DefaultConfig, DefaultTable(), afterCtrl, Alt, 3500);
      r.matched == None && r.after.held == map[Alt := 3500]
      && r.after.stats.stuckKeysCleaned == s.stats.stuckKeysCleaned + 1
  {
    var afterCtrl := Press(DefaultConfig, DefaultTable(), s, Ctrl, 1000).after;
    assert Sweep(DefaultConfig, s, 1000).held == map[];
    assert afterCtrl.held == map[Ctrl := 1000];
    assert StuckKeys(afterCtrl.held, 3500, 2000) == {Ctrl};
    assert Sweep(DefaultConfig, afterCtrl, 3500).held == map[];
    var admitted := Admit(DefaultConfig, afterCtrl, Alt, 3500);
    assert admitted.held == map[Alt := 3500];
    assert admitted.held.Keys == {Alt};
    var t := DefaultTable();
    assert forall i :: 0 <= i < |t| ==> t[i].keys != {Alt} by {
      assert Ctrl in t[0].keys && Shift in t[1].keys && Ctrl in t[2].keys;
    }
  }
}
