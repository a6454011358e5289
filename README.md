# Fast key-combination tracker: a Dafny model

This project models the key-combination tracker of the selection-autocomplete
program (`FastKeyTracker`) and the function that reads combination strings such
as `"ctrl+shift+f1"` from its settings (`parse_key_combination`).

The tracker keeps the following state:

- `key_states`: each held key with the time it was pressed.
- `combinations`: a table from names to key sets, kept in registration order.
- `combination_start_time`: the start time of the current attempt, if there is one.
- `last_activity`: the time of the last press, release or reset.
- Four statistics counters.

A press runs these steps:

1. Count the press.
2. Evict every key held longer than `max_key_hold_time` (the stuck-key sweep).
3. Start a new attempt, or abandon one older than `combination_timeout`.
4. Record the key.
5. Report a registered name when the held set EQUALS that name's set.

A match clears the attempt. A release forgets the key. A periodic watchdog tick
runs the sweep. After more than 5 seconds without activity it also force-resets
a tracker that still holds keys.

Layout:

- `wrappers.dfy`: the `Option` datatype.
- `keys.dfy`: the key identities. Every key the parser produces is one of the
  named constructors, but not every named value is produced by it (`Char('1')`,
  `Char('R')` and `Function(13)` never are); `Other` stands for the listener's
  remaining key objects.
- `combinations.dfy`: the table, registration validation (`Acceptable`),
  dictionary assignment (`Put`) and exact-set lookup (`FirstMatch`).
- `tracker_spec.dfy`: the tracker state as a value, and each operation as a
  function of the old state: `Sweep`, `Admit`/`StartAttempt`, `Match`, `Press`,
  `Release`, `ForceReset` and `Tick`. Next to each function, a lemma states
  what the operation guarantees. It also has `Run`, which applies a whole
  sequence of events.
- `fast_key_tracker.dfy`: class `FastKeyTracker`. Its fields are the source's
  fields, and its methods update them in place:
  - The stuck-key sweep is two loops. One (`CollectStuckKeys`) collects the
    stuck keys; the other deletes them.
  - The match check is a loop over the table.
  - Each state-changing method is proved to move `State()` exactly as the
    matching function of `tracker_spec.dfy` says; `AddCombination` moves the
    table as `Combinations.Register` says. `GetStats` and `CollectStuckKeys`
    change nothing.
- `key_parsing.dfy`: splitting on `+`, `strip`, `lower`, the mapping of one part
  to a key, and the whole parse. It also gives a canonical spelling of keys
  (`Format`). Parsing undoes `Format` on every sequence of recognised keys, so
  `Format` is a right inverse of the parse. It is not a left inverse: the
  parse drops unknown parts and normalises case and spacing.
- `scenarios.dfy`: consequences of the specification over several events, and
  the default settings.

Times are integer ticks of one millisecond. Each operation takes one `now`
from its caller and uses it wherever the source reads the wall clock. The defaults are 800 ticks for the
combination timeout, 2000 for the maximum hold time and 5000 for the
inactivity limit (0.8 s, 2.0 s and 5.0 s).

The start timer is an `Option`. The timeout test in `on_key_press` reads it by
truthiness, so a start time of exactly 0 counts as "no attempt running". The
model keeps that behaviour (`TimerRunning`). A wall-clock time is never 0.0, so
in practice this never triggers.

Two behaviours of the program are easy to miss, and the model keeps both:

- The program accepts a lone key that is not a modifier (for example `'a'`
  alone) at registration. Only an empty set and a lone ctrl, shift or alt are
  rejected.
- `last_activity` changes on every press, on a release of a key that was held,
  and on a forced reset. A release of a key that was not held does not change it.

## Model

| member | source | states |
|---|---|---|
| Combinations.Put | selection_autocomplete_popup_configurable.py:247 | After `combinations[name] = keys`, looking `name` up gives `keys` |
| Combinations.PutKeepsOthers | selection_autocomplete_popup_configurable.py:247 | Assigning one name leaves what every other name maps to as it was |
| Combinations.PutAppends | selection_autocomplete_popup_configurable.py:247 | Assigning a name the table does not hold appends its entry at the end and changes nothing else |
| Combinations.PutReplaces | selection_autocomplete_popup_configurable.py:247 | Assigning a name the table holds overwrites that entry in place; every other entry keeps its position and value |
| Combinations.PutKeepsNamesUnique | selection_autocomplete_popup_configurable.py:247 | The table never holds one name twice |
| Combinations.PutKeepsWellFormed | selection_autocomplete_popup_configurable.py:232-253 | Registering an accepted set keeps every entry of the table nonempty and not a lone modifier |
| Combinations.Register | selection_autocomplete_popup_configurable.py:232-253 | An accepted set is stored under the name; a rejected one leaves the table as it was; a well-formed table stays well formed |
| Combinations.AcceptableIff | selection_autocomplete_popup_configurable.py:236-245 | A set is accepted exactly when it has at least two keys, or is one key that is not ctrl, shift or alt |
| Combinations.FirstMatch | selection_autocomplete_popup_configurable.py:330-346 | Returns a name only when some entry's set equals the held set, and then returns the first such entry in table order. Returns nothing exactly when no entry's set equals the held set |
| Combinations.FirstMatchAt | selection_autocomplete_popup_configurable.py:330-346 | An equal entry with no equal entry before it is the one reported |
| Combinations.MatchIsExact | selection_autocomplete_popup_configurable.py:330-331 | With unique names, a reported name's registered set is exactly the held set |
| Combinations.NoPartialMatch | selection_autocomplete_popup_configurable.py:330-331 | A held set that is a strict subset or a strict superset of a registered set never reports that name |
| Combinations.RegisteredSetMatches | selection_autocomplete_popup_configurable.py:330-346 | Holding exactly a registered set always reports a name, and with unique names that name's set is the held set |
| Combinations.EmptyNeverMatches | selection_autocomplete_popup_configurable.py:325-327 | No well-formed table matches the empty set, so the empty guard agrees with the lookup |
| TrackerSpec.Initial | selection_autocomplete_popup_configurable.py:214-225 | A new tracker holds nothing, has no attempt, has all counters at zero and has activity at `now` |
| TrackerSpec.Sweep | selection_autocomplete_popup_configurable.py:361-382 | Keeps a subset of the held keys, leaves the activity time alone, and lowers no counter |
| TrackerSpec.Admit | selection_autocomplete_popup_configurable.py:264-290 | The pressed key is held with press time `now`, and the activity time becomes `now` |
| TrackerSpec.Match | selection_autocomplete_popup_configurable.py:321-359 | Without a match the state is unchanged; after a match nothing is held and no attempt runs |
| TrackerSpec.Press | selection_autocomplete_popup_configurable.py:264-302 | Without a match the pressed key is held at `now`; after a match nothing is held |
| TrackerSpec.Release | selection_autocomplete_popup_configurable.py:304-319 | The released key is no longer held, and the counters are unchanged |
| TrackerSpec.Tick | selection_autocomplete_popup_configurable.py:402-413 | Keeps a subset of the held keys; after more than 5 seconds without activity nothing is held |
| TrackerSpec.SweepEvictsStuckKeys | selection_autocomplete_popup_configurable.py:361-382 | Keeps exactly the keys held no longer than the limit, with their press times unchanged. Raises `stuck_keys_cleaned` by exactly the number removed. Clears the timer only when it removed keys and none are left. Keeps the timer invariant |
| TrackerSpec.StartAttempt | selection_autocomplete_popup_configurable.py:273-286 | On an empty state, starts an attempt at `now`. When keys are held and the running attempt is older than the combination timeout, empties the held keys, restarts the attempt at `now` and raises `combinations_timeout` by one. When keys are held and the attempt has not expired, changes nothing, so the attempt keeps its start time |
| TrackerSpec.AdmitRecordsKey | selection_autocomplete_popup_configurable.py:264-290 | Raises `total_key_presses` by one. Sweeps before anything else. Starts the timer at `now` when nothing is left held. On a timeout, raises `combinations_timeout` by one and leaves only the new key held. Always records the key at `now` and sets activity to `now`. Every other held key survived the sweep with its time unchanged. When keys survive the sweep and no timeout happens, the attempt keeps its start time |
| TrackerSpec.MatchIsFirstExact | selection_autocomplete_popup_configurable.py:321-359 | Reports no name for an empty held set or for a set equal to no entry, and then changes nothing. On a match, reports the first equal entry, raises `combinations_detected` by one, and empties the held keys and the timer |
| TrackerSpec.PressOutcome | selection_autocomplete_popup_configurable.py:264-302 | Raises the press count by one and lowers no counter. Keeps the timer invariant. After a match nothing is held and no timer runs; the pressed key belongs to the matched set. Without a match the key is held at `now`, and when keys survived the sweep and no timeout happened, the attempt keeps its start time |
| TrackerSpec.ReleaseForgetsKey | selection_autocomplete_popup_configurable.py:304-319 | Forgets the key and keeps every other key with its time. Changes nothing when the key was not held. Clears the timer when the last key goes; while keys remain, the attempt keeps its start time. Never changes the counters |
| TrackerSpec.ForceReset | selection_autocomplete_popup_configurable.py:384-394 | Nothing held, no timer, activity at `now`, counters unchanged |
| TrackerSpec.ForceResetIdempotent | selection_autocomplete_popup_configurable.py:384-394 | A second forced reset changes nothing |
| TrackerSpec.TickBounds | selection_autocomplete_popup_configurable.py:402-413 | After a tick, no held key is older than the hold limit. If there was no activity for more than 5 seconds, nothing is held. Otherwise the tick is only the sweep. Counters only grow and the timer invariant is kept |
| TrackerSpec.FirstTickIsNoOp | selection_autocomplete_popup_configurable.py:400-421 | The tick run at construction leaves a new tracker unchanged |
| TrackerSpec.StepPreserves | selection_autocomplete_popup_configurable.py:264-413 | A press, a release, a tick or a forced reset keeps the timer set exactly when keys are held, and lowers no counter |
| TrackerSpec.RunPreserves | selection_autocomplete_popup_configurable.py:264-413 | Over any sequence of presses, releases, ticks and resets: the timer is set exactly when keys are held, and no counter ever decreases |
| FastKeyTracking.FastKeyTracker.constructor | selection_autocomplete_popup_configurable.py:199-225 | Builds the initial state with an empty table and the given timeout and hold limit |
| FastKeyTracking.FastKeyTracker.AddCombination | selection_autocomplete_popup_configurable.py:232-253 | Returns false and leaves the table unchanged for an empty set or a lone modifier. Otherwise stores or overwrites the entry and returns true. Keeps the object invariant |
| FastKeyTracking.FastKeyTracker.OnKeyPress | selection_autocomplete_popup_configurable.py:264-302 | The new state and the returned name are those of `TrackerSpec.Press` |
| FastKeyTracking.FastKeyTracker.OnKeyRelease | selection_autocomplete_popup_configurable.py:304-319 | The new state is `TrackerSpec.Release` of the old one |
| FastKeyTracking.FastKeyTracker.CheckCombinations | selection_autocomplete_popup_configurable.py:321-359 | The loop over the table yields the new state and the name given by `TrackerSpec.Match`, and keeps the object invariant |
| FastKeyTracking.FastKeyTracker.CollectStuckKeys | selection_autocomplete_popup_configurable.py:364-368 | The first pass returns exactly the held keys pressed more than the hold limit ago |
| FastKeyTracking.FastKeyTracker.CleanupStuckKeys | selection_autocomplete_popup_configurable.py:361-382 | The collect-then-delete loops yield `TrackerSpec.Sweep` of the old state |
| FastKeyTracking.FastKeyTracker.ForceReset | selection_autocomplete_popup_configurable.py:384-394 | The new state is `TrackerSpec.ForceReset` of the old one, and the object invariant is kept |
| FastKeyTracking.FastKeyTracker.GetStats | selection_autocomplete_popup_configurable.py:396-398 | Returns the current counters |
| FastKeyTracking.FastKeyTracker.Monitor | selection_autocomplete_popup_configurable.py:402-413 | The new state is `TrackerSpec.Tick` of the old one |
| KeyParsing.Split | selection_autocomplete_popup_configurable.py:612 | Gives one piece more than there are `+` characters, and no piece contains `+` |
| KeyParsing.JoinSplit | selection_autocomplete_popup_configurable.py:612 | Joining the pieces with `+` gives back the string |
| KeyParsing.SplitJoin | selection_autocomplete_popup_configurable.py:612 | Splitting a `+`-join of `+`-free pieces gives back the pieces |
| KeyParsing.TrimStart | selection_autocomplete_popup_configurable.py:612 | Removes a prefix made only of whitespace and leaves a result that does not start with whitespace |
| KeyParsing.TrimEnd | selection_autocomplete_popup_configurable.py:612 | Removes a suffix made only of whitespace and leaves a result that does not end with whitespace |
| KeyParsing.Strip | selection_autocomplete_popup_configurable.py:612 | The result is empty or starts and ends with a non-whitespace character |
| KeyParsing.Normalize | selection_autocomplete_popup_configurable.py:612 | The normalised part is no longer than the part, has no whitespace at either end and no capital letter |
| KeyParsing.PartKeys | selection_autocomplete_popup_configurable.py:614-634 | A part yields exactly one key when its normalised form is recognised, and none otherwise |
| KeyParsing.DigitsValue | selection_autocomplete_popup_configurable.py:628 | The decimal value of a digit string is zero exactly when every digit is `0` |
| KeyParsing.StripPadded | selection_autocomplete_popup_configurable.py:612 | A part with non-space ends, padded with whitespace on both sides, strips to exactly that part |
| KeyParsing.LowerChar | selection_autocomplete_popup_configurable.py:612 | An ASCII capital becomes its own small letter; every other character is kept |
| KeyParsing.Lower | selection_autocomplete_popup_configurable.py:612 | Keeps the length and lower-cases each character as `LowerChar` does |
| KeyParsing.ParsePart | selection_autocomplete_popup_configurable.py:614-634 | A recognised part is a modifier, space, tab, enter, F1 to F12 or a letter, and the part spells that key |
| KeyParsing.ParsePartExact | selection_autocomplete_popup_configurable.py:614-634 | A normalised part gives a key exactly when it spells a named key: one of the six fixed names, `f` and digits worth 1 to 12, or one letter; every other part gives nothing |
| KeyParsing.ParseParts | selection_autocomplete_popup_configurable.py:612-636 | Never yields more keys than parts, and every key yielded is a recognised key with a lower-case letter |
| KeyParsing.ParseKeyCombination | selection_autocomplete_popup_configurable.py:609-636 | Never yields more keys than the number of `+`-separated parts, and every key is one the parser recognises |
| KeyParsing.ParsePartsAppend | selection_autocomplete_popup_configurable.py:614-634 | Each part is read on its own and in order: parsing a concatenation of part lists concatenates the results |
| KeyParsing.ParsePartwise | selection_autocomplete_popup_configurable.py:614-636 | When each part yields exactly one key, the combination is those keys in the order of the parts |
| KeyParsing.UnknownPartSkipped | selection_autocomplete_popup_configurable.py:633-634 | An unknown part contributes nothing to the result |
| KeyParsing.OutOfRangeFunctionKeyDropped | selection_autocomplete_popup_configurable.py:627-630 | `f0`, `f13` and every other number outside 1 to 12 are dropped |
| KeyParsing.NatToString | selection_autocomplete_popup_configurable.py:628-630 | The decimal spelling is all digits and reads back as the number |
| KeyParsing.KeyNameParses | selection_autocomplete_popup_configurable.py:612-632 | The canonical name of every recognised key survives `strip` and `lower`, and parses back to that key |
| KeyParsing.PaddedNameParses | selection_autocomplete_popup_configurable.py:612-632 | A key name padded with whitespace and written in any mix of cases reads as that key |
| KeyParsing.FormatParses | selection_autocomplete_popup_configurable.py:609-636 | Parsing the `+`-joined names of any sequence of recognised keys gives back that sequence |
| Scenarios.TimeoutRestartsAttempt | selection_autocomplete_popup_configurable.py:279-289 | Two presses further apart than the timeout, but within the hold limit, count exactly one timeout. The second key is then held alone |
| Scenarios.TimeoutCountsFromFirstKey | selection_autocomplete_popup_configurable.py:273-289 | The timeout is measured from the first key of an attempt: three presses each within the timeout of the previous one, but with the third more than the timeout after the first, count one timeout, and the third key is then held alone unless it completes a combination |
| Scenarios.StuckKeyEvicted | selection_autocomplete_popup_configurable.py:361-382 | A key held longer than the limit is gone after the next press or tick, and the stuck counter rises |
| Scenarios.DefaultTable | selection_autocomplete_popup_configurable.py:585-607 | The table built from the default settings (quick, popup, reset) is well formed |
| Scenarios.SetupTable | selection_autocomplete_popup_configurable.py:585-607 | Whatever the quick and popup strings are, the table setup builds is well formed |
| Scenarios.DefaultSetupTable | selection_autocomplete_popup_configurable.py:585-607 | With the default strings, setup registers quick (ctrl, space), popup (shift, F1) and reset (ctrl, alt, r), in that order |
| Scenarios.QuickStringParses | selection_autocomplete_popup_configurable.py:477 | The default `ctrl+space` reads as ctrl and space |
| Scenarios.PopupStringParses | selection_autocomplete_popup_configurable.py:478 | The default `shift+f1` reads as shift and F1 |
| Scenarios.PaddedMixedCaseStringParses | selection_autocomplete_popup_configurable.py:612 | ` CTRL + Space ` reads as ctrl and space |
| Scenarios.CtrlThenSpaceMatches | selection_autocomplete_popup_configurable.py:264-345 | With the defaults, ctrl and then space 300 ms later reports `quick` |
| Scenarios.ReleasedKeyIsNotPartOfTheAttempt | selection_autocomplete_popup_configurable.py:264-319 | Ctrl pressed and released, then space pressed: only space is held and nothing matches |
| Scenarios.StuckModifierEvictedBeforeNextPress | selection_autocomplete_popup_configurable.py:361-382 | Alt pressed 2.5 s after ctrl: ctrl is evicted as stuck first, so only alt is held and one stuck key is counted |

## Left out

- `CompletionPopup` (the Tk selection window) is not modelled. It is a user interface.
- Reading and writing the settings file, and the logging setup, are not
  modelled. They are file I/O and library calls. Only the default key strings
  and timings appear, as constants.
- Clipboard reading and text injection through xdotool are not modelled. They
  are subprocess and clipboard I/O.
- The Ollama HTTP calls and `generate_multiple_options` are not modelled. They
  are network I/O.
- `clean_completion_minimal` is not modelled. It depends on regular-expression
  semantics.
- The worker threads, `handle_completion` and the `threading.Timer` that re-arms
  the watchdog are not modelled: they are concurrency. `Monitor` models the body
  of one tick. The program takes no lock: the watchdog timer thread and the
  keyboard listener thread can interleave inside these methods. Every
  operation is atomic in the model, so the model's guarantees are stronger
  than the program's under such interleaving.
- The `try`/`except` around the tick (lines 403 and 418) is not modelled, because
  no step of the model can fail. In the program, a release that runs between
  the age check at line 366 and the `del` at line 378 makes that `del` raise
  `KeyError`; the handler at line 418 then skips the re-arm at line 416 and the
  watchdog stops for good. The model, whose operations are atomic, has no such
  path.
- Each operation takes one `now`. The program reads `time.time()` several times
  inside one operation: a press reads it at line 266 and again in
  `cleanup_stuck_keys` at line 363; a tick reads it at lines 404, 363 and, on a
  forced reset, 394. The model treats these readings as equal.
- The `invalid_combinations` counter of the application and the error messages
  that `setup_key_combinations` logs for a rejected string are not modelled.
  They live outside the tracker; `SetupTable` models only the table it builds.
- `cleanup_interval` is not modelled. It only sets the period of the re-armed timer.
- Logging and debug messages, `key_to_string` (it uses reflection on listener
  key objects) and `print_stats` (percentages as floats) are not modelled.
- `test_ollama.py` is not part of this model. It holds only HTTP smoke tests.
- Wall-clock times are Python floats; here they are integer millisecond ticks.
  Only subtraction and comparison are used.
- KeyParsing.Lower, KeyParsing.LowerChar: only the ASCII letters A to Z are lower-cased. Python's
  `str.lower` also maps non-ASCII letters.
- KeyParsing.ParsePart: `isalpha` and `isdigit` are taken over ASCII. Python also
  accepts non-ASCII letters, such as `é`, as single-letter keys. It also accepts
  other Unicode digits, on which `int()` can raise.
- The listener's own key objects (left and right ctrl, and so on) are not
  modelled: they are opaque `Other` keys. The parser produces only named
  constructors, but not all of them: a digit or capital `Char` and function
  keys above F12 are never produced, though the listener may deliver them.
