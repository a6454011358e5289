/**
 * The registered combination table of the key tracker: a name -> key-set
 * dictionary kept in registration order, its validation rule and the
 * exact-set lookup used at press time.
 */
module Combinations {
  import opened Wrappers
  import opened Keys

  datatype Combination = Combination(name: string, keys: set<Key>)

  /** The table in iteration (registration) order; re-registering a name keeps its place. */
  type Table = seq<Combination>

  /** Registration rule: not empty, and not one of ctrl, shift, alt on its own. */
  predicate Acceptable(keys: set<Key>) {
    keys != {} && !(|keys| == 1 && keys <= {Ctrl, Shift, Alt})
  }

  predicate UniqueNames(t: Table) {
    forall i, j :: 0 <= i < j < |t| ==> t[i].name != t[j].name
  }

  /** What registration guarantees about every table it builds. */
  predicate WellFormed(t: Table) {
    UniqueNames(t) && forall i :: 0 <= i < |t| ==> Acceptable(t[i].keys)
  }

  /** No entry before position `i` has exactly the key set `held`. */
  predicate NoneBefore(t: Table, held: set<Key>, i: int) {
    forall j :: 0 <= j < i && j < |t| ==> t[j].keys != held
  }

  /** The key set registered under `name`, if any. */
  function Lookup(t: Table, name: string): (r: Option<set<Key>>)
    ensures r.None? <==> forall i :: 0 <= i < |t| ==> t[i].name != name
    ensures r.Some? ==> exists i :: 0 <= i < |t| && t[i] == Combination(name, r.value)
  {
    if t == [] then None
    else if t[0].name == name then Some(t[0].keys)
    else Lookup(t[1..], name)
  }

  /**
   * Dictionary assignment `table[name] = keys`: overwrites the entry in place
   * when the name is present, appends it otherwise.
   */
  function Put(t: Table, name: string, keys: set<Key>): (r: Table)
    ensures Lookup(r, name) == Some(keys)
  {
    if t == [] then [Combination(name, keys)]
    else if t[0].name == name then [Combination(name, keys)] + t[1..]
    else [t[0]] + Put(t[1..], name, keys)
  }

  /** Assigning `name` leaves what every other name maps to as it was. */
  lemma {:induction false} PutKeepsOthers(t: Table, name: string, keys: set<Key>, other: string)
    requires other != name
    ensures Lookup(Put(t, name, keys), other) == Lookup(t, other)
  {
    if t != [] && t[0].name != name && t[0].name != other {
      PutKeepsOthers(t[1..], name, keys, other);
      assert Put(t, name, keys)[1..] == Put(t[1..], name, keys);
    }
  }

  /** Assigning a name the table does not hold appends its entry at the end. */
  lemma {:induction false} PutAppends(t: Table, name: string, keys: set<Key>)
    requires Lookup(t, name).None?
    ensures Put(t, name, keys) == t + [Combination(name, keys)]
  {
    if t != [] {
      var c := Combination(name, keys);
      assert t[0].name != name;
      PutAppends(t[1..], name, keys);
      calc {
        Put(t, name, keys);
        [t[0]] + Put(t[1..], name, keys);
        [t[0]] + (t[1..] + [c]);
        { assert [t[0]] + t[1..] == t; }
        t + [c];
      }
    }
  }

  /**
   * Assigning a name the table holds, first at position `i`, overwrites that
   * entry in place and leaves every other entry where it was.
   */
  lemma {:induction false} PutReplaces(t: Table, name: string, keys: set<Key>, i: nat)
    requires i < |t| && t[i].name == name
    requires forall j :: 0 <= j < i ==> t[j].name != name
    ensures Put(t, name, keys) == t[i := Combination(name, keys)]
  {
    if i > 0 {
      assert t[0].name != name;
      PutReplaces(t[1..], name, keys, i - 1);
      assert t[1..][i - 1 := Combination(name, keys)] == t[i := Combination(name, keys)][1..];
    }
  }

  lemma {:induction false} PutKeepsNamesUnique(t: Table, name: string, keys: set<Key>)
    requires UniqueNames(t)
    ensures UniqueNames(Put(t, name, keys))
  {
    if t != [] && t[0].name != name {
      PutKeepsNamesUnique(t[1..], name, keys);
      var r := Put(t, name, keys);
      forall i, j | 0 <= i < j < |r| ensures r[i].name != r[j].name {
        if i == 0 {
          assert r[j] == Put(t[1..], name, keys)[j - 1];
          assert Lookup(Put(t[1..], name, keys), r[j].name).Some?;
          if r[j].name != name {
            PutKeepsOthers(t[1..], name, keys, r[j].name);
          }
        }
      }
    }
  }

  /** Registering an acceptable set keeps the table well formed. */
  lemma {:induction false} PutKeepsWellFormed(t: Table, name: string, keys: set<Key>)
    requires WellFormed(t) && Acceptable(keys)
    ensures WellFormed(Put(t, name, keys))
  {
    PutKeepsNamesUnique(t, name, keys);
    if t != [] && t[0].name != name {
      PutKeepsWellFormed(t[1..], name, keys);
      var r := Put(t, name, keys);
      forall i | 0 <= i < |r| ensures Acceptable(r[i].keys) {
        if i > 0 {
          assert r[i] == Put(t[1..], name, keys)[i - 1];
        }
      }
    }
  }

  /**
   * Registration: the set of `keys` is stored under `name` when it is
   * acceptable, and the table is left as it was otherwise.
   */
  function Register(t: Table, name: string, keys: seq<Key>): (r: Table)
    ensures Acceptable(set k | k in keys) ==> Lookup(r, name) == Some(set k | k in keys)
    ensures !Acceptable(set k | k in keys) ==> r == t
    ensures WellFormed(t) ==> WellFormed(r)
  {
    var keySet := set k | k in keys;
    if Acceptable(keySet) then
      assert WellFormed(t) ==> WellFormed(Put(t, name, keySet)) by {
        if WellFormed(t) {
          PutKeepsWellFormed(t, name, keySet);
        }
      }
      Put(t, name, keySet)
    else
      t
  }

  /**
   * The name of the first entry, in table order, whose key set EQUALS `held`;
   * a subset or a superset does not match.
   */
  function FirstMatch(t: Table, held: set<Key>): (r: Option<string>)
    ensures r.None? <==> forall i :: 0 <= i < |t| ==> t[i].keys != held
    ensures r.Some? ==>
      exists i :: 0 <= i < |t| && t[i] == Combination(r.value, held) && NoneBefore(t, held, i)
  {
    if t == [] then None
    else if t[0].keys == held then Some(t[0].name)
    else
      var r := FirstMatch(t[1..], held);
      if r.Some? then
        var i :| 0 <= i < |t[1..]| && t[1..][i] == Combination(r.value, held) && NoneBefore(t[1..], held, i);
        assert t[i + 1] == Combination(r.value, held) && NoneBefore(t, held, i + 1);
        r
      else r
  }

  /** A position with the held set and no earlier one is what FirstMatch finds. */
  lemma {:induction false} FirstMatchAt(t: Table, held: set<Key>, i: nat)
    requires i < |t| && t[i].keys == held && NoneBefore(t, held, i)
    ensures FirstMatch(t, held) == Some(t[i].name)
  {
    if i > 0 {
      FirstMatchAt(t[1..], held, i - 1);
    }
  }

  /** With unique names, a match by name means the held set is exactly the registered one. */
  lemma {:induction false} MatchIsExact(t: Table, held: set<Key>, name: string)
    requires UniqueNames(t)
    requires FirstMatch(t, held) == Some(name)
    ensures Lookup(t, name) == Some(held)
  {
    if t[0].keys != held {
      MatchIsExact(t[1..], held, name);
    }
  }

  /** A held set that is a strict subset or a strict superset of a registered set never reports it. */
  lemma NoPartialMatch(t: Table, held: set<Key>, name: string, required: set<Key>)
    requires UniqueNames(t)
    requires Lookup(t, name) == Some(required)
    requires held < required || required < held
    ensures FirstMatch(t, held) != Some(name)
  {
    if FirstMatch(t, held) == Some(name) {
      MatchIsExact(t, held, name);
    }
  }

  /** Holding exactly a registered set always matches some combination with that set. */
  lemma RegisteredSetMatches(t: Table, name: string, required: set<Key>)
    requires Lookup(t, name) == Some(required)
    ensures FirstMatch(t, required).Some?
    ensures Lookup(t, FirstMatch(t, required).value) == Some(required) || !UniqueNames(t)
  {
    var i :| 0 <= i < |t| && t[i] == Combination(name, required);
    if UniqueNames(t) {
      MatchIsExact(t, required, FirstMatch(t, required).value);
    }
  }

  /** A well-formed table never matches the empty set. */
  lemma EmptyNeverMatches(t: Table)
    requires WellFormed(t)
    ensures FirstMatch(t, {}) == None
  {
  }

  /** The validation rule read as the source states it, in both directions. */
  lemma AcceptableIff(keys: set<Key>)
    ensures Acceptable(keys) <==>
      (|keys| >= 2 || exists k :: keys == {k} && !IsModifier(k))
  {
    if |keys| == 1 {
      var k :| k in keys;
      assert keys - {k} == {} by {
        assert |keys - {k}| == |keys| - 1;
      }
      assert keys == {k};
    }
  }
}
