/**
 * The Restorer: puts global variables, super-global arrays, static
 * properties and the set of user functions back to what a snapshot recorded.
 * It reads the snapshot through the accessors of the Snapshot revision it was
 * written against, which hand out the recorded values themselves; it tests
 * them with isset, so a recorded null counts as "not recorded".
 */
module Restorer {
  import opened Wrappers
  import opened PhpValues
  import opened Runtime
  import opened Exclusion
  import opened Containers

  /** What the restorer asks of a snapshot. */
  datatype SnapshotView = SnapshotView(
    blacklist: ExcludeList,
    globalVariables: map<string, Value>,
    superGlobalVariables: map<string, map<Key, Value>>,
    superGlobalArrays: seq<string>,
    staticAttributes: seq<(string, seq<(string, Value)>)>,
    functions: seq<string>)

  /** The RuntimeException restoreFunctions throws when uopz is not loaded. */
  datatype RestoreError = UopzDeleteUnavailable

  // ---------------------------------------------------------------------
  // Super-global arrays

  /** The saved container with its null entries dropped. */
  function DropNulls(saved: map<Key, Value>): (r: map<Key, Value>)
    ensures forall k :: k in r <==> k in saved && IsSet(saved[k])
    ensures forall k :: k in r ==> r[k] == saved[k]
  {
    map k | k in saved && IsSet(saved[k]) :: saved[k]
  }

  /**
   * The live container after the restore loop has visited `keys`: a visited
   * key holds the saved value when that is set and is unset otherwise; an
   * unvisited key keeps its live value.
   */
  function ReconcileOver(live: map<Key, Value>, saved: map<Key, Value>, keys: set<Key>): (r: map<Key, Value>) {
    map k | k in live.Keys + keys && (k in keys ==> k in saved && IsSet(saved[k]))
      :: if k in keys then saved[k] else live[k]
  }

  /** The restore loop visiting the union of live and saved keys. */
  function ReconcileContainer(live: map<Key, Value>, saved: map<Key, Value>): (r: map<Key, Value>) {
    ReconcileOver(live, saved, live.Keys + saved.Keys)
  }

  /** The restore loop visiting the keys of `array_merge($live, $saved)`, as the source computes them. */
  function ReconcileContainerAsWritten(live: map<Key, Value>, saved: map<Key, Value>): (r: map<Key, Value>)
    ensures r.Keys <= live.Keys + saved.Keys
    ensures forall s :: StrKey(s) in r <==> StrKey(s) in saved && IsSet(saved[StrKey(s)])
    ensures forall s :: StrKey(s) in r ==> r[StrKey(s)] == saved[StrKey(s)]
  {
    ReconcileOver(live, saved, ArrayMergeKeys(live, saved))
  }

  /**
   * Visiting the union makes the live container equal the saved one minus its
   * null entries, whatever the live container held: keys added since the
   * snapshot go, keys deleted since come back.
   */
  lemma ReconcileContainerDropsNulls(live: map<Key, Value>, saved: map<Key, Value>)
    ensures ReconcileContainer(live, saved) == DropNulls(saved)
  {
    var r := ReconcileContainer(live, saved);
    forall k ensures k in r <==> k in DropNulls(saved) {
    }
    assert r.Keys == DropNulls(saved).Keys;
  }

  /**
   * With integer keys the merged keys miss the live key: an entry `5 => 'x'`
   * added to `$_GET` after the snapshot survives the restore as written,
   * where the union restore removes it.
   */
  lemma AddedIntegerKeySurvivesRestore()
    ensures var added := map[IntKey(5) := Str("x")];
      && ReconcileContainerAsWritten(added, map[]) == added
      && ReconcileContainer(added, map[]) == map[]
  {
    var added := map[IntKey(5) := Str("x")];
    var none: map<Key, Value> := map[];
    IntKeyCountOfOne(added, 5);
    assert IntKeyCount(none) == 0;
    ReconcileOverUnsaved(added, none, ArrayMergeKeys(added, none));
    assert (map k | k in added && k !in ArrayMergeKeys(added, none) :: added[k]) == added;
    ReconcileContainerDropsNulls(added, none);
  }

  /** Likewise a recorded entry `5 => 'y'` deleted since the snapshot is not put back. */
  lemma RecordedIntegerKeyNotRestored()
    ensures var recorded := map[IntKey(5) := Str("y")];
      && ReconcileContainerAsWritten(map[], recorded) == map[]
      && ReconcileContainer(map[], recorded) == recorded
  {
    var recorded := map[IntKey(5) := Str("y")];
    var none: map<Key, Value> := map[];
    IntKeyCountOfOne(recorded, 5);
    assert IntKeyCount(none) == 0;
    var merged := ArrayMergeKeys(none, recorded);
    assert IntKey(5) !in merged;
    ReconcileOverUnsaved(none, recorded, merged);
    ReconcileContainerDropsNulls(none, recorded);
    assert DropNulls(recorded) == recorded;
  }

  /**
   * As written the restore is not idempotent either: with `[3 => 'a']` live
   * and `[0 => 'x', 1 => 'y']` saved, the first pass visits 0, 1, 2 and keeps
   * key 3; the second pass counts three integer keys live, visits 0 to 4 and
   * unsets it.
   */
  lemma AsWrittenNotIdempotent()
    ensures var live := map[IntKey(3) := Str("a")];
      var saved := map[IntKey(0) := Str("x"), IntKey(1) := Str("y")];
      var once := ReconcileContainerAsWritten(live, saved);
      && IntKey(3) in once
      && IntKey(3) !in ReconcileContainerAsWritten(once, saved)
  {
    var live := map[IntKey(3) := Str("a")];
    var saved := map[IntKey(0) := Str("x"), IntKey(1) := Str("y")];
    IntKeyCountOfOne(live, 3);
    assert (set k | k in saved && k.IntKey?) == {IntKey(0), IntKey(1)};
    assert IntKeyCount(saved) == 2;
    var once := ReconcileContainerAsWritten(live, saved);
    assert IntKey(3) !in ArrayMergeKeys(live, saved);
    assert once.Keys == {IntKey(0), IntKey(1), IntKey(3)};
    assert (set k | k in once && k.IntKey?) == {IntKey(0), IntKey(1), IntKey(3)};
    assert IntKeyCount(once) == 3;
    assert IntKey(3) in ArrayMergeKeys(once, saved);
  }

  /** Visiting keys the saved container does not hold only unsets them. */
  lemma ReconcileOverUnsaved(live: map<Key, Value>, saved: map<Key, Value>, keys: set<Key>)
    requires keys !! saved.Keys
    ensures ReconcileOver(live, saved, keys) == map k | k in live && k !in keys :: live[k]
  {
  }

  /** Visiting one more key changes that key alone. */
  lemma ReconcileOverStep(live: map<Key, Value>, saved: map<Key, Value>, keys: set<Key>, key: Key)
    requires key !in keys
    ensures ReconcileOver(live, saved, keys + {key}) ==
      if key in saved && IsSet(saved[key]) then ReconcileOver(live, saved, keys)[key := saved[key]]
      else ReconcileOver(live, saved, keys) - {key}
  {
  }

  /**
   * The containers after restoring each named super-global: those that hold
   * an array live and have a saved entry become the saved entry minus nulls.
   */
  function RestoredContainers(live: map<string, map<Key, Value>>, saved: map<string, map<Key, Value>>,
                              names: set<string>): (r: map<string, map<Key, Value>>)
  {
    map n | n in live :: if n in names && n in saved then DropNulls(saved[n]) else live[n]
  }

  /** restoreSuperGlobalArray, with the key union the source intends (see AddedIntegerKeySurvivesRestore). */
  method RestoreSuperGlobalArray(rt: Store, snapshot: SnapshotView, superGlobalArray: string)
    modifies rt`superGlobals
    ensures superGlobalArray in old(rt.superGlobals) && superGlobalArray in snapshot.superGlobalVariables ==>
      rt.superGlobals == old(rt.superGlobals)[superGlobalArray :=
        ReconcileContainer(old(rt.superGlobals)[superGlobalArray], snapshot.superGlobalVariables[superGlobalArray])]
    ensures !(superGlobalArray in old(rt.superGlobals) && superGlobalArray in snapshot.superGlobalVariables) ==>
      rt.superGlobals == old(rt.superGlobals)
  {
    var superGlobalVariables := snapshot.superGlobalVariables;
    if superGlobalArray in rt.superGlobals && superGlobalArray in superGlobalVariables {
      var live := rt.superGlobals[superGlobalArray];
      var saved := superGlobalVariables[superGlobalArray];
      var keys := live.Keys + saved.Keys;
      ghost var visited: set<Key> := {};
      assert ReconcileOver(live, saved, visited) == live;
      assert old(rt.superGlobals)[superGlobalArray := live] == old(rt.superGlobals);
      while keys != {}
        invariant visited + keys == live.Keys + saved.Keys && visited !! keys
        invariant rt.superGlobals == old(rt.superGlobals)[superGlobalArray := ReconcileOver(live, saved, visited)]
        decreases keys
      {
        var key :| key in keys;
        ReconcileOverStep(live, saved, visited, key);
        if key in saved && IsSet(saved[key]) {
          rt.superGlobals := rt.superGlobals[superGlobalArray := rt.superGlobals[superGlobalArray][key := saved[key]]];
        } else {
          rt.superGlobals := rt.superGlobals[superGlobalArray := rt.superGlobals[superGlobalArray] - {key}];
        }
        keys := keys - {key};
        visited := visited + {key};
      }
    }
  }

  // ---------------------------------------------------------------------
  // Global variables

  /**
   * The globals after the loop has visited `keys`: a visited name that is not
   * left alone holds the saved value when that is set and is unset
   * otherwise; every other name keeps its live value. Only live names appear.
   */
  function RestoreGlobalsOver(live: map<string, Value>, saved: map<string, Value>, superGlobalArrays: seq<string>,
                              rules: ExclusionRules, keys: set<string>): (r: map<string, Value>)
  {
    map k | k in live &&
            (k !in keys || Untouched(k, superGlobalArrays, rules) || (k in saved && IsSet(saved[k])))
      :: if k in keys && !Untouched(k, superGlobalArrays, rules) then saved[k] else live[k]
  }

  function RestoredGlobals(live: map<string, Value>, saved: map<string, Value>, superGlobalArrays: seq<string>,
                           rules: ExclusionRules): (r: map<string, Value>)
  {
    RestoreGlobalsOver(live, saved, superGlobalArrays, rules, live.Keys)
  }

  /**
   * What a restore leaves in each global: untouched names keep their value,
   * other live names hold the saved value if it is set and are gone
   * otherwise (a saved null deletes), and no name comes back that is not live.
   */
  lemma RestoredGlobalsEntries(live: map<string, Value>, saved: map<string, Value>, superGlobalArrays: seq<string>,
                               rules: ExclusionRules, key: string)
    ensures var r := RestoredGlobals(live, saved, superGlobalArrays, rules);
      && (key in r <==> key in live && (Untouched(key, superGlobalArrays, rules) || (key in saved && IsSet(saved[key]))))
      && (key in r && Untouched(key, superGlobalArrays, rules) ==> r[key] == live[key])
      && (key in r && !Untouched(key, superGlobalArrays, rules) ==> r[key] == saved[key])
  {
  }

  /** Restoring the globals a second time with the same snapshot changes nothing. */
  lemma RestoredGlobalsIdempotent(live: map<string, Value>, saved: map<string, Value>, superGlobalArrays: seq<string>,
                                  rules: ExclusionRules)
    ensures var once := RestoredGlobals(live, saved, superGlobalArrays, rules);
      RestoredGlobals(once, saved, superGlobalArrays, rules) == once
  {
    var once := RestoredGlobals(live, saved, superGlobalArrays, rules);
    var twice := RestoredGlobals(once, saved, superGlobalArrays, rules);
    assert twice.Keys == once.Keys;
  }

  /**
   * Restoring `$GLOBALS` only drops names, never adds a super-global
   * container and leaves the names the snapshot lists alone, so a store whose
   * listed names the snapshot lists too (one taken under the same
   * `register_long_arrays`) keeps its split of `$GLOBALS` (`ContainersSplit`).
   */
  lemma RestoreKeepsContainersSplit(globals: map<string, Value>, superGlobals: map<string, map<Key, Value>>,
                                    snapshot: SnapshotView, registerLongArrays: Option<string>)
    requires ContainersSplit(globals, superGlobals, registerLongArrays)
    requires forall name :: name in SuperGlobalArrays(registerLongArrays) ==> name in snapshot.superGlobalArrays
    ensures ContainersSplit(
      RestoredGlobals(globals, snapshot.globalVariables, snapshot.superGlobalArrays, snapshot.blacklist.Rules()),
      RestoredContainers(superGlobals, snapshot.superGlobalVariables, Elements(snapshot.superGlobalArrays)),
      registerLongArrays)
  {
    var globals' := RestoredGlobals(globals, snapshot.globalVariables, snapshot.superGlobalArrays, snapshot.blacklist.Rules());
    var superGlobals' := RestoredContainers(superGlobals, snapshot.superGlobalVariables, Elements(snapshot.superGlobalArrays));
    assert globals'.Keys <= globals.Keys;
    assert superGlobals'.Keys == superGlobals.Keys;
    forall name | name in globals' && name in SuperGlobalArrays(registerLongArrays)
      ensures globals'[name] == globals[name]
    {
      assert Untouched(name, snapshot.superGlobalArrays, snapshot.blacklist.Rules());
    }
    ContainersSplitShrinks(globals, superGlobals, globals', superGlobals', registerLongArrays);
  }

  /** Restoring the super-globals a second time with the same snapshot changes nothing. */
  lemma RestoredContainersIdempotent(live: map<string, map<Key, Value>>, saved: map<string, map<Key, Value>>,
                                     names: set<string>)
    ensures var once := RestoredContainers(live, saved, names);
      RestoredContainers(once, saved, names) == once
  {
  }

  lemma RestoreGlobalsStep(live: map<string, Value>, saved: map<string, Value>, superGlobalArrays: seq<string>,
                           rules: ExclusionRules, keys: set<string>, key: string)
    requires key !in keys && key in live
    ensures RestoreGlobalsOver(live, saved, superGlobalArrays, rules, keys + {key}) ==
      if Untouched(key, superGlobalArrays, rules) then RestoreGlobalsOver(live, saved, superGlobalArrays, rules, keys)
      else if key in saved && IsSet(saved[key]) then RestoreGlobalsOver(live, saved, superGlobalArrays, rules, keys)[key := saved[key]]
      else RestoreGlobalsOver(live, saved, superGlobalArrays, rules, keys) - {key}
  {
  }

  lemma RestoredContainersStep(live: map<string, map<Key, Value>>, saved: map<string, map<Key, Value>>,
                                names: seq<string>, i: nat, current: map<string, map<Key, Value>>)
    requires i < |names|
    requires current == RestoredContainers(live, saved, Elements(names[..i]))
    ensures var name := names[i];
      RestoredContainers(live, saved, Elements(names[..i + 1])) ==
        if name in current && name in saved then current[name := ReconcileContainer(current[name], saved[name])]
        else current
  {
    var name := names[i];
    assert names[..i + 1] == names[..i] + [name];
    assert Elements(names[..i + 1]) == Elements(names[..i]) + {name};
    if name in current && name in saved {
      ReconcileContainerDropsNulls(current[name], saved[name]);
    }
  }

  /**
   * restoreGlobalVariables: the super-global arrays first, then every live
   * global. Every container the store holds apart from the plain globals is
   * one the snapshot lists; any other name of `$GLOBALS` is a plain global.
   */
  method RestoreGlobalVariables(rt: Store, snapshot: SnapshotView)
    requires forall name :: name in rt.superGlobals ==> name in snapshot.superGlobalArrays
    requires forall name :: name in rt.globals && name in snapshot.superGlobalArrays ==> !rt.globals[name].Arr?
    modifies rt`globals, rt`superGlobals
    ensures rt.superGlobals ==
      RestoredContainers(old(rt.superGlobals), snapshot.superGlobalVariables, Elements(snapshot.superGlobalArrays))
    ensures rt.globals ==
      RestoredGlobals(old(rt.globals), snapshot.globalVariables, snapshot.superGlobalArrays, snapshot.blacklist.Rules())
  {
    var superGlobalArrays := snapshot.superGlobalArrays;
    var i := 0;
    while i < |superGlobalArrays|
      invariant 0 <= i <= |superGlobalArrays|
      invariant rt.globals == old(rt.globals)
      invariant rt.superGlobals ==
        RestoredContainers(old(rt.superGlobals), snapshot.superGlobalVariables, Elements(superGlobalArrays[..i]))
    {
      ghost var before := rt.superGlobals;
      var name := superGlobalArrays[i];
      RestoreSuperGlobalArray(rt, snapshot, name);
      RestoredContainersStep(old(rt.superGlobals), snapshot.superGlobalVariables, superGlobalArrays, i, before);
      i := i + 1;
    }
    assert superGlobalArrays[..i] == superGlobalArrays;

    var globalVariables := snapshot.globalVariables;
    ghost var restored := rt.superGlobals;
    ghost var live := rt.globals;
    ghost var rules := snapshot.blacklist.Rules();
    var keys := rt.globals.Keys;
    ghost var visited: set<string> := {};
    assert RestoreGlobalsOver(live, globalVariables, superGlobalArrays, rules, visited) == live;
    while keys != {}
      invariant visited + keys == live.Keys && visited !! keys
      invariant rt.globals == RestoreGlobalsOver(live, globalVariables, superGlobalArrays, rules, visited)
      invariant rt.superGlobals == restored
      decreases keys
    {
      var key :| key in keys;
      RestoreGlobalsStep(live, globalVariables, superGlobalArrays, rules, visited, key);
      if key != "GLOBALS" && key !in superGlobalArrays && !snapshot.blacklist.IsGlobalVariableExcluded(key) {
        if key in globalVariables && IsSet(globalVariables[key]) {
          rt.globals := rt.globals[key := globalVariables[key]];
        } else {
          rt.globals := rt.globals - {key};
        }
      }
      keys := keys - {key};
      visited := visited + {key};
    }
  }

  // ---------------------------------------------------------------------
  // Static properties

  /**
   * restoreStaticAttributes: writes every recorded (class, name) => value in
   * order; a recorded property that no longer exists throws and ends the
   * restore there (the missing property is returned).
   */
  method RestoreStaticAttributes(rt: Store, snapshot: SnapshotView) returns (missing: Option<StaticKey>)
    modifies rt`statics
    ensures (rt.statics, missing) == WriteStatics(old(rt.statics), Flatten(snapshot.staticAttributes))
  {
    var attributes := snapshot.staticAttributes;
    var i := 0;
    assert attributes[..0] == [];
    while i < |attributes|
      invariant 0 <= i <= |attributes|
      invariant WriteStatics(old(rt.statics), Flatten(attributes[..i])) == (rt.statics, None)
    {
      var className := attributes[i].0;
      var staticAttributes := attributes[i].1;
      WroteUpToStart(old(rt.statics), rt.statics, attributes, i);
      var j := 0;
      while j < |staticAttributes|
        invariant 0 <= j <= |staticAttributes|
        invariant WroteUpTo(old(rt.statics), rt.statics, attributes, i, j)
      {
        var name := staticAttributes[j].0;
        var value := staticAttributes[j].1;
        if (className, name) !in rt.statics {
          WroteUpToStop(old(rt.statics), rt.statics, attributes, i, j);
          return Some((className, name));
        }
        WroteUpToNext(old(rt.statics), rt.statics, attributes, i, j);
        rt.statics := rt.statics[(className, name) := value];
        j := j + 1;
      }
      WroteUpToEnd(old(rt.statics), rt.statics, attributes, i);
      i := i + 1;
    }
    assert attributes[..i] == attributes;
    return None;
  }

  /**
   * When every recorded property still exists, the restore succeeds, every
   * recorded (class, name) holds the value recorded last for it, and every
   * other static property keeps its value.
   */
  lemma RestoreStaticAttributesSetsRecorded(statics: map<StaticKey, Value>,
                                            attributes: seq<(string, seq<(string, Value)>)>, key: StaticKey)
    ensures var (after, missing) := WriteStatics(statics, Flatten(attributes));
      && after.Keys == statics.Keys
      && (key in statics && (forall w :: w in Flatten(attributes) ==> w.0 != key) ==> after[key] == statics[key])
      && ((forall w :: w in Flatten(attributes) ==> w.0 in statics) ==>
            missing == None &&
            forall i :: 0 <= i < |Flatten(attributes)| && Flatten(attributes)[i].0 == key &&
                        (forall j :: i < j < |Flatten(attributes)| ==> Flatten(attributes)[j].0 != key)
                        ==> after[key] == Flatten(attributes)[i].1)
  {
    var writes := Flatten(attributes);
    var (after, missing) := WriteStatics(statics, writes);
    WriteStaticsFrame(statics, writes, key);
    assert key in statics && (forall w :: w in writes ==> w.0 != key) ==> after[key] == statics[key];
    if forall w :: w in writes ==> w.0 in statics {
      WriteStaticsSucceeds(statics, writes);
      forall i | 0 <= i < |writes| && writes[i].0 == key &&
                 (forall j :: i < j < |writes| ==> writes[j].0 != key)
        ensures after[key] == writes[i].1
      {
        WriteStaticsRecords(statics, writes, i);
      }
    }
  }

  // ---------------------------------------------------------------------
  // User functions

  /** `s` without the names in `drop`, in order: PHP's array_diff. */
  function Without(s: seq<string>, drop: set<string>): (r: seq<string>)
    ensures |r| <= |s|
  {
    if s == [] then []
    else (if s[0] in drop then [] else [s[0]]) + Without(s[1..], drop)
  }

  /** `s` restricted to the names in `keep`, in order. */
  function Retain(s: seq<string>, keep: set<string>): (r: seq<string>) {
    if s == [] then []
    else (if s[0] in keep then [s[0]] else []) + Retain(s[1..], keep)
  }

  /** array_diff keeps exactly the names that are not dropped. */
  lemma {:induction false} WithoutMembers(s: seq<string>, drop: set<string>, x: string)
    ensures x in Without(s, drop) <==> x in s && x !in drop
  {
    if s != [] {
      WithoutMembers(s[1..], drop, x);
      assert s == [s[0]] + s[1..];
    }
  }

  lemma {:induction false} WithoutAgree(s: seq<string>, drop1: set<string>, drop2: set<string>)
    requires forall x :: x in s ==> (x in drop1 <==> x in drop2)
    ensures Without(s, drop1) == Without(s, drop2)
  {
    if s != [] {
      assert forall x :: x in s[1..] ==> x in s;
      WithoutAgree(s[1..], drop1, drop2);
    }
  }

  /** Deleting one more function after a batch is deleting the larger batch. */
  lemma {:induction false} WithoutWithout(s: seq<string>, drop: set<string>, f: string)
    ensures Without(Without(s, drop), {f}) == Without(s, drop + {f})
  {
    if s != [] {
      var x, t := s[0], s[1..];
      WithoutWithout(t, drop, f);
      if x in drop {
        assert Without(s, drop) == Without(t, drop);
      } else {
        var w := Without(s, drop);
        assert w == [x] + Without(t, drop);
        assert w[0] == x && w[1..] == Without(t, drop);
        assert Without(w, {f}) == (if x == f then [] else [x]) + Without(Without(t, drop), {f});
      }
    }
  }

  lemma {:induction false} WithoutNothing(s: seq<string>)
    ensures Without(s, {}) == s
  {
    if s != [] {
      WithoutNothing(s[1..]);
      assert s == [s[0]] + s[1..];
    }
  }

  /**
   * Deleting the live functions that the snapshot does not list (array_diff)
   * leaves exactly the live functions it does list, in their order.
   */
  lemma {:induction false} DeleteUnlistedRetainsListed(s: seq<string>, listed: set<string>)
    ensures Without(s, Elements(Without(s, listed))) == Retain(s, listed)
  {
    if s != [] {
      var x, t := s[0], s[1..];
      DeleteUnlistedRetainsListed(t, listed);
      var doomedT := Elements(Without(t, listed));
      var doomed := Elements(Without(s, listed));
      assert Without(s, listed) == (if x in listed then [] else [x]) + Without(t, listed);
      forall y | y in t ensures y in doomed <==> y in doomedT {
        WithoutMembers(t, listed, y);
        WithoutMembers(s, listed, y);
        assert y in s;
      }
      WithoutAgree(t, doomed, doomedT);
      WithoutMembers(s, listed, x);
      assert x in s;
    }
  }

  /**
   * restoreFunctions: throws when uopz_delete is not available; otherwise
   * deletes every live user function the snapshot does not list.
   */
  method RestoreFunctions(rt: Store, snapshot: SnapshotView) returns (outcome: Outcome<RestoreError>)
    modifies rt`userFunctions
    ensures !rt.uopzAvailable ==> outcome == Fail(UopzDeleteUnavailable) && rt.userFunctions == old(rt.userFunctions)
    ensures rt.uopzAvailable ==>
      outcome == Pass && rt.userFunctions == Retain(old(rt.userFunctions), Elements(snapshot.functions))
  {
    if !rt.uopzAvailable {
      return Fail(UopzDeleteUnavailable);
    }
    ghost var live := rt.userFunctions;
    var listed := Elements(snapshot.functions);
    var doomed := Without(rt.userFunctions, listed);
    var i := 0;
    assert Elements(doomed[..0]) == {};
    WithoutNothing(live);
    while i < |doomed|
      invariant 0 <= i <= |doomed|
      invariant rt.userFunctions == Without(live, Elements(doomed[..i]))
    {
      WithoutWithout(live, Elements(doomed[..i]), doomed[i]);
      assert Elements(doomed[..i + 1]) == Elements(doomed[..i]) + {doomed[i]} by {
        assert doomed[..i + 1] == doomed[..i] + [doomed[i]];
      }
      rt.userFunctions := Without(rt.userFunctions, {doomed[i]});
      i := i + 1;
    }
    assert doomed[..i] == doomed;
    DeleteUnlistedRetainsListed(live, listed);
    return Pass;
  }
}
