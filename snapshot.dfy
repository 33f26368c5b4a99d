/**
 * Snapshot: the older API, in which the snapshot object both records global
 * state and restores it. It records
 *   - the user constants, functions, traits, included files and ini settings
 *     as plain copies;
 *   - the user-defined classes and interfaces: the longest run at the end of
 *     the declaration order that reflection reports as user-defined;
 *   - every super-global array and every global variable that is not left
 *     alone and is not a Closure, serialized;
 *   - every static property of the recorded classes that is not excluded and
 *     does not hold a Closure, serialized, grouped by class.
 * restore() writes the recorded globals, super-globals and static properties
 * back. Because a serialized string is never null, every recorded value
 * (null included) is restored, unlike the Restorer's isset test.
 */
module Snapshots {
  import opened Wrappers
  import opened PhpValues
  import opened Runtime
  import opened Exclusion
  import opened Containers

  // ---------------------------------------------------------------------
  // User-defined classes and interfaces

  /** array_reverse. */
  function Reverse<T>(s: seq<T>): (r: seq<T>)
    ensures |r| == |s| && forall k :: 0 <= k < |s| ==> r[k] == s[|s| - 1 - k]
  {
    seq(|s|, k requires 0 <= k < |s| => s[|s| - 1 - k])
  }

  /**
   * The names at the end of the declaration order that reflection reports as
   * user-defined, up to the last one it does not: the classes PHP declares
   * itself come first, so this is the run of user classes.
   */
  function UserDefinedSuffix(declared: seq<string>, table: ClassTable): (r: seq<string>)
    requires forall c :: c in declared ==> c in table
    decreases |declared|
  {
    if declared == [] || !table[declared[|declared| - 1]].userDefined then []
    else UserDefinedSuffix(declared[..|declared| - 1], table) + [declared[|declared| - 1]]
  }

  /**
   * UserDefinedSuffix is a suffix of the declaration order, all of whose
   * names are user-defined, and it is maximal: the name just before it (if
   * any) is not user-defined.
   */
  lemma {:induction false} UserDefinedSuffixShape(declared: seq<string>, table: ClassTable)
    requires forall c :: c in declared ==> c in table
    ensures var r := UserDefinedSuffix(declared, table);
      && |r| <= |declared|
      && (forall k :: 0 <= k < |r| ==> r[k] == declared[|declared| - |r| + k] && table[r[k]].userDefined)
      && (|r| < |declared| ==> !table[declared[|declared| - |r| - 1]].userDefined)
    decreases |declared|
  {
    if declared != [] && table[declared[|declared| - 1]].userDefined {
      var init := declared[..|declared| - 1];
      assert forall c :: c in init ==> c in declared;
      UserDefinedSuffixShape(init, table);
    }
  }

  /** Every name of the suffix is declared, so whatever holds of the declared classes holds of it. */
  lemma {:induction false} UserDefinedSuffixReadable(declared: seq<string>, table: ClassTable,
                                                     statics: map<StaticKey, Value>)
    requires forall c :: c in declared ==> c in table && StaticsReadable(table, statics, c)
    ensures forall c :: c in UserDefinedSuffix(declared, table) ==> StaticsReadable(table, statics, c)
    decreases |declared|
  {
    if declared != [] && table[declared[|declared| - 1]].userDefined {
      var init := declared[..|declared| - 1];
      assert forall c :: c in init ==> c in declared;
      UserDefinedSuffixReadable(init, table, statics);
      assert declared[|declared| - 1] in declared;
    }
  }

  /**
   * The suffix is the only one of its kind: a suffix whose names are all
   * user-defined and that is preceded by a name that is not (or by nothing)
   * is the one UserDefinedSuffix returns.
   */
  lemma {:induction false} UserDefinedSuffixUnique(declared: seq<string>, table: ClassTable, n: nat)
    requires forall c :: c in declared ==> c in table
    requires n <= |declared|
    requires forall k :: |declared| - n <= k < |declared| ==> table[declared[k]].userDefined
    requires n < |declared| ==> !table[declared[|declared| - n - 1]].userDefined
    ensures UserDefinedSuffix(declared, table) == declared[|declared| - n..]
    decreases |declared|
  {
    if n == 0 {
      assert declared[|declared|..] == [];
    } else {
      var last := |declared| - 1;
      var init := declared[..last];
      assert table[declared[last]].userDefined;
      InitDeclared(declared, table);
      forall k | |init| - (n - 1) <= k < |init| ensures table[init[k]].userDefined {
        assert init[k] == declared[k];
      }
      if n - 1 < |init| {
        assert init[|init| - n] == declared[|declared| - n - 1];
      }
      assert UserDefinedSuffix(declared, table) == UserDefinedSuffix(init, table) + [declared[last]];
      UserDefinedSuffixUnique(init, table, n - 1);
      assert declared[|declared| - n..] == init[|init| - (n - 1)..] + [declared[last]];
    }
  }

  /** Dropping the last declared name keeps every remaining one resolvable. */
  lemma InitDeclared(declared: seq<string>, table: ClassTable)
    requires declared != []
    requires forall c :: c in declared ==> c in table
    ensures forall c :: c in declared[..|declared| - 1] ==> c in table
  {
    forall c | c in declared[..|declared| - 1] ensures c in table {
      var k :| 0 <= k < |declared| - 1 && declared[..|declared| - 1][k] == c;
      assert declared[k] == c;
    }
  }

  /**
   * Scanning the reversed declaration order until the first name that is not
   * user-defined, then reversing what was scanned, yields UserDefinedSuffix.
   */
  lemma ScanFindsUserDefinedSuffix(declared: seq<string>, table: ClassTable, i: nat)
    requires forall c :: c in declared ==> c in table
    requires i <= |declared|
    requires forall k :: 0 <= k < i ==> table[Reverse(declared)[k]].userDefined
    requires i < |declared| ==> !table[Reverse(declared)[i]].userDefined
    ensures Reverse(Reverse(declared)[..i]) == UserDefinedSuffix(declared, table)
  {
    var reversed := Reverse(declared);
    forall k | |declared| - i <= k < |declared| ensures table[declared[k]].userDefined {
      assert declared[k] == reversed[|declared| - 1 - k];
    }
    UserDefinedSuffixUnique(declared, table, i);
    assert Reverse(reversed[..i]) == declared[|declared| - i..];
  }

  // ---------------------------------------------------------------------
  // Capturing globals and super-globals

  /** The entries of a live container whose keys are in `keys`, serialized. */
  function EncodeOver(live: map<Key, Value>, keys: set<Key>): (r: map<Key, Serialized>) {
    map k | k in live && k in keys :: Serialize(live[k])
  }

  /** snapshotSuperGlobalArray: every entry serialized, or nothing when the container holds no array. */
  function CapturedContainer(live: map<string, map<Key, Value>>, name: string): (r: map<Key, Serialized>)
    ensures name !in live ==> r == map[]
    ensures name in live ==>
      r.Keys == live[name].Keys && forall k :: k in r ==> Unserialize(r[k]) == live[name][k]
  {
    if name in live then EncodeOver(live[name], live[name].Keys) else map[]
  }

  function CapturedContainers(live: map<string, map<Key, Value>>, names: set<string>)
    : (r: map<string, map<Key, Serialized>>)
  {
    map n | n in names :: CapturedContainer(live, n)
  }

  /**
   * When every live container is one of the listed super-globals, as in a
   * consistent store, each is recorded and decodes to the live array.
   */
  lemma EverySuperGlobalCaptured(live: map<string, map<Key, Value>>, registerLongArrays: Option<string>)
    requires forall name :: name in live ==> name in SuperGlobalArrays(registerLongArrays)
    ensures var captured := CapturedContainers(live, Elements(SuperGlobalArrays(registerLongArrays)));
      forall name :: name in live ==> name in captured && Decode(captured[name]) == live[name]
  {
    var captured := CapturedContainers(live, Elements(SuperGlobalArrays(registerLongArrays)));
    forall name | name in live ensures name in captured && Decode(captured[name]) == live[name] {
      assert Decode(captured[name]).Keys == live[name].Keys;
    }
  }

  /** The globals the loop over `keys` records: not left alone, not a Closure. */
  function CaptureGlobalsOver(live: map<string, Value>, superGlobalArrays: seq<string>, rules: ExclusionRules,
                              keys: set<string>): (r: map<string, Serialized>)
  {
    map k | k in live && k in keys && !Untouched(k, superGlobalArrays, rules) && !IsClosure(live[k])
      :: Serialize(live[k])
  }

  function CapturedGlobals(live: map<string, Value>, superGlobalArrays: seq<string>, rules: ExclusionRules)
    : (r: map<string, Serialized>)
    ensures forall k :: k in r <==> k in live && !Untouched(k, superGlobalArrays, rules) && !IsClosure(live[k])
    ensures forall k :: k in r ==> Unserialize(r[k]) == live[k]
  {
    CaptureGlobalsOver(live, superGlobalArrays, rules, live.Keys)
  }

  // ---------------------------------------------------------------------
  // Capturing static properties

  /** Every static property in `properties` has a value. */
  ghost predicate PropertiesReadable(className: string, properties: seq<PropertyInfo>, statics: map<StaticKey, Value>) {
    forall k :: 0 <= k < |properties| && properties[k].isStatic ==> (className, properties[k].name) in statics
  }

  /**
   * The entries the loop over a class's properties records, in property
   * order: each static property that is not excluded and does not hold a
   * Closure, serialized.
   */
  function CapturedClassStatics(className: string, properties: seq<PropertyInfo>, statics: map<StaticKey, Value>,
                                rules: ExclusionRules, table: ClassTable): (r: seq<(string, Serialized)>)
    requires PropertiesReadable(className, properties, statics)
    decreases |properties|
  {
    if properties == [] then []
    else
      var prev := CapturedClassStatics(className, properties[..|properties| - 1], statics, rules, table);
      var last := properties[|properties| - 1];
      if last.isStatic && !Excludes(rules, table, className, last.name) && !IsClosure(statics[(className, last.name)])
      then prev + [(last.name, Serialize(statics[(className, last.name)]))]
      else prev
  }

  /** snapshotStaticAttributes: one entry per recorded class with at least one recorded property. */
  function CapturedStatics(classes: seq<string>, table: ClassTable, statics: map<StaticKey, Value>,
                           rules: ExclusionRules): (r: seq<(string, seq<(string, Serialized)>)>)
    requires forall c :: c in classes ==> StaticsReadable(table, statics, c)
    decreases |classes|
  {
    if classes == [] then []
    else
      var prev := CapturedStatics(classes[..|classes| - 1], table, statics, rules);
      var c := classes[|classes| - 1];
      assert c in classes && StaticsReadable(table, statics, c);
      var entries := CapturedClassStatics(c, table[c].properties, statics, rules, table);
      if entries == [] then prev else prev + [(c, entries)]
  }

  /** What it takes for the static property `key` to be recorded, given its class's properties. */
  ghost predicate PropertyRecorded(properties: seq<PropertyInfo>, statics: map<StaticKey, Value>,
                                   rules: ExclusionRules, table: ClassTable, key: StaticKey)
  {
    && (exists k :: 0 <= k < |properties| && properties[k] == PropertyInfo(key.1, true))
    && !Excludes(rules, table, key.0, key.1)
    && key in statics && !IsClosure(statics[key])
  }

  /** The static property `key` is recorded by a snapshot of `classes`. */
  ghost predicate IsRecorded(classes: seq<string>, table: ClassTable, statics: map<StaticKey, Value>,
                             rules: ExclusionRules, key: StaticKey)
  {
    key.0 in classes && key.0 in table && PropertyRecorded(table[key.0].properties, statics, rules, table, key)
  }

  /**
   * The writes a class's recorded entries stand for are exactly the
   * recorded properties of that class, each with its serialized value.
   */
  lemma {:induction false} CapturedClassStaticsMembers(className: string, properties: seq<PropertyInfo>,
                                                       statics: map<StaticKey, Value>, rules: ExclusionRules,
                                                       table: ClassTable, w: (StaticKey, Serialized))
    requires PropertiesReadable(className, properties, statics)
    ensures w in ClassWrites(className, CapturedClassStatics(className, properties, statics, rules, table)) <==>
      w.0.0 == className && PropertyRecorded(properties, statics, rules, table, w.0) && w.1 == Serialize(statics[w.0])
    decreases |properties|
  {
    if properties == [] {
      var none: seq<(string, Serialized)> := [];
      assert ClassWrites(className, none) == [];
    } else {
      var init := properties[..|properties| - 1];
      var last := properties[|properties| - 1];
      var prev := CapturedClassStatics(className, init, statics, rules, table);
      CapturedClassStaticsMembers(className, init, statics, rules, table, w);
      var key := (className, last.name);
      if last.isStatic && !Excludes(rules, table, className, last.name) && !IsClosure(statics[key]) {
        assert ClassWrites(className, prev + [(last.name, Serialize(statics[key]))]) ==
               ClassWrites(className, prev) + [(key, Serialize(statics[key]))];
      }
      if w.0.0 == className && PropertyRecorded(properties, statics, rules, table, w.0) {
        var k :| 0 <= k < |properties| && properties[k] == PropertyInfo(w.0.1, true);
        if k < |properties| - 1 {
          assert init[k] == properties[k];
        }
      }
      if w.0.0 == className && PropertyRecorded(init, statics, rules, table, w.0) {
        var k :| 0 <= k < |init| && init[k] == PropertyInfo(w.0.1, true);
        assert properties[k] == init[k];
      }
    }
  }

  /**
   * The writes a snapshot's static entries stand for are exactly the
   * recorded properties, each with its serialized value.
   */
  lemma {:induction false} CapturedStaticsMembers(classes: seq<string>, table: ClassTable,
                                                  statics: map<StaticKey, Value>, rules: ExclusionRules,
                                                  w: (StaticKey, Serialized))
    requires forall c :: c in classes ==> StaticsReadable(table, statics, c)
    ensures w in Flatten(CapturedStatics(classes, table, statics, rules)) <==>
      IsRecorded(classes, table, statics, rules, w.0) && w.1 == Serialize(statics[w.0])
    decreases |classes|
  {
    if classes != [] {
      var init := classes[..|classes| - 1];
      var c := classes[|classes| - 1];
      assert c in classes && StaticsReadable(table, statics, c);
      assert forall x :: x in init ==> x in classes;
      var prev := CapturedStatics(init, table, statics, rules);
      var entries := CapturedClassStatics(c, table[c].properties, statics, rules, table);
      CapturedStaticsMembers(init, table, statics, rules, w);
      CapturedClassStaticsMembers(c, table[c].properties, statics, rules, table, w);
      if entries == [] {
        assert ClassWrites(c, entries) == [];
        assert Flatten(CapturedStatics(classes, table, statics, rules)) == Flatten(prev) + ClassWrites(c, entries);
      } else {
        assert (prev + [(c, entries)])[..|prev|] == prev;
        assert Flatten(CapturedStatics(classes, table, statics, rules)) == Flatten(prev) + ClassWrites(c, entries);
      }
      assert w.0.0 in classes <==> w.0.0 in init || w.0.0 == c;
    }
  }

  /** Every recorded class has at least one recorded property and is one of the classes visited. */
  lemma {:induction false} CapturedStaticsNonEmpty(classes: seq<string>, table: ClassTable,
                                                   statics: map<StaticKey, Value>, rules: ExclusionRules)
    requires forall c :: c in classes ==> StaticsReadable(table, statics, c)
    ensures forall i :: 0 <= i < |CapturedStatics(classes, table, statics, rules)| ==>
      CapturedStatics(classes, table, statics, rules)[i].1 != [] &&
      CapturedStatics(classes, table, statics, rules)[i].0 in classes
    decreases |classes|
  {
    if classes != [] {
      var init := classes[..|classes| - 1];
      var c := classes[|classes| - 1];
      assert c in classes && StaticsReadable(table, statics, c);
      assert forall x :: x in init ==> x in classes;
      CapturedStaticsNonEmpty(init, table, statics, rules);
      var prev := CapturedStatics(init, table, statics, rules);
      var entries := CapturedClassStatics(c, table[c].properties, statics, rules, table);
      var captured := CapturedStatics(classes, table, statics, rules);
      assert captured == if entries == [] then prev else prev + [(c, entries)];
      forall i | 0 <= i < |captured| ensures captured[i].1 != [] && captured[i].0 in classes {
        if i < |prev| {
          assert captured[i] == prev[i] && prev[i].0 in init;
        }
      }
    }
  }

  // ---------------------------------------------------------------------
  // Restoring

  /** The saved container as values. */
  function Decode(saved: map<Key, Serialized>): (r: map<Key, Value>) {
    map k | k in saved :: Unserialize(saved[k])
  }

  /**
   * The live container after the restore loop has visited `keys`: a visited
   * key holds the saved value when there is one (a serialized string is
   * always set) and is unset otherwise; an unvisited key keeps its value.
   */
  function RestoreContainerOver(live: map<Key, Value>, saved: map<Key, Serialized>, keys: set<Key>): (r: map<Key, Value>) {
    map k | k in live.Keys + keys && (k in keys ==> k in saved)
      :: if k in keys then Unserialize(saved[k]) else live[k]
  }

  /** The restore loop visiting the union of live and saved keys. */
  function RestoreContainer(live: map<Key, Value>, saved: map<Key, Serialized>): (r: map<Key, Value>) {
    RestoreContainerOver(live, saved, live.Keys + saved.Keys)
  }

  /** The restore loop visiting the keys of `array_merge($live, $saved)`, as the source computes them. */
  function RestoreContainerAsWritten(live: map<Key, Value>, saved: map<Key, Serialized>): (r: map<Key, Value>)
    ensures r.Keys <= live.Keys + saved.Keys
    ensures forall s :: StrKey(s) in r <==> StrKey(s) in saved
    ensures forall s :: StrKey(s) in r ==> r[StrKey(s)] == Unserialize(saved[StrKey(s)])
  {
    RestoreContainerOver(live, saved, ArrayMergeKeys(live, saved))
  }

  /** Visiting the union makes the live container equal the saved one, nulls included. */
  lemma RestoreContainerIsSaved(live: map<Key, Value>, saved: map<Key, Serialized>)
    ensures RestoreContainer(live, saved) == Decode(saved)
  {
    var r := RestoreContainer(live, saved);
    assert r.Keys == Decode(saved).Keys;
  }

  /** A super-global captured and then restored is the captured array again, whatever happened in between. */
  lemma ContainerRoundTrip(captured: map<Key, Value>, later: map<Key, Value>)
    ensures RestoreContainer(later, EncodeOver(captured, captured.Keys)) == captured
  {
    RestoreContainerIsSaved(later, EncodeOver(captured, captured.Keys));
    assert Decode(EncodeOver(captured, captured.Keys)).Keys == captured.Keys;
  }

  /**
   * With integer keys the merged keys miss the live key: an entry `5 => 'x'`
   * added to `$_GET` after the snapshot survives the restore as written.
   */
  lemma SnapshotAddedIntegerKeySurvivesRestore()
    ensures var added := map[IntKey(5) := Str("x")];
      && RestoreContainerAsWritten(added, map[]) == added
      && RestoreContainer(added, map[]) == map[]
  {
    var added := map[IntKey(5) := Str("x")];
    var none: map<Key, Serialized> := map[];
    IntKeyCountOfOne(added, 5);
    assert IntKeyCount(none) == 0;
    RestoreContainerOverUnsaved(added, none, ArrayMergeKeys(added, none));
    assert (map k | k in added && k !in ArrayMergeKeys(added, none) :: added[k]) == added;
    RestoreContainerIsSaved(added, none);
  }

  /** Visiting keys the snapshot did not record only unsets them. */
  lemma RestoreContainerOverUnsaved(live: map<Key, Value>, saved: map<Key, Serialized>, keys: set<Key>)
    requires keys !! saved.Keys
    ensures RestoreContainerOver(live, saved, keys) == map k | k in live && k !in keys :: live[k]
  {
  }

  lemma RestoreContainerOverStep(live: map<Key, Value>, saved: map<Key, Serialized>, keys: set<Key>, key: Key)
    requires key !in keys
    ensures RestoreContainerOver(live, saved, keys + {key}) ==
      if key in saved then RestoreContainerOver(live, saved, keys)[key := Unserialize(saved[key])]
      else RestoreContainerOver(live, saved, keys) - {key}
  {
  }

  /**
   * The containers after restoring each named super-global: those that hold
   * an array live and were recorded become the recorded array.
   */
  function RestoredContainers(live: map<string, map<Key, Value>>, saved: map<string, map<Key, Serialized>>,
                              names: set<string>): (r: map<string, map<Key, Value>>)
  {
    map n | n in live :: if n in names && n in saved then Decode(saved[n]) else live[n]
  }

  lemma RestoredContainersStep(live: map<string, map<Key, Value>>, saved: map<string, map<Key, Serialized>>,
                               names: seq<string>, i: nat, current: map<string, map<Key, Value>>)
    requires i < |names|
    requires current == RestoredContainers(live, saved, Elements(names[..i]))
    ensures var name := names[i];
      RestoredContainers(live, saved, Elements(names[..i + 1])) ==
        if name in current && name in saved then current[name := RestoreContainer(current[name], saved[name])]
        else current
  {
    var name := names[i];
    assert names[..i + 1] == names[..i] + [name];
    assert Elements(names[..i + 1]) == Elements(names[..i]) + {name};
    if name in current && name in saved {
      RestoreContainerIsSaved(current[name], saved[name]);
    }
  }

  /**
   * The globals after the loop has visited `keys`: a visited name that is not
   * left alone holds the recorded value if there is one and is unset
   * otherwise; every other name keeps its live value.
   */
  function RestoreGlobalsOver(live: map<string, Value>, saved: map<string, Serialized>, superGlobalArrays: seq<string>,
                              rules: ExclusionRules, keys: set<string>): (r: map<string, Value>)
  {
    map k | k in live && (k !in keys || Untouched(k, superGlobalArrays, rules) || k in saved)
      :: if k in keys && !Untouched(k, superGlobalArrays, rules) then Unserialize(saved[k]) else live[k]
  }

  function RestoredGlobals(live: map<string, Value>, saved: map<string, Serialized>, superGlobalArrays: seq<string>,
                           rules: ExclusionRules): (r: map<string, Value>)
  {
    RestoreGlobalsOver(live, saved, superGlobalArrays, rules, live.Keys)
  }

  lemma RestoreGlobalsStep(live: map<string, Value>, saved: map<string, Serialized>, superGlobalArrays: seq<string>,
                           rules: ExclusionRules, keys: set<string>, key: string)
    requires key !in keys && key in live
    ensures RestoreGlobalsOver(live, saved, superGlobalArrays, rules, keys + {key}) ==
      if Untouched(key, superGlobalArrays, rules) then RestoreGlobalsOver(live, saved, superGlobalArrays, rules, keys)
      else if key in saved then RestoreGlobalsOver(live, saved, superGlobalArrays, rules, keys)[key := Unserialize(saved[key])]
      else RestoreGlobalsOver(live, saved, superGlobalArrays, rules, keys) - {key}
  {
  }

  /**
   * Capture, then restore onto a later state (possibly with another policy):
   * a name left alone at restore time keeps its later value; any other later
   * name comes back with its captured value if it was captured, and is unset
   * if it was not (it is new, was left alone at capture, or held a Closure).
   * Names deleted since the capture are not recreated.
   */
  lemma GlobalsRoundTrip(captured: map<string, Value>, later: map<string, Value>, superGlobalArrays: seq<string>,
                         captureRules: ExclusionRules, restoreRules: ExclusionRules, key: string)
    ensures var r := RestoredGlobals(later, CapturedGlobals(captured, superGlobalArrays, captureRules),
                                     superGlobalArrays, restoreRules);
      && (key in r <==>
            key in later &&
            (Untouched(key, superGlobalArrays, restoreRules) ||
             (key in captured && !Untouched(key, superGlobalArrays, captureRules) && !IsClosure(captured[key]))))
      && (key in r ==> r[key] == if Untouched(key, superGlobalArrays, restoreRules) then later[key] else captured[key])
  {
  }

  /**
   * restore() only drops names of `$GLOBALS`, never adds a container and
   * leaves the super-global names alone, so the store keeps its split.
   */
  lemma RestoreKeepsContainersSplit(globals: map<string, Value>, superGlobals: map<string, map<Key, Value>>,
                                    recorded: map<string, Serialized>, recordedContainers: map<string, map<Key, Serialized>>,
                                    rules: ExclusionRules, registerLongArrays: Option<string>)
    requires ContainersSplit(globals, superGlobals, registerLongArrays)
    ensures var names := SuperGlobalArrays(registerLongArrays);
      ContainersSplit(
        RestoredGlobals(globals, recorded, names, rules),
        RestoredContainers(superGlobals, recordedContainers, Elements(names)),
        registerLongArrays)
  {
    var names := SuperGlobalArrays(registerLongArrays);
    var globals' := RestoredGlobals(globals, recorded, names, rules);
    var superGlobals' := RestoredContainers(superGlobals, recordedContainers, Elements(names));
    assert globals'.Keys <= globals.Keys;
    assert superGlobals'.Keys == superGlobals.Keys;
    forall name | name in globals' && name in names
      ensures globals'[name] == globals[name]
    {
      assert Untouched(name, names, rules);
    }
    ContainersSplitShrinks(globals, superGlobals, globals', superGlobals', registerLongArrays);
  }

  /** Restoring right after capturing, with the same policy, only unsets the globals that hold Closures. */
  lemma GlobalsRestoreAfterCapture(live: map<string, Value>, superGlobalArrays: seq<string>, rules: ExclusionRules)
    ensures RestoredGlobals(live, CapturedGlobals(live, superGlobalArrays, rules), superGlobalArrays, rules) ==
      map k | k in live && (Untouched(k, superGlobalArrays, rules) || !IsClosure(live[k])) :: live[k]
  {
    var r := RestoredGlobals(live, CapturedGlobals(live, superGlobalArrays, rules), superGlobalArrays, rules);
    var expected := map k | k in live && (Untouched(k, superGlobalArrays, rules) || !IsClosure(live[k])) :: live[k];
    forall k ensures k in r <==> k in expected {
      GlobalsRoundTrip(live, live, superGlobalArrays, rules, rules, k);
    }
    assert r.Keys == expected.Keys;
  }

  /** The recorded static entries as values. */
  function DecodeAttributes(attributes: seq<(string, seq<(string, Serialized)>)>)
    : (decoded: seq<(string, seq<(string, Value)>)>)
    ensures |decoded| == |attributes|
    ensures forall i :: 0 <= i < |attributes| ==>
      decoded[i].0 == attributes[i].0 && |decoded[i].1| == |attributes[i].1| &&
      forall j :: 0 <= j < |attributes[i].1| ==>
        decoded[i].1[j] == (attributes[i].1[j].0, Unserialize(attributes[i].1[j].1))
  {
    seq(|attributes|, i requires 0 <= i < |attributes| =>
      (attributes[i].0, seq(|attributes[i].1|, j requires 0 <= j < |attributes[i].1| =>
        (attributes[i].1[j].0, Unserialize(attributes[i].1[j].1)))))
  }

  function DecodeWrites(writes: seq<(StaticKey, Serialized)>): (r: seq<(StaticKey, Value)>)
    ensures |r| == |writes| && forall k :: 0 <= k < |writes| ==> r[k] == (writes[k].0, Unserialize(writes[k].1))
  {
    seq(|writes|, k requires 0 <= k < |writes| => (writes[k].0, Unserialize(writes[k].1)))
  }

  /** Decoding class by class and then flattening is decoding the flattened writes. */
  lemma {:induction false} FlattenDecode(attributes: seq<(string, seq<(string, Serialized)>)>)
    ensures Flatten(DecodeAttributes(attributes)) == DecodeWrites(Flatten(attributes))
    decreases |attributes|
  {
    if attributes != [] {
      var n := |attributes|;
      var init := attributes[..n - 1];
      var last := attributes[n - 1];
      FlattenDecode(init);
      var decoded := DecodeAttributes(attributes);
      assert decoded[..n - 1] == DecodeAttributes(init);
      assert ClassWrites(decoded[n - 1].0, decoded[n - 1].1) == DecodeWrites(ClassWrites(last.0, last.1));
      assert DecodeWrites(Flatten(init) + ClassWrites(last.0, last.1)) ==
             DecodeWrites(Flatten(init)) + DecodeWrites(ClassWrites(last.0, last.1));
    }
  }

  /** The static properties a snapshot of `classes` records. */
  ghost function RecordedKeys(classes: seq<string>, table: ClassTable, statics: map<StaticKey, Value>,
                              rules: ExclusionRules): (keys: set<StaticKey>)
    ensures forall key :: key in keys <==> IsRecorded(classes, table, statics, rules, key)
  {
    set key | key in statics && IsRecorded(classes, table, statics, rules, key)
  }

  /**
   * The decoded writes of a snapshot's static entries: each names a recorded
   * property and carries its captured value, and every recorded property is
   * named.
   */
  lemma CapturedStaticWrites(classes: seq<string>, table: ClassTable, captured: map<StaticKey, Value>,
                             rules: ExclusionRules)
    requires forall c :: c in classes ==> StaticsReadable(table, captured, c)
    ensures var writes := Flatten(DecodeAttributes(CapturedStatics(classes, table, captured, rules)));
      && (forall w :: w in writes ==> w.0 in captured && w.1 == captured[w.0])
      && WrittenKeys(writes) == RecordedKeys(classes, table, captured, rules)
  {
    var attributes := CapturedStatics(classes, table, captured, rules);
    FlattenDecode(attributes);
    var flat := Flatten(attributes);
    var writes := DecodeWrites(flat);
    var recorded := RecordedKeys(classes, table, captured, rules);
    forall w | w in writes ensures w.0 in recorded && w.1 == captured[w.0] {
      var j :| 0 <= j < |writes| && writes[j] == w;
      CapturedStaticsMembers(classes, table, captured, rules, flat[j]);
    }
    forall key | key in recorded ensures key in WrittenKeys(writes) {
      CapturedStaticsMembers(classes, table, captured, rules, (key, Serialize(captured[key])));
      var j :| 0 <= j < |flat| && flat[j] == (key, Serialize(captured[key]));
      assert writes[j] in writes;
    }
  }

  /**
   * Static properties captured and then restored onto a later state in which
   * every recorded property still exists: the restore does not throw, every
   * recorded property holds its captured value again, and every other static
   * property keeps its later value.
   */
  lemma StaticAttributesRoundTrip(classes: seq<string>, table: ClassTable, captured: map<StaticKey, Value>,
                                  rules: ExclusionRules, later: map<StaticKey, Value>)
    requires forall c :: c in classes ==> StaticsReadable(table, captured, c)
    requires RecordedKeys(classes, table, captured, rules) <= later.Keys
    ensures WriteStatics(later, Flatten(DecodeAttributes(CapturedStatics(classes, table, captured, rules)))) ==
      (map key | key in later ::
         if key in RecordedKeys(classes, table, captured, rules) then captured[key] else later[key], None)
  {
    var writes := Flatten(DecodeAttributes(CapturedStatics(classes, table, captured, rules)));
    CapturedStaticWrites(classes, table, captured, rules);
    WriteStaticsAgreeing(later, writes, captured);
  }

  /** The static restore throws exactly when some recorded property no longer exists. */
  lemma StaticAttributesRestoreThrows(classes: seq<string>, table: ClassTable, captured: map<StaticKey, Value>,
                                      rules: ExclusionRules, later: map<StaticKey, Value>)
    requires forall c :: c in classes ==> StaticsReadable(table, captured, c)
    ensures WriteStatics(later, Flatten(DecodeAttributes(CapturedStatics(classes, table, captured, rules)))).1.Some?
      <==> !(RecordedKeys(classes, table, captured, rules) <= later.Keys)
  {
    var writes := Flatten(DecodeAttributes(CapturedStatics(classes, table, captured, rules)));
    CapturedStaticWrites(classes, table, captured, rules);
    WriteStaticsThrows(later, writes);
  }

  lemma CapturedContainersStep(live: map<string, map<Key, Value>>, names: seq<string>, i: nat)
    requires i < |names|
    ensures CapturedContainers(live, Elements(names[..i + 1])) ==
      CapturedContainers(live, Elements(names[..i]))[names[i] := CapturedContainer(live, names[i])]
  {
    assert names[..i + 1] == names[..i] + [names[i]];
    assert Elements(names[..i + 1]) == Elements(names[..i]) + {names[i]};
  }

  // ---------------------------------------------------------------------
  // The snapshot object

  class Snapshot {
    const blacklist: ExcludeList
    var globals: map<string, Serialized>
    var superGlobals: map<string, map<Key, Serialized>>
    var staticAttributes: seq<(string, seq<(string, Serialized)>)>
    var iniSettings: seq<(string, Value)>
    var includedFiles: seq<string>
    var constants: seq<(string, Value)>
    var classes: seq<string>
    var interfaces: seq<string>
    var functions: seq<string>
    var traits: seq<string>

    /**
     * Records the state of `rt`, leaving alone what `blacklist` (or, when
     * none is given, a fresh empty list) excludes.
     */
    constructor (blacklist: ExcludeList?, rt: Store)
      requires rt.Consistent()
      ensures blacklist != null ==> this.blacklist == blacklist
      ensures blacklist == null ==> fresh(this.blacklist) && this.blacklist.Rules() == NoRules
      ensures constants == rt.userConstants && functions == rt.userFunctions
      ensures classes == UserDefinedSuffix(rt.declaredClasses, rt.classTable)
      ensures forall c :: c in classes ==> StaticsReadable(rt.classTable, rt.statics, c)
      ensures interfaces == UserDefinedSuffix(rt.declaredInterfaces, rt.classTable)
      ensures superGlobals == CapturedContainers(rt.superGlobals, Elements(SuperGlobalArrays(rt.registerLongArrays)))
      ensures forall name :: name in rt.superGlobals ==>
        name in superGlobals && Decode(superGlobals[name]) == rt.superGlobals[name]
      ensures globals == CapturedGlobals(rt.globals, SuperGlobalArrays(rt.registerLongArrays), this.blacklist.Rules())
      ensures staticAttributes == CapturedStatics(classes, rt.classTable, rt.statics, this.blacklist.Rules())
      ensures iniSettings == rt.iniSettings && includedFiles == rt.includedFiles
      ensures traits == if rt.declaredTraits.Some? then rt.declaredTraits.value else []
    {
      UserDefinedSuffixReadable(rt.declaredClasses, rt.classTable, rt.statics);
      EverySuperGlobalCaptured(rt.superGlobals, rt.registerLongArrays);
      var list: ExcludeList;
      if blacklist == null {
        list := new ExcludeList();
      } else {
        list := blacklist;
      }
      var userConstants := SnapshotConstants(rt);
      var userFunctions := SnapshotFunctions(rt);
      var userClasses := SnapshotClasses(rt);
      var userInterfaces := SnapshotInterfaces(rt);
      var capturedGlobals, capturedSuperGlobals := SnapshotGlobals(rt, list);
      var capturedStatics := SnapshotStaticAttributes(rt, list, userClasses);
      this.blacklist := list;
      constants, functions, classes, interfaces := userConstants, userFunctions, userClasses, userInterfaces;
      globals, superGlobals, staticAttributes := capturedGlobals, capturedSuperGlobals, capturedStatics;
      iniSettings := rt.iniSettings;
      includedFiles := rt.includedFiles;
      traits := if rt.declaredTraits.Some? then rt.declaredTraits.value else [];
    }

    /** restore(): the globals and super-globals, then the static properties. */
    method Restore(rt: Store) returns (missing: Option<StaticKey>)
      modifies rt`globals, rt`superGlobals, rt`statics
      ensures old(rt.Consistent()) ==> rt.Consistent()
      ensures rt.superGlobals ==
        RestoredContainers(old(rt.superGlobals), superGlobals, Elements(SuperGlobalArrays(rt.registerLongArrays)))
      ensures rt.globals ==
        RestoredGlobals(old(rt.globals), globals, SuperGlobalArrays(rt.registerLongArrays), blacklist.Rules())
      ensures (rt.statics, missing) == WriteStatics(old(rt.statics), Flatten(DecodeAttributes(staticAttributes)))
    {
      if rt.Consistent() {
        RestoreKeepsContainersSplit(rt.globals, rt.superGlobals, globals, superGlobals, blacklist.Rules(),
                                    rt.registerLongArrays);
        WriteStaticsKeepsReflection(rt.classTable, rt.declaredClasses, rt.declaredInterfaces, rt.statics,
                                    Flatten(DecodeAttributes(staticAttributes)));
      }
      RestoreGlobalVariables(rt);
      missing := RestoreStaticAttributes(rt);
    }

    /** get_defined_constants(true)['user'], or nothing when there are no user constants. */
    static method SnapshotConstants(rt: Store) returns (constants: seq<(string, Value)>)
      ensures constants == rt.userConstants
    {
      constants := rt.userConstants;
    }

    static method SnapshotFunctions(rt: Store) returns (functions: seq<string>)
      ensures functions == rt.userFunctions
    {
      functions := rt.userFunctions;
    }

    /**
     * Walks the declared classes from the most recent one back, stopping at
     * the first that is not user-defined, and returns the run in declaration
     * order.
     */
    static method SnapshotClasses(rt: Store) returns (classes: seq<string>)
      requires forall c :: c in rt.declaredClasses ==> c in rt.classTable
      ensures classes == UserDefinedSuffix(rt.declaredClasses, rt.classTable)
    {
      var declared := Reverse(rt.declaredClasses);
      classes := [];
      var i := 0;
      while i < |declared|
        invariant 0 <= i <= |declared|
        invariant classes == declared[..i]
        invariant forall k :: 0 <= k < i ==> rt.classTable[declared[k]].userDefined
      {
        var className := declared[i];
        assert className in rt.declaredClasses;
        if !rt.classTable[className].userDefined {
          break;
        }
        classes := classes + [className];
        i := i + 1;
      }
      ScanFindsUserDefinedSuffix(rt.declaredClasses, rt.classTable, i);
      classes := Reverse(classes);
    }

    static method SnapshotInterfaces(rt: Store) returns (interfaces: seq<string>)
      requires forall c :: c in rt.declaredInterfaces ==> c in rt.classTable
      ensures interfaces == UserDefinedSuffix(rt.declaredInterfaces, rt.classTable)
    {
      var declared := Reverse(rt.declaredInterfaces);
      interfaces := [];
      var i := 0;
      while i < |declared|
        invariant 0 <= i <= |declared|
        invariant interfaces == declared[..i]
        invariant forall k :: 0 <= k < i ==> rt.classTable[declared[k]].userDefined
      {
        var interfaceName := declared[i];
        assert interfaceName in rt.declaredInterfaces;
        if !rt.classTable[interfaceName].userDefined {
          break;
        }
        interfaces := interfaces + [interfaceName];
        i := i + 1;
      }
      ScanFindsUserDefinedSuffix(rt.declaredInterfaces, rt.classTable, i);
      interfaces := Reverse(interfaces);
    }

    /** The super-global arrays first, then every global that is not left alone and not a Closure. */
    static method SnapshotGlobals(rt: Store, blacklist: ExcludeList)
      returns (globals: map<string, Serialized>, superGlobals: map<string, map<Key, Serialized>>)
      ensures superGlobals == CapturedContainers(rt.superGlobals, Elements(SuperGlobalArrays(rt.registerLongArrays)))
      ensures globals == CapturedGlobals(rt.globals, SuperGlobalArrays(rt.registerLongArrays), blacklist.Rules())
    {
      var superGlobalArrays := SuperGlobalArrays(rt.registerLongArrays);
      superGlobals := map[];
      var i := 0;
      assert Elements(superGlobalArrays[..0]) == {};
      assert CapturedContainers(rt.superGlobals, {}) == map[];
      while i < |superGlobalArrays|
        invariant 0 <= i <= |superGlobalArrays|
        invariant superGlobals == CapturedContainers(rt.superGlobals, Elements(superGlobalArrays[..i]))
      {
        var container := SnapshotSuperGlobalArray(rt, superGlobalArrays[i]);
        superGlobals := superGlobals[superGlobalArrays[i] := container];
        CapturedContainersStep(rt.superGlobals, superGlobalArrays, i);
        i := i + 1;
      }
      assert superGlobalArrays[..i] == superGlobalArrays;

      ghost var rules := blacklist.Rules();
      globals := map[];
      var keys := rt.globals.Keys;
      ghost var visited: set<string> := {};
      assert CaptureGlobalsOver(rt.globals, superGlobalArrays, rules, visited) == map[];
      while keys != {}
        invariant visited + keys == rt.globals.Keys && visited !! keys
        invariant globals == CaptureGlobalsOver(rt.globals, superGlobalArrays, rules, visited)
        decreases keys
      {
        var key :| key in keys;
        if key != "GLOBALS" && key !in superGlobalArrays && !IsClosure(rt.globals[key]) &&
           !blacklist.IsGlobalVariableExcluded(key) {
          globals := globals[key := Serialize(rt.globals[key])];
        }
        keys := keys - {key};
        visited := visited + {key};
      }
    }

    /** Every entry of one super-global array, serialized; nothing when it is unset or not an array. */
    static method SnapshotSuperGlobalArray(rt: Store, superGlobalArray: string) returns (container: map<Key, Serialized>)
      ensures container == CapturedContainer(rt.superGlobals, superGlobalArray)
    {
      container := map[];
      if superGlobalArray in rt.superGlobals {
        var live := rt.superGlobals[superGlobalArray];
        var keys := live.Keys;
        ghost var visited: set<Key> := {};
        assert EncodeOver(live, visited) == map[];
        while keys != {}
          invariant visited + keys == live.Keys && visited !! keys
          invariant container == EncodeOver(live, visited)
          decreases keys
        {
          var key :| key in keys;
          assert EncodeOver(live, visited + {key}) == EncodeOver(live, visited)[key := Serialize(live[key])];
          container := container[key := Serialize(live[key])];
          keys := keys - {key};
          visited := visited + {key};
        }
      }
    }

    /**
     * For each recorded class, the static properties that are not excluded and
     * do not hold a Closure; a class with none is not recorded.
     */
    static method SnapshotStaticAttributes(rt: Store, blacklist: ExcludeList, classes: seq<string>)
      returns (staticAttributes: seq<(string, seq<(string, Serialized)>)>)
      requires forall c :: c in classes ==> StaticsReadable(rt.classTable, rt.statics, c)
      ensures staticAttributes == CapturedStatics(classes, rt.classTable, rt.statics, blacklist.Rules())
    {
      ghost var rules := blacklist.Rules();
      staticAttributes := [];
      var i := 0;
      assert classes[..0] == [];
      while i < |classes|
        invariant 0 <= i <= |classes|
        invariant staticAttributes == CapturedStatics(classes[..i], rt.classTable, rt.statics, rules)
      {
        var className := classes[i];
        assert className in classes && StaticsReadable(rt.classTable, rt.statics, className);
        var info := rt.classTable[className];
        var snapshot: seq<(string, Serialized)> := [];
        var j := 0;
        assert info.properties[..0] == [];
        while j < |info.properties|
          invariant 0 <= j <= |info.properties|
          invariant snapshot == CapturedClassStatics(className, info.properties[..j], rt.statics, rules, rt.classTable)
          invariant staticAttributes == CapturedStatics(classes[..i], rt.classTable, rt.statics, rules)
        {
          var attribute := info.properties[j];
          assert info.properties[..j + 1][..j] == info.properties[..j];
          if attribute.isStatic {
            var name := attribute.name;
            var excluded := blacklist.IsStaticPropertyExcluded(className, name, rt.classTable);
            assert excluded.Ok?;
            if !excluded.value {
              var value := rt.statics[(className, name)];
              if !IsClosure(value) {
                snapshot := snapshot + [(name, Serialize(value))];
              }
            }
          }
          j := j + 1;
        }
        assert info.properties[..j] == info.properties;
        assert classes[..i + 1][..i] == classes[..i];
        assert classes[..i + 1][i] == className;
        assert CapturedStatics(classes[..i + 1], rt.classTable, rt.statics, rules) ==
          if snapshot == [] then staticAttributes else staticAttributes + [(className, snapshot)];
        if snapshot != [] {
          staticAttributes := staticAttributes + [(className, snapshot)];
        }
        i := i + 1;
      }
      assert classes[..i] == classes;
    }

    /** restoreGlobalVariables: the super-global arrays first, then every live global. */
    method RestoreGlobalVariables(rt: Store)
      modifies rt`globals, rt`superGlobals
      ensures rt.superGlobals ==
        RestoredContainers(old(rt.superGlobals), superGlobals, Elements(SuperGlobalArrays(rt.registerLongArrays)))
      ensures rt.globals ==
        RestoredGlobals(old(rt.globals), globals, SuperGlobalArrays(rt.registerLongArrays), blacklist.Rules())
    {
      var superGlobalArrays := SuperGlobalArrays(rt.registerLongArrays);
      var recorded, recordedSuperGlobals := globals, superGlobals;
      ghost var rules := blacklist.Rules();
      ghost var liveSuperGlobals := rt.superGlobals;
      var i := 0;
      while i < |superGlobalArrays|
        invariant 0 <= i <= |superGlobalArrays|
        invariant rt.globals == old(rt.globals)
        invariant rt.superGlobals ==
          RestoredContainers(liveSuperGlobals, recordedSuperGlobals, Elements(superGlobalArrays[..i]))
      {
        ghost var before := rt.superGlobals;
        RestoreSuperGlobalArray(rt, superGlobalArrays[i]);
        RestoredContainersStep(liveSuperGlobals, recordedSuperGlobals, superGlobalArrays, i, before);
        i := i + 1;
      }
      assert superGlobalArrays[..i] == superGlobalArrays;

      ghost var restored := rt.superGlobals;
      ghost var live := rt.globals;
      var keys := rt.globals.Keys;
      ghost var visited: set<string> := {};
      assert RestoreGlobalsOver(live, recorded, superGlobalArrays, rules, visited) == live;
      while keys != {}
        invariant visited + keys == live.Keys && visited !! keys
        invariant rt.globals == RestoreGlobalsOver(live, recorded, superGlobalArrays, rules, visited)
        invariant rt.superGlobals == restored
        decreases keys
      {
        var key :| key in keys;
        RestoreGlobalsStep(live, recorded, superGlobalArrays, rules, visited, key);
        if key != "GLOBALS" && key !in superGlobalArrays && !blacklist.IsGlobalVariableExcluded(key) {
          if key in recorded {
            rt.globals := rt.globals[key := Unserialize(recorded[key])];
          } else {
            rt.globals := rt.globals - {key};
          }
        }
        keys := keys - {key};
        visited := visited + {key};
      }
    }

    /** restoreSuperGlobalArray, with the key union the source intends (see SnapshotAddedIntegerKeySurvivesRestore). */
    method RestoreSuperGlobalArray(rt: Store, superGlobalArray: string)
      modifies rt`superGlobals
      ensures superGlobalArray in old(rt.superGlobals) && superGlobalArray in superGlobals ==>
        rt.superGlobals == old(rt.superGlobals)[superGlobalArray :=
          RestoreContainer(old(rt.superGlobals)[superGlobalArray], superGlobals[superGlobalArray])]
      ensures !(superGlobalArray in old(rt.superGlobals) && superGlobalArray in superGlobals) ==>
        rt.superGlobals == old(rt.superGlobals)
    {
      if superGlobalArray in rt.superGlobals && superGlobalArray in superGlobals {
        var live := rt.superGlobals[superGlobalArray];
        var saved := superGlobals[superGlobalArray];
        var keys := live.Keys + saved.Keys;
        ghost var visited: set<Key> := {};
        assert RestoreContainerOver(live, saved, visited) == live;
        assert old(rt.superGlobals)[superGlobalArray := live] == old(rt.superGlobals);
        while keys != {}
          invariant visited + keys == live.Keys + saved.Keys && visited !! keys
          invariant rt.superGlobals == old(rt.superGlobals)[superGlobalArray := RestoreContainerOver(live, saved, visited)]
          decreases keys
        {
          var key :| key in keys;
          RestoreContainerOverStep(live, saved, visited, key);
          if key in saved {
            rt.superGlobals := rt.superGlobals[superGlobalArray :=
              rt.superGlobals[superGlobalArray][key := Unserialize(saved[key])]];
          } else {
            rt.superGlobals := rt.superGlobals[superGlobalArray := rt.superGlobals[superGlobalArray] - {key}];
          }
          keys := keys - {key};
          visited := visited + {key};
        }
      }
    }

    /**
     * restoreStaticAttributes: writes every recorded (class, name) => value
     * back, unserialized, in order; a recorded property that no longer
     * exists throws and ends the restore there.
     */
    method RestoreStaticAttributes(rt: Store) returns (missing: Option<StaticKey>)
      modifies rt`statics
      ensures (rt.statics, missing) == WriteStatics(old(rt.statics), Flatten(DecodeAttributes(staticAttributes)))
    {
      ghost var decoded := DecodeAttributes(staticAttributes);
      var i := 0;
      assert decoded[..0] == [];
      while i < |staticAttributes|
        invariant 0 <= i <= |staticAttributes|
        invariant WriteStatics(old(rt.statics), Flatten(decoded[..i])) == (rt.statics, None)
      {
        var className := staticAttributes[i].0;
        var attributes := staticAttributes[i].1;
        WroteUpToStart(old(rt.statics), rt.statics, decoded, i);
        var j := 0;
        while j < |attributes|
          invariant 0 <= j <= |attributes|
          invariant WroteUpTo(old(rt.statics), rt.statics, decoded, i, j)
        {
          var name := attributes[j].0;
          var value := Unserialize(attributes[j].1);
          assert decoded[i].1[j] == (name, value);
          if (className, name) !in rt.statics {
            WroteUpToStop(old(rt.statics), rt.statics, decoded, i, j);
            return Some((className, name));
          }
          WroteUpToNext(old(rt.statics), rt.statics, decoded, i, j);
          rt.statics := rt.statics[(className, name) := value];
          j := j + 1;
        }
        WroteUpToEnd(old(rt.statics), rt.statics, decoded, i);
        i := i + 1;
      }
      assert decoded[..i] == decoded;
      return None;
    }
  }
}
