/**
 * The PHP runtime that the snapshot code reads and writes, made explicit as a
 * store object. The runtime's listings (declared classes, user functions,
 * constants, ini settings) and its reflection facts are fields here instead
 * of built-in functions.
 */
module Runtime {
  import opened Wrappers
  import opened PhpValues

  /** What ReflectionClass::getProperties reports about one property. */
  datatype PropertyInfo = PropertyInfo(name: string, isStatic: bool)

  /**
   * What reflection reports about one declared class or interface:
   * isUserDefined, the strict ancestors isSubclassOf answers for, the
   * interfaces implementsInterface answers for, and getProperties.
   */
  datatype ClassInfo = ClassInfo(
    userDefined: bool,
    parents: set<string>,
    interfaces: set<string>,
    properties: seq<PropertyInfo>)

  /** Every class name `new ReflectionClass(name)` can resolve. */
  type ClassTable = map<string, ClassInfo>

  /** A static property, addressed by (class name, property name). */
  type StaticKey = (string, string)

  // ---------------------------------------------------------------------
  // The super-global arrays

  const BaseSuperGlobalArrays: seq<string> :=
    ["_ENV", "_POST", "_GET", "_COOKIE", "_SERVER", "_FILES", "_REQUEST"]

  /** The long names PHP defines while `register_long_arrays` is on. */
  const LongSuperGlobalArrays: seq<string> :=
    ["HTTP_ENV_VARS", "HTTP_POST_VARS", "HTTP_GET_VARS", "HTTP_COOKIE_VARS", "HTTP_SERVER_VARS", "HTTP_POST_FILES"]

  /**
   * superGlobalArrays(): the seven short names, followed by the six long
   * names exactly when `ini_get('register_long_arrays')` is "1".
   */
  function SuperGlobalArrays(registerLongArrays: Option<string>): (names: seq<string>)
    ensures |names| == if registerLongArrays == Some("1") then 13 else 7
    ensures names[..7] == BaseSuperGlobalArrays
    ensures forall name :: name in names <==>
      name in BaseSuperGlobalArrays || (registerLongArrays == Some("1") && name in LongSuperGlobalArrays)
  {
    if registerLongArrays == Some("1") then BaseSuperGlobalArrays + LongSuperGlobalArrays
    else BaseSuperGlobalArrays
  }

  /** Every name appears once, so visiting the list visits each container once. */
  lemma SuperGlobalArraysDistinct(registerLongArrays: Option<string>)
    ensures var names := SuperGlobalArrays(registerLongArrays);
      forall i, j :: 0 <= i < j < |names| ==> names[i] != names[j]
  {
    var names := SuperGlobalArrays(registerLongArrays);
    forall i, j | 0 <= i < j < |names| ensures names[i] != names[j] {
      if j < 7 {
        assert names[i] == BaseSuperGlobalArrays[i] && names[j] == BaseSuperGlobalArrays[j];
      } else if i >= 7 {
        assert names[i] == LongSuperGlobalArrays[i - 7] && names[j] == LongSuperGlobalArrays[j - 7];
      } else {
        assert names[i] == BaseSuperGlobalArrays[i] && names[j] == LongSuperGlobalArrays[j - 7];
        assert names[i][0] == '_' && names[j][0] == 'H';
      }
    }
  }

  class Store {
    /** `$GLOBALS`, apart from the super-global containers that hold arrays. */
    var globals: map<string, Value>
    /**
     * The super-global containers (`$_GET`, `$_SERVER`, ...) that currently
     * hold an array. A name missing here is unset, null or not an array.
     */
    var superGlobals: map<string, map<Key, Value>>
    /** The value of every existing static property. */
    var statics: map<StaticKey, Value>
    /** `get_defined_functions()['user']`. */
    var userFunctions: seq<string>
    /** Whether `function_exists('uopz_delete')`. */
    var uopzAvailable: bool
    var classTable: ClassTable
    /** `get_declared_classes()` and `get_declared_interfaces()`, in declaration order. */
    var declaredClasses: seq<string>
    var declaredInterfaces: seq<string>
    /** `get_declared_traits()`, or None where that function does not exist. */
    var declaredTraits: Option<seq<string>>
    /** `get_defined_constants(true)['user']`. */
    var userConstants: seq<(string, Value)>
    /** `ini_get_all(null, false)`. */
    var iniSettings: seq<(string, Value)>
    /** `ini_get('register_long_arrays')`; None stands for `false`. */
    var registerLongArrays: Option<string>
    var includedFiles: seq<string>

    /**
     * The store as the model takes it: `ContainersSplit` and
     * `ReflectionResolves` over its fields.
     */
    ghost predicate Consistent()
      reads this
    {
      && ContainersSplit(globals, superGlobals, registerLongArrays)
      && ReflectionResolves(classTable, declaredClasses, declaredInterfaces, statics)
    }
  }

  /**
   * A name of `$GLOBALS` is in exactly one of the two maps, and only the
   * names superGlobalArrays() lists are held as super-global containers: any
   * other name, `$_SESSION` or a long name while `register_long_arrays` is
   * off among them, is a plain global. A listed name that holds an array is
   * a container, so a listed name among the plain globals holds no array.
   */
  ghost predicate ContainersSplit(globals: map<string, Value>, superGlobals: map<string, map<Key, Value>>,
                                  registerLongArrays: Option<string>)
  {
    && (forall name :: name in superGlobals ==> name in SuperGlobalArrays(registerLongArrays))
    && globals.Keys !! superGlobals.Keys
    && (forall name :: name in globals && name in SuperGlobalArrays(registerLongArrays) ==> !globals[name].Arr?)
  }

  /**
   * Reflection resolves every declared class and interface, and every static
   * property a declared class reports has a value. The engine guarantees the
   * first; the second fails for a typed static property that was never
   * initialised, a store the model does not admit.
   */
  ghost predicate ReflectionResolves(table: ClassTable, declaredClasses: seq<string>, declaredInterfaces: seq<string>,
                                     statics: map<StaticKey, Value>)
  {
    && (forall c :: c in declaredClasses ==> c in table)
    && (forall c :: c in declaredInterfaces ==> c in table)
    && (forall c :: c in declaredClasses ==> StaticsReadable(table, statics, c))
  }

  /** Restoring static properties only writes existing ones, so every reported property stays readable. */
  lemma WriteStaticsKeepsReflection(table: ClassTable, declaredClasses: seq<string>, declaredInterfaces: seq<string>,
                                    statics: map<StaticKey, Value>, writes: seq<(StaticKey, Value)>)
    requires ReflectionResolves(table, declaredClasses, declaredInterfaces, statics)
    ensures ReflectionResolves(table, declaredClasses, declaredInterfaces, WriteStatics(statics, writes).0)
  {
    ReflectionResolvesOverWrites(table, declaredClasses, declaredInterfaces, statics, WriteStatics(statics, writes).0);
  }

  /** Dropping names from either map, and leaving the listed names among the globals alone, keeps the split. */
  lemma ContainersSplitShrinks(globals: map<string, Value>, superGlobals: map<string, map<Key, Value>>,
                               globals': map<string, Value>, superGlobals': map<string, map<Key, Value>>,
                               registerLongArrays: Option<string>)
    requires ContainersSplit(globals, superGlobals, registerLongArrays)
    requires globals'.Keys <= globals.Keys && superGlobals'.Keys <= superGlobals.Keys
    requires forall name :: name in globals' && name in SuperGlobalArrays(registerLongArrays) ==>
      globals'[name] == globals[name]
    ensures ContainersSplit(globals', superGlobals', registerLongArrays)
  {
  }

  /** Writing existing static properties keeps every reported property readable. */
  lemma ReflectionResolvesOverWrites(table: ClassTable, declaredClasses: seq<string>, declaredInterfaces: seq<string>,
                                     statics: map<StaticKey, Value>, statics': map<StaticKey, Value>)
    requires ReflectionResolves(table, declaredClasses, declaredInterfaces, statics)
    requires statics'.Keys == statics.Keys
    ensures ReflectionResolves(table, declaredClasses, declaredInterfaces, statics')
  {
  }

  /** Every static property reflection reports for class `c` has a value. */
  ghost predicate StaticsReadable(table: ClassTable, statics: map<StaticKey, Value>, c: string)
  {
    c in table &&
    forall k :: 0 <= k < |table[c].properties| && table[c].properties[k].isStatic ==>
      (c, table[c].properties[k].name) in statics
  }

  /** The per-class lists `[class => [name => value]]` as one list of writes, in order. */
  function Flatten<T>(attributes: seq<(string, seq<(string, T)>)>): (writes: seq<(StaticKey, T)>)
    ensures |attributes| == 0 ==> writes == []
  {
    if attributes == [] then []
    else
      var last := attributes[|attributes| - 1];
      Flatten(attributes[..|attributes| - 1]) + ClassWrites(last.0, last.1)
  }

  function ClassWrites<T>(className: string, entries: seq<(string, T)>): (writes: seq<(StaticKey, T)>)
    ensures |writes| == |entries|
    ensures forall k :: 0 <= k < |entries| ==> writes[k] == ((className, entries[k].0), entries[k].1)
  {
    seq(|entries|, k requires 0 <= k < |entries| => ((className, entries[k].0), entries[k].1))
  }

  /**
   * `(new ReflectionProperty($c, $n))->setValue($v)` for each write in turn.
   * The constructor throws for a property that does not exist, which ends the
   * loop: the result is the statics reached so far and the missing property.
   */
  function WriteStatics(statics: map<StaticKey, Value>, writes: seq<(StaticKey, Value)>)
    : (r: (map<StaticKey, Value>, Option<StaticKey>))
    ensures r.0.Keys == statics.Keys
    ensures r.1.Some? ==> r.1.value !in statics && exists i :: 0 <= i < |writes| && writes[i].0 == r.1.value
    decreases |writes|
  {
    if writes == [] then (statics, None)
    else if writes[0].0 !in statics then (statics, Some(writes[0].0))
    else WriteStatics(statics[writes[0].0 := writes[0].1], writes[1..])
  }

  /** Running two batches of writes is running the first, then (if it did not throw) the second. */
  lemma {:induction false} WriteStaticsAppend(
    statics: map<StaticKey, Value>, a: seq<(StaticKey, Value)>, b: seq<(StaticKey, Value)>)
    ensures var first := WriteStatics(statics, a);
      WriteStatics(statics, a + b) == if first.1.Some? then first else WriteStatics(first.0, b)
    decreases |a|
  {
    if a == [] {
      assert a + b == b;
    } else {
      assert (a + b)[0] == a[0];
      assert (a + b)[1..] == a[1..] + b;
      if a[0].0 in statics {
        WriteStaticsAppend(statics[a[0].0 := a[0].1], a[1..], b);
      }
    }
  }

  /** The writes never add or drop a static property, and leave every property no write names alone. */
  lemma {:induction false} WriteStaticsFrame(
    statics: map<StaticKey, Value>, writes: seq<(StaticKey, Value)>, key: StaticKey)
    ensures WriteStatics(statics, writes).0.Keys == statics.Keys
    ensures (forall i :: 0 <= i < |writes| ==> writes[i].0 != key) && key in statics ==>
      WriteStatics(statics, writes).0[key] == statics[key]
    decreases |writes|
  {
    if writes != [] && writes[0].0 in statics {
      WriteStaticsFrame(statics[writes[0].0 := writes[0].1], writes[1..], key);
      if forall i :: 0 <= i < |writes| ==> writes[i].0 != key {
        assert forall i :: 0 <= i < |writes| - 1 ==> writes[1..][i] == writes[i + 1];
      }
    }
  }

  /** When every written property exists, no write throws. */
  lemma {:induction false} WriteStaticsSucceeds(statics: map<StaticKey, Value>, writes: seq<(StaticKey, Value)>)
    requires forall j :: 0 <= j < |writes| ==> writes[j].0 in statics
    ensures WriteStatics(statics, writes).1 == None
    decreases |writes|
  {
    if writes != [] {
      var next := statics[writes[0].0 := writes[0].1];
      assert forall j :: 0 <= j < |writes| - 1 ==> writes[1..][j] == writes[j + 1];
      WriteStaticsSucceeds(next, writes[1..]);
    }
  }

  /**
   * When every written property exists, a property ends up holding the value
   * of the last write that names it.
   */
  lemma {:induction false} WriteStaticsRecords(
    statics: map<StaticKey, Value>, writes: seq<(StaticKey, Value)>, i: nat)
    requires forall j :: 0 <= j < |writes| ==> writes[j].0 in statics
    requires i < |writes|
    requires forall j :: i < j < |writes| ==> writes[j].0 != writes[i].0
    ensures writes[i].0 in WriteStatics(statics, writes).0
    ensures WriteStatics(statics, writes).0[writes[i].0] == writes[i].1
    decreases |writes|
  {
    WriteStaticsFrame(statics, writes, writes[i].0);
    var rest := writes[1..];
    var next := statics[writes[0].0 := writes[0].1];
    assert forall j :: 0 <= j < |rest| ==> rest[j] == writes[j + 1];
    if i == 0 {
      WriteStaticsFrame(next, rest, writes[0].0);
    } else {
      WriteStaticsRecords(next, rest, i - 1);
    }
  }

  lemma {:induction false} FlattenAppend<T>(a: seq<(string, seq<(string, T)>)>, b: seq<(string, seq<(string, T)>)>)
    ensures Flatten(a + b) == Flatten(a) + Flatten(b)
    decreases |b|
  {
    if b == [] {
      assert a + b == a;
    } else {
      var init, last := b[..|b| - 1], b[|b| - 1];
      var lastWrites := ClassWrites(last.0, last.1);
      FlattenAppend(a, init);
      assert (a + b)[..|a + b| - 1] == a + init;
      assert (a + b)[|a + b| - 1] == last;
      assert Flatten(a + b) == Flatten(a + init) + lastWrites;
      assert Flatten(b) == Flatten(init) + lastWrites;
      assert Flatten(a) + Flatten(init) + lastWrites == Flatten(a) + (Flatten(init) + lastWrites);
    }
  }

  /** The writes of the classes before `i` and of the first `j` entries of class `i`. */
  function WritesBefore<T>(attributes: seq<(string, seq<(string, T)>)>, i: nat, j: nat): (r: seq<(StaticKey, T)>)
    requires i < |attributes| && j <= |attributes[i].1|
  {
    Flatten(attributes[..i]) + ClassWrites(attributes[i].0, attributes[i].1[..j])
  }

  /** The loop over `[class => [name => value]]` has done the writes before (i, j) without throwing. */
  ghost predicate WroteUpTo(statics0: map<StaticKey, Value>, current: map<StaticKey, Value>,
                            attributes: seq<(string, seq<(string, Value)>)>, i: nat, j: nat)
  {
    i < |attributes| && j <= |attributes[i].1| &&
    WriteStatics(statics0, WritesBefore(attributes, i, j)) == (current, None)
  }

  lemma WroteUpToStart(statics0: map<StaticKey, Value>, current: map<StaticKey, Value>,
                       attributes: seq<(string, seq<(string, Value)>)>, i: nat)
    requires i < |attributes|
    requires WriteStatics(statics0, Flatten(attributes[..i])) == (current, None)
    ensures WroteUpTo(statics0, current, attributes, i, 0)
  {
    assert attributes[i].1[..0] == [];
    assert WritesBefore(attributes, i, 0) == Flatten(attributes[..i]);
  }

  lemma WroteUpToEnd(statics0: map<StaticKey, Value>, current: map<StaticKey, Value>,
                     attributes: seq<(string, seq<(string, Value)>)>, i: nat)
    requires i < |attributes| && WroteUpTo(statics0, current, attributes, i, |attributes[i].1|)
    ensures WriteStatics(statics0, Flatten(attributes[..i + 1])) == (current, None)
  {
    assert attributes[i].1[..|attributes[i].1|] == attributes[i].1;
    assert attributes[..i + 1][..i] == attributes[..i];
  }

  /** One more write to an existing property. */
  lemma WroteUpToNext(statics0: map<StaticKey, Value>, current: map<StaticKey, Value>,
                      attributes: seq<(string, seq<(string, Value)>)>, i: nat, j: nat)
    requires WroteUpTo(statics0, current, attributes, i, j) && j < |attributes[i].1|
    requires (attributes[i].0, attributes[i].1[j].0) in current
    ensures WroteUpTo(statics0, current[(attributes[i].0, attributes[i].1[j].0) := attributes[i].1[j].1],
                      attributes, i, j + 1)
  {
    var c, e := attributes[i].0, attributes[i].1;
    var write := ((c, e[j].0), e[j].1);
    assert ClassWrites(c, e[..j + 1]) == ClassWrites(c, e[..j]) + [write];
    assert WritesBefore(attributes, i, j + 1) == WritesBefore(attributes, i, j) + [write];
    WriteStaticsAppend(statics0, WritesBefore(attributes, i, j), [write]);
    var one: seq<(StaticKey, Value)> := [write];
    assert one[1..] == [];
  }

  /** A write to a property that does not exist throws, and that is the outcome of the whole loop. */
  lemma WroteUpToStop(statics0: map<StaticKey, Value>, current: map<StaticKey, Value>,
                      attributes: seq<(string, seq<(string, Value)>)>, i: nat, j: nat)
    requires WroteUpTo(statics0, current, attributes, i, j) && j < |attributes[i].1|
    requires (attributes[i].0, attributes[i].1[j].0) !in current
    ensures WriteStatics(statics0, Flatten(attributes)) == (current, Some((attributes[i].0, attributes[i].1[j].0)))
  {
    var c, e := attributes[i].0, attributes[i].1;
    var write := ((c, e[j].0), e[j].1);
    var done := WritesBefore(attributes, i, j);
    var rest := ClassWrites(c, e[j + 1..]) + Flatten(attributes[i + 1..]);
    FlattenAt(attributes, i, j);
    Regroup2(Flatten(attributes[..i]), ClassWrites(c, e[..j]), [write],
             ClassWrites(c, e[j + 1..]), Flatten(attributes[i + 1..]));
    assert Flatten(attributes) == done + [write] + rest;
    assert WriteStatics(current, [write]) == (current, Some(write.0));
    WriteStaticsAppend(statics0, done, [write]);
    WriteStaticsAppend(statics0, done + [write], rest);
  }

  /** A class's writes split around its j-th entry. */
  lemma ClassWritesSplit<T>(className: string, entries: seq<(string, T)>, j: nat)
    requires j < |entries|
    ensures ClassWrites(className, entries) ==
      ClassWrites(className, entries[..j]) + [((className, entries[j].0), entries[j].1)] +
      ClassWrites(className, entries[j + 1..])
  {
    var whole := ClassWrites(className, entries);
    var split := ClassWrites(className, entries[..j]) + [((className, entries[j].0), entries[j].1)] +
      ClassWrites(className, entries[j + 1..]);
    assert |whole| == |split|;
    forall k | 0 <= k < |whole| ensures whole[k] == split[k] {
      if k > j {
        assert entries[j + 1..][k - j - 1] == entries[k];
      }
    }
  }

  /** Flatten splits around the j-th write of the i-th class. */
  lemma FlattenAt<T>(attributes: seq<(string, seq<(string, T)>)>, i: nat, j: nat)
    requires i < |attributes| && j < |attributes[i].1|
    ensures Flatten(attributes) ==
      Flatten(attributes[..i]) + ClassWrites(attributes[i].0, attributes[i].1[..j]) +
      [((attributes[i].0, attributes[i].1[j].0), attributes[i].1[j].1)] +
      ClassWrites(attributes[i].0, attributes[i].1[j + 1..]) + Flatten(attributes[i + 1..])
  {
    var c := attributes[i].0;
    var e := attributes[i].1;
    FlattenAppend(attributes[..i + 1], attributes[i + 1..]);
    assert attributes[..i + 1] + attributes[i + 1..] == attributes;
    FlattenPrefix(attributes, i);
    ClassWritesSplit(c, e, j);
    Regroup(Flatten(attributes[..i]), ClassWrites(c, e[..j]), [((c, e[j].0), e[j].1)],
            ClassWrites(c, e[j + 1..]), Flatten(attributes[i + 1..]));
  }

  lemma Regroup<X>(p: seq<X>, a: seq<X>, w: seq<X>, b: seq<X>, q: seq<X>)
    ensures p + (a + w + b) + q == p + a + w + b + q
  {
  }

  lemma Regroup2<X>(p: seq<X>, a: seq<X>, w: seq<X>, b: seq<X>, q: seq<X>)
    ensures p + a + w + (b + q) == p + a + w + b + q
  {
  }

  /** Flattening one more class appends that class's writes. */
  lemma FlattenPrefix<T>(attributes: seq<(string, seq<(string, T)>)>, i: nat)
    requires i < |attributes|
    ensures Flatten(attributes[..i + 1]) == Flatten(attributes[..i]) + ClassWrites(attributes[i].0, attributes[i].1)
  {
    assert attributes[..i + 1][..i] == attributes[..i];
  }

  /** The properties a list of writes names. */
  function WrittenKeys(writes: seq<(StaticKey, Value)>): (keys: set<StaticKey>)
    ensures forall key :: key in keys <==> exists w :: w in writes && w.0 == key
  {
    set w | w in writes :: w.0
  }

  /**
   * When every written property exists and every write carries the value
   * `values` holds for its property, the writes succeed and leave exactly
   * the written properties holding those values.
   */
  lemma {:induction false} WriteStaticsAgreeing(
    statics: map<StaticKey, Value>, writes: seq<(StaticKey, Value)>, values: map<StaticKey, Value>)
    requires forall w :: w in writes ==> w.0 in statics && w.0 in values && w.1 == values[w.0]
    ensures WriteStatics(statics, writes) ==
      (map key | key in statics :: if key in WrittenKeys(writes) then values[key] else statics[key], None)
    decreases |writes|
  {
    var expected := map key | key in statics :: if key in WrittenKeys(writes) then values[key] else statics[key];
    if writes == [] {
      assert expected == statics;
    } else {
      var first, rest := writes[0], writes[1..];
      assert writes == [first] + rest;
      var next := statics[first.0 := first.1];
      assert next.Keys == statics.Keys;
      WriteStaticsAgreeing(next, rest, values);
      assert WrittenKeys(writes) == {first.0} + WrittenKeys(rest);
      var after := map key | key in next :: if key in WrittenKeys(rest) then values[key] else next[key];
      assert after == expected;
    }
  }

  /** The writes throw exactly when one of them names a property that does not exist. */
  lemma {:induction false} WriteStaticsThrows(statics: map<StaticKey, Value>, writes: seq<(StaticKey, Value)>)
    ensures WriteStatics(statics, writes).1.Some? <==> exists w :: w in writes && w.0 !in statics
    decreases |writes|
  {
    if writes != [] {
      var first, rest := writes[0], writes[1..];
      assert writes == [first] + rest;
      if first.0 in statics {
        var next := statics[first.0 := first.1];
        assert next.Keys == statics.Keys;
        WriteStaticsThrows(next, rest);
      }
    }
  }
}
