/**
 * The exclusion policy (ExcludeList): which global variables and which static
 * properties a snapshot leaves alone. Rules are only ever added; the two
 * queries read the rules and change nothing.
 *
 * The pure layer (ExclusionRules and the predicates over it) states what the
 * queries answer; the class ExcludeList holds the rules in fields that its
 * add methods extend in place.
 */
module Exclusion {
  import opened Wrappers
  import opened Runtime

  /** The ReflectionException `new ReflectionClass($className)` throws for an unknown class. */
  datatype ExclusionError = ClassNotFound(className: string)

  /** The contents of an ExcludeList's six fields. */
  datatype ExclusionRules = ExclusionRules(
    globalVariables: set<string>,
    classes: seq<string>,
    classNamePrefixes: seq<string>,
    parentClasses: seq<string>,
    interfaces: seq<string>,
    staticProperties: map<string, set<string>>)

  const NoRules := ExclusionRules({}, [], [], [], [], map[])

  predicate GlobalExcluded(r: ExclusionRules, variableName: string) {
    variableName in r.globalVariables
  }

  /** Excluded by an exact class name or by a prefix of its name (`str_starts_with`). */
  predicate ExcludedByName(r: ExclusionRules, className: string) {
    || className in r.classes
    || exists prefix :: prefix in r.classNamePrefixes && prefix <= className
  }

  /** Excluded because reflection says the class extends an added parent or implements an added interface. */
  predicate ExcludedByHierarchy(r: ExclusionRules, info: ClassInfo) {
    || (exists t :: t in r.parentClasses && t in info.parents)
    || (exists t :: t in r.interfaces && t in info.interfaces)
  }

  predicate ExcludedByPair(r: ExclusionRules, className: string, propertyName: string) {
    className in r.staticProperties && propertyName in r.staticProperties[className]
  }

  /**
   * The answer of isStaticPropertyExcluded: the name rules first, then
   * (after resolving the class, which may throw) the hierarchy rules and the
   * explicit (class, property) pairs.
   */
  function StaticPropertyExcluded(r: ExclusionRules, table: ClassTable, className: string, propertyName: string)
    : (excluded: Result<bool, ExclusionError>)
  {
    if ExcludedByName(r, className) then Ok(true)
    else if className !in table then Err(ClassNotFound(className))
    else Ok(ExcludedByHierarchy(r, table[className]) || ExcludedByPair(r, className, propertyName))
  }

  predicate Excludes(r: ExclusionRules, table: ClassTable, className: string, propertyName: string) {
    StaticPropertyExcluded(r, table, className, propertyName) == Ok(true)
  }

  /** `r2` holds every rule of `r1`: what the add methods guarantee. */
  ghost predicate Widens(r1: ExclusionRules, r2: ExclusionRules) {
    && r1.globalVariables <= r2.globalVariables
    && (forall c :: c in r1.classes ==> c in r2.classes)
    && (forall p :: p in r1.classNamePrefixes ==> p in r2.classNamePrefixes)
    && (forall t :: t in r1.parentClasses ==> t in r2.parentClasses)
    && (forall t :: t in r1.interfaces ==> t in r2.interfaces)
    && (forall c :: c in r1.staticProperties ==>
          c in r2.staticProperties && r1.staticProperties[c] <= r2.staticProperties[c])
  }

  class ExcludeList {
    var globalVariables: set<string>
    var classes: seq<string>
    var classNamePrefixes: seq<string>
    var parentClasses: seq<string>
    var interfaces: seq<string>
    var staticProperties: map<string, set<string>>

    function Rules(): (rules: ExclusionRules)
      reads this
    {
      ExclusionRules(globalVariables, classes, classNamePrefixes, parentClasses, interfaces, staticProperties)
    }

    constructor ()
      ensures Rules() == NoRules
      ensures forall v :: !IsGlobalVariableExcluded(v)
    {
      globalVariables, classes, classNamePrefixes := {}, [], [];
      parentClasses, interfaces, staticProperties := [], [], map[];
    }

    method AddGlobalVariable(variableName: string)
      modifies this
      ensures Rules() == old(Rules()).(globalVariables := old(globalVariables) + {variableName})
      ensures IsGlobalVariableExcluded(variableName)
      ensures forall v :: v != variableName ==> IsGlobalVariableExcluded(v) == old(IsGlobalVariableExcluded(v))
      ensures Widens(old(Rules()), Rules())
    {
      globalVariables := globalVariables + {variableName};
    }

    method AddClass(className: string)
      modifies this
      ensures Rules() == old(Rules()).(classes := old(classes) + [className])
      ensures forall table, p :: Excludes(Rules(), table, className, p)
      ensures Widens(old(Rules()), Rules())
    {
      classes := classes + [className];
    }

    method AddSubclassesOf(className: string)
      modifies this
      ensures Rules() == old(Rules()).(parentClasses := old(parentClasses) + [className])
      ensures Widens(old(Rules()), Rules())
    {
      parentClasses := parentClasses + [className];
    }

    method AddImplementorsOf(interfaceName: string)
      modifies this
      ensures Rules() == old(Rules()).(interfaces := old(interfaces) + [interfaceName])
      ensures Widens(old(Rules()), Rules())
    {
      interfaces := interfaces + [interfaceName];
    }

    method AddClassNamePrefix(classNamePrefix: string)
      modifies this
      ensures Rules() == old(Rules()).(classNamePrefixes := old(classNamePrefixes) + [classNamePrefix])
      ensures forall table, c, p :: classNamePrefix <= c ==> Excludes(Rules(), table, c, p)
      ensures Widens(old(Rules()), Rules())
    {
      classNamePrefixes := classNamePrefixes + [classNamePrefix];
      assert classNamePrefix in classNamePrefixes;
    }

    method AddStaticProperty(className: string, propertyName: string)
      modifies this
      ensures Rules() == old(Rules()).(staticProperties := old(staticProperties)[className :=
        (if className in old(staticProperties) then old(staticProperties)[className] else {}) + {propertyName}])
      ensures Widens(old(Rules()), Rules())
    {
      if className !in staticProperties {
        staticProperties := staticProperties[className := {}];
      }
      staticProperties := staticProperties[className := staticProperties[className] + {propertyName}];
    }

    /** Excluded exactly when addGlobalVariable was called with the name; no other rule matters. */
    function IsGlobalVariableExcluded(variableName: string): (excluded: bool)
      reads this
      ensures excluded <==> variableName in globalVariables
    {
      GlobalExcluded(Rules(), variableName)
    }

    /**
     * Scans the exact names, then the prefixes, and only then resolves the
     * class through reflection and scans the parents and interfaces, before
     * looking up the explicit pair.
     */
    method IsStaticPropertyExcluded(className: string, propertyName: string, table: ClassTable)
      returns (r: Result<bool, ExclusionError>)
      ensures r == StaticPropertyExcluded(Rules(), table, className, propertyName)
      ensures ExcludedByName(Rules(), className) ==> r == Ok(true)
    {
      if className in classes {
        return Ok(true);
      }

      var i := 0;
      while i < |classNamePrefixes|
        invariant 0 <= i <= |classNamePrefixes|
        invariant forall k :: 0 <= k < i ==> !(classNamePrefixes[k] <= className)
      {
        if classNamePrefixes[i] <= className {
          assert classNamePrefixes[i] in classNamePrefixes;
          return Ok(true);
        }
        i := i + 1;
      }

      if className !in table {
        return Err(ClassNotFound(className));
      }
      var info := table[className];

      i := 0;
      while i < |parentClasses|
        invariant 0 <= i <= |parentClasses|
        invariant forall k :: 0 <= k < i ==> parentClasses[k] !in info.parents
      {
        if parentClasses[i] in info.parents {
          return Ok(true);
        }
        i := i + 1;
      }

      i := 0;
      while i < |interfaces|
        invariant 0 <= i <= |interfaces|
        invariant forall k :: 0 <= k < i ==> interfaces[k] !in info.interfaces
      {
        if interfaces[i] in info.interfaces {
          return Ok(true);
        }
        i := i + 1;
      }

      return Ok(className in staticProperties && propertyName in staticProperties[className]);
    }
  }

  /** A fresh list excludes no global and no static property of a class reflection can resolve. */
  lemma FreshListExcludesNothing(table: ClassTable, className: string, propertyName: string, variableName: string)
    ensures !GlobalExcluded(NoRules, variableName)
    ensures StaticPropertyExcluded(NoRules, table, className, propertyName) ==
      if className in table then Ok(false) else Err(ClassNotFound(className))
  {
  }

  /** No rule added ever turns an exclusion back off. */
  lemma ExclusionIsMonotone(r1: ExclusionRules, r2: ExclusionRules, table: ClassTable,
                            className: string, propertyName: string, variableName: string)
    requires Widens(r1, r2)
    ensures GlobalExcluded(r1, variableName) ==> GlobalExcluded(r2, variableName)
    ensures Excludes(r1, table, className, propertyName) ==> Excludes(r2, table, className, propertyName)
  {
    if Excludes(r1, table, className, propertyName) && !ExcludedByName(r2, className) {
      assert !ExcludedByName(r1, className);
      assert className in table;
      var info := table[className];
      if exists t :: t in r1.parentClasses && t in info.parents {
        var t :| t in r1.parentClasses && t in info.parents;
        assert t in r2.parentClasses;
      } else if exists t :: t in r1.interfaces && t in info.interfaces {
        var t :| t in r1.interfaces && t in info.interfaces;
        assert t in r2.interfaces;
      }
    }
  }

  /**
   * Adding a parent class excludes every property of every class reflection
   * reports as its strict subclass; adding an interface does the same for
   * its implementors.
   */
  lemma HierarchyRulesExclude(r: ExclusionRules, table: ClassTable, className: string, propertyName: string, t: string)
    requires className in table
    ensures t in table[className].parents ==>
      Excludes(r.(parentClasses := r.parentClasses + [t]), table, className, propertyName)
    ensures t in table[className].interfaces ==>
      Excludes(r.(interfaces := r.interfaces + [t]), table, className, propertyName)
  {
    assert t in r.parentClasses + [t];
    assert t in r.interfaces + [t];
  }

  /**
   * addStaticProperty(c, p) excludes the pair (c, p) and nothing else: for a
   * class reflection resolves, the answer changes only for that pair. For a
   * class it cannot resolve the query still throws.
   */
  lemma AddStaticPropertyExcludesPair(r: ExclusionRules, table: ClassTable,
                                      className: string, propertyName: string, c: string, p: string)
    ensures var r2 := r.(staticProperties := r.staticProperties[className :=
              (if className in r.staticProperties then r.staticProperties[className] else {}) + {propertyName}]);
      && (c in table ==>
            (Excludes(r2, table, c, p) <==> Excludes(r, table, c, p) || (c == className && p == propertyName)))
      && (c !in table ==> StaticPropertyExcluded(r2, table, c, p) == StaticPropertyExcluded(r, table, c, p))
  {
  }

  /**
   * A class excluded by name gets its answer before reflection is asked
   * anything: the answer does not depend on the class table, not even on
   * whether the class exists.
   */
  lemma NameRulesNeedNoReflection(r: ExclusionRules, table1: ClassTable, table2: ClassTable,
                                  className: string, propertyName: string)
    requires ExcludedByName(r, className)
    ensures StaticPropertyExcluded(r, table1, className, propertyName) ==
            StaticPropertyExcluded(r, table2, className, propertyName) == Ok(true)
  {
  }
}
