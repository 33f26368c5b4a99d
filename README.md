# global-state in Dafny

A model of the core of sebastian/global-state, the PHP library that records a
process's global state and later puts it back:

- `ExcludeList` (module `Exclusion`) is the policy that names the global
  variables and static properties a snapshot leaves alone. Its add methods
  only ever widen it. `isStaticPropertyExcluded` checks the name rules first
  and consults reflection only after them.
- `Snapshot` (module `Snapshots`) is the older API. Its constructor records:
  - user constants, functions, included files, traits and ini settings;
  - the user-defined classes and interfaces, i.e. the run at the end of the
    declaration order;
  - every super-global array;
  - every global variable and every static property of a recorded class
    that is not excluded and does not hold a Closure, serialized.

  `restore()` writes the globals, the super-globals and the static properties
  back.
- `Restorer` (module `Restorer`) restores globals, super-globals, static
  properties and the set of user functions from a snapshot. It tests the
  recorded values with `isset`, so a recorded `null` unsets.
- `CodeExporter` (module `CodeExport`) renders the constants and ini settings
  of a snapshot as PHP statements, one per line. A value is printed as a
  `var_export` literal when it is a scalar, `null` or an array of those at
  every depth, and as `unserialize(...)` otherwise.

The PHP runtime is an explicit object, `Runtime.Store`. It holds:

- `$GLOBALS`, split into plain globals and the containers of the listed
  super-global arrays that hold arrays. The two never share a name, any
  name superGlobalArrays() does not list (`$_SESSION`, or a long name while
  `register_long_arrays` is off) is a plain global, and a listed name among
  the plain globals holds no array (`Store.Consistent`);
- the static properties, keyed by (class, property), each pair its own cell;
- the engine's listings (declared classes, interfaces and traits, user
  functions and constants, ini settings, included files);
- a class table standing for reflection: whether a class is user-defined, its
  ancestors, its interfaces and its properties.

Each operation that changes state is a method. The `ExcludeList` add methods
update the list's own fields. The `Snapshot` methods and the `Restorer`
module's methods take the store as a parameter and update its fields. Each
is proved against a specification function. The
properties the library promises are lemmas about those functions:

- capture then restore, onto whatever state came in between:
  - every super-global container comes back equal to the recorded one, with
    the union restore (the intended behaviour; see Findings) and as maps, so
    key order is not modelled;
  - a recorded global gets its recorded value back, a later global that was
    not recorded is unset, a global deleted since the capture is not
    recreated, and one left alone keeps its later value; a global holding a
    Closure is not recorded, so it is unset;
  - the recorded static properties are written back in order, and the
    restore stops at the first one that no longer exists;
- the `Restorer`'s restore of the globals, and of the containers with the
  union restore, is idempotent; no idempotence is proved of
  `Snapshot::restore()` or of either static restore;
- an exclusion never switches off;
- the user-class scan is the maximal user-defined suffix;
- the exporter emits one line per entry, in order.

Files: `wrappers.dfy`, `php_values.dfy`, `runtime.dfy`, `exclude_list.dfy`,
`containers.dfy`, `restorer.dfy`, `snapshot.dfy`, `code_exporter.dfy`.

## Model

| member | source | states |
|---|---|---|
| Exclusion.ExcludeList.constructor | src/ExcludeList.php:16-46 | a new list holds no rule, so it excludes no global variable |
| Exclusion.ExcludeList.AddGlobalVariable | src/ExcludeList.php:51-54 | the name is added to the excluded globals; the answer for every other name is unchanged; the rules only widen |
| Exclusion.ExcludeList.AddClass | src/ExcludeList.php:59-62 | the class is appended; afterwards every property of that class is excluded, whatever reflection says |
| Exclusion.ExcludeList.AddSubclassesOf | src/ExcludeList.php:67-70 | the parent class is appended and the rules only widen |
| Exclusion.ExcludeList.AddImplementorsOf | src/ExcludeList.php:75-78 | the interface is appended and the rules only widen |
| Exclusion.ExcludeList.AddClassNamePrefix | src/ExcludeList.php:83-86 | the prefix is appended; every class whose name starts with it is then excluded |
| Exclusion.ExcludeList.AddStaticProperty | src/ExcludeList.php:92-99 | the property joins its class's set, creating the set when absent; the rules only widen |
| Exclusion.ExcludeList.IsGlobalVariableExcluded | src/ExcludeList.php:101-104 | true exactly for the names added with `addGlobalVariable`; no other rule affects it |
| Exclusion.ExcludeList.IsStaticPropertyExcluded | src/ExcludeList.php:110-137 | the answer is the rule-level `StaticPropertyExcluded`: the exact names, then the prefixes, then (after reflection resolves the class, else an error) the parents, the interfaces and the explicit pair; a name rule answers true without reflection |
| Exclusion.FreshListExcludesNothing | src/ExcludeList.php:101-137 | with no rules nothing is excluded; an unknown class still makes the static query fail |
| Exclusion.ExclusionIsMonotone | src/ExcludeList.php:51-137 | when the rules widen, every global or property excluded before is still excluded |
| Exclusion.HierarchyRulesExclude | src/ExcludeList.php:124-134 | adding an ancestor of a class, or an interface it implements, excludes every property of that class |
| Exclusion.AddStaticPropertyExcludesPair | src/ExcludeList.php:92-137 | adding (c, p) changes the answer for exactly that pair; for an unknown class the query still fails the same way |
| Exclusion.NameRulesNeedNoReflection | src/ExcludeList.php:110-122 | a class excluded by exact name or prefix is excluded whatever the class table holds, even when the class does not exist |
| Runtime.SuperGlobalArrays | src/Snapshot.php:351-378 | the seven short names, followed by the six long names exactly when `register_long_arrays` is "1" |
| Runtime.SuperGlobalArraysDistinct | src/Snapshot.php:351-378 | no name is listed twice |
| Runtime.WriteStatics | src/Restorer.php:78-87 | the static writes in order, stopping at the first property that does not exist: no property appears or disappears, and the one reported missing is a written property absent from the statics |
| Runtime.WriteStaticsKeepsReflection | src/Restorer.php:78-87 | writing static properties keeps every property reflection reports readable, so a store that could be captured still can be |
| Runtime.WriteStaticsFrame | src/Restorer.php:80-86 | the static writes never add or remove a property, and a property no write names keeps its value |
| Runtime.WriteStaticsSucceeds | src/Restorer.php:80-86 | when every written property exists, no write throws |
| Runtime.WriteStaticsRecords | src/Restorer.php:80-86 | when no write throws, each property holds the value of the last write naming it |
| Runtime.WriteStaticsThrows | src/Restorer.php:80-86 | the writes throw exactly when one of them names a property that does not exist |
| Runtime.WriteStaticsAgreeing | src/Restorer.php:80-86 | writes that agree with a map of values leave exactly the written properties holding those values |
| Runtime.WriteStaticsAppend | src/Restorer.php:80-86 | two batches of writes run as the first, then the second when the first did not throw |
| Containers.Untouched | src/Snapshot.php:222-226 | the names both global loops skip: `GLOBALS`, a listed super-global, a name the policy excludes |
| Containers.ArrayMergeKeys | src/Restorer.php:102-107 | the keys of `array_merge` are the string keys of both arrays plus 0 .. n-1, one for each integer-keyed entry |
| Containers.ArrayMergeKeysOfStringKeyed | src/Restorer.php:102-107 | without integer keys, the merged keys are the union of both key sets |
| Restorer.RestoreFunctions | src/Restorer.php:18-43 | without uopz it fails and changes nothing; otherwise exactly the live user functions the snapshot lists remain, in their order |
| Restorer.DeleteUnlistedRetainsListed | src/Restorer.php:40-42 | deleting the `array_diff` of live and listed functions leaves the live functions that are listed |
| Restorer.Without | src/Restorer.php:40 | `array_diff`: the names of the list outside the dropped set, in order; never longer than the list |
| Restorer.WithoutMembers | src/Restorer.php:40 | `array_diff` keeps exactly the names not in the dropped set |
| Restorer.RestoreGlobalVariables | src/Restorer.php:50-71 | given that every container the store holds is one the snapshot lists, and that no name the snapshot lists holds an array among the plain globals (it would be a container): each listed super-global that is live and saved becomes the saved array minus nulls; every live global that is not GLOBALS, not a super-global array and not excluded takes its saved value when that is set and is unset otherwise |
| Restorer.RestoredGlobalsEntries | src/Restorer.php:58-70 | after the restore, a name is present iff it was live and is either left alone or saved with a non-null value, and it holds the live or the saved value accordingly |
| Restorer.RestoredGlobalsIdempotent | src/Restorer.php:58-70 | restoring the globals twice from one snapshot gives the same result as once |
| Restorer.RestoreKeepsContainersSplit | src/Restorer.php:50-71 | when the snapshot lists every name the store lists: restoring `$GLOBALS` only unsets plain globals, leaves the listed names alone and keeps the set of super-global containers, so the store keeps its split into plain globals and listed containers |
| Restorer.RestoredContainersIdempotent | src/Restorer.php:52-56 | with the union restore (the intended behaviour; see Findings): restoring the super-globals twice from one snapshot gives the same result as once |
| Restorer.RestoreStaticAttributes | src/Restorer.php:78-87 | writes every recorded (class, name) => value in order, stopping at (and returning) the first that does not exist |
| Restorer.RestoreStaticAttributesSetsRecorded | src/Restorer.php:78-87 | no property appears or disappears; unrecorded properties keep their values; when all recorded properties exist there is no error and each holds its last recorded value |
| Restorer.RestoreSuperGlobalArray | src/Restorer.php:95-117 | a container that is live and saved becomes the saved one with its nulls dropped; otherwise nothing changes |
| Restorer.ReconcileContainerDropsNulls | src/Restorer.php:109-115 | visiting the union of live and saved keys leaves exactly the saved non-null entries, whatever the live container held |
| Restorer.ReconcileContainerAsWritten | src/Restorer.php:102-115 | the restore loop over `array_merge`'s keys, as written: it never invents a key, and on string keys it ends exactly as intended (the saved non-null entries); only integer keys go wrong |
| Restorer.AddedIntegerKeySurvivesRestore | src/Restorer.php:102-107 | as written, an integer-keyed entry added after the snapshot survives the restore |
| Restorer.RecordedIntegerKeyNotRestored | src/Restorer.php:102-107 | as written, an integer-keyed entry deleted after the snapshot is not put back |
| Restorer.AsWrittenNotIdempotent | src/Restorer.php:102-107 | as written, restoring a container twice from one snapshot can differ from restoring it once: an integer key the first pass keeps, the second pass unsets |
| Snapshots.UserDefinedSuffix | src/Snapshot.php:178-191 | the run of user-defined names at the end of the declaration order (its shape is stated by the two lemmas below) |
| Snapshots.UserDefinedSuffixShape | src/Snapshot.php:178-191 | the recorded classes are a suffix of the declaration order, all user-defined, preceded by a class that is not (or by nothing) |
| Snapshots.UserDefinedSuffixUnique | src/Snapshot.php:178-191 | any user-defined suffix preceded by a non-user class, or by nothing, is the one recorded |
| Snapshots.ScanFindsUserDefinedSuffix | src/Snapshot.php:180-190 | scanning the reversed list up to the first non-user class and reversing the result gives that suffix |
| Snapshots.CapturedContainer | src/Snapshot.php:261-270 | an array container is recorded key for key, each value unserializing to the live one; anything else is recorded as an empty array |
| Snapshots.EverySuperGlobalCaptured | src/Snapshot.php:214-219 | when every live container is a listed super-global, as in a consistent store, each is recorded and decodes to the live array |
| Snapshots.CapturedGlobals | src/Snapshot.php:222-229 | a global is recorded iff it is live, not GLOBALS, not a super-global array, not excluded and not a Closure, and it unserializes to its live value |
| Snapshots.CapturedClassStaticsMembers | src/Snapshot.php:310-325 | a class's recorded entries are exactly its static properties that are not excluded and hold no Closure, each serialized |
| Snapshots.CapturedStaticsMembers | src/Snapshot.php:304-331 | the recorded static entries are exactly the recorded properties of the recorded classes, each serialized |
| Snapshots.CapturedStaticsNonEmpty | src/Snapshot.php:327-329 | every class in the record has at least one entry and is one of the recorded classes |
| Snapshots.RestoreContainerIsSaved | src/Snapshot.php:289-297 | visiting the union of keys makes the live container equal the recorded one, nulls included |
| Snapshots.ContainerRoundTrip | src/Snapshot.php:261-299 | with the union restore (the intended behaviour; see Findings): a super-global captured and later restored is the captured array again, whatever happened in between |
| Snapshots.RestoreContainerAsWritten | src/Snapshot.php:282-297 | the restore loop over `array_merge`'s keys, as written: it never invents a key, and every string key ends holding its recorded value or unset when not recorded |
| Snapshots.SnapshotAddedIntegerKeySurvivesRestore | src/Snapshot.php:282-287 | as written, an integer-keyed entry added after the snapshot survives the restore |
| Snapshots.RestoreKeepsContainersSplit | src/Snapshot.php:235-254 | restore() only unsets plain globals, leaves the listed super-global names alone and keeps the set of super-global containers, so the store keeps its split into plain globals and listed containers |
| Snapshots.GlobalsRoundTrip | src/Snapshot.php:214-254 | after capture and a restore onto a later state: a name left alone keeps its later value; any other later name gets its captured value back if it was captured and is unset otherwise; deleted names are not recreated |
| Snapshots.GlobalsRestoreAfterCapture | src/Snapshot.php:214-254 | restoring straight after capturing, with the same policy, only unsets the globals that hold Closures |
| Snapshots.StaticAttributesRoundTrip | src/Snapshot.php:304-345 | when every recorded property still exists, the restore does not throw, every recorded property holds its captured value and every other keeps its later value |
| Snapshots.StaticAttributesRestoreThrows | src/Snapshot.php:336-345 | the static restore throws exactly when some recorded property no longer exists |
| Snapshots.Snapshot.constructor | src/Snapshot.php:119-140 | uses the given list, or a fresh empty one; records constants, functions, the user-class and interface suffixes, the super-globals (every live container among them, decoding to itself), the globals and the static properties as the capture functions define, then ini settings, included files and (when available) traits |
| Snapshots.Snapshot.Restore | src/Snapshot.php:147-151 | the globals and super-globals become the restored ones, then the recorded static properties are written in order, stopping at the first missing one; a consistent store stays consistent, so it can be captured again |
| Snapshots.Snapshot.SnapshotConstants | src/Snapshot.php:156-163 | the user constants |
| Snapshots.Snapshot.SnapshotFunctions | src/Snapshot.php:168-173 | the user functions |
| Snapshots.Snapshot.SnapshotClasses | src/Snapshot.php:178-191 | the maximal user-defined suffix of the declared classes |
| Snapshots.Snapshot.SnapshotInterfaces | src/Snapshot.php:196-209 | the maximal user-defined suffix of the declared interfaces |
| Snapshots.Snapshot.SnapshotGlobals | src/Snapshot.php:214-230 | every super-global array's container, then the globals as `CapturedGlobals` defines them |
| Snapshots.Snapshot.SnapshotSuperGlobalArray | src/Snapshot.php:261-270 | one container as `CapturedContainer` defines it |
| Snapshots.Snapshot.SnapshotStaticAttributes | src/Snapshot.php:304-331 | the static entries as `CapturedStatics` defines them |
| Snapshots.Snapshot.RestoreGlobalVariables | src/Snapshot.php:235-254 | each super-global that is live and recorded becomes the recorded array; every live global that is not left alone takes its recorded value if it has one and is unset otherwise |
| Snapshots.Snapshot.RestoreSuperGlobalArray | src/Snapshot.php:277-299 | a container that is live and recorded becomes the recorded array; otherwise nothing changes |
| Snapshots.Snapshot.RestoreStaticAttributes | src/Snapshot.php:336-345 | the recorded entries, unserialized, are written in order, stopping at and returning the first missing property |
| CodeExport.ArrayOnlyContainsScalars | src/CodeExporter.php:112-129 | true iff every element at every depth is a scalar, null or an array of such; stopping at the first offending element gives the same answer as checking all |
| CodeExport.ExportVariable | src/CodeExporter.php:98-106 | the `var_export` literal exactly for scalars, null and scalar-only arrays; `unserialize(<exported serialized string>)` for everything else |
| CodeExport.OnlyScalarsAppend | src/CodeExporter.php:116-126 | an array is scalar-only iff each of its parts is |
| CodeExport.OnlyScalarsWrap | src/CodeExporter.php:117-118 | wrapping a value in a one-element array does not change whether it is printed literally |
| CodeExport.RenderAppend | src/CodeExporter.php:61-71 | the output for two lists in sequence is the two outputs concatenated |
| CodeExport.RenderLineAt | src/CodeExporter.php:63-70 | entry i's line sits right after the lines of entries 0 .. i-1: one line per entry, in order |
| CodeExport.DefineLineShape | src/CodeExporter.php:64-69 | a constant's line starts with the guard and the define naming the constant twice, and ends with a newline |
| CodeExport.IniSetLineShape | src/CodeExporter.php:84-88 | a setting's line starts with `@ini_set(` and the name as a literal, and ends with a newline |
| CodeExport.Constants | src/CodeExporter.php:59-73 | the concatenated define lines of the snapshot's constants, in order; empty when there are none |
| CodeExport.IniSettings | src/CodeExporter.php:79-92 | the concatenated `@ini_set` lines of the snapshot's settings, in order; empty when there are none |

## Left out

- Restorer.RestoreSuperGlobalArray: visits the union of the live and saved keys, not the keys of `array_merge` as written. The as-written behaviour is modelled separately (see Findings).
- Snapshots.Snapshot.RestoreSuperGlobalArray: visits the union of the live and recorded keys, not the keys of `array_merge` as written (see Findings).
- Restorer.RestoreGlobalVariables: reconciles each container over the union of live and saved keys (`RestoredContainers`), not over the keys of `array_merge` as written (see Findings).
- Snapshots.Snapshot.RestoreGlobalVariables: reconciles each container over the union of live and recorded keys (`RestoredContainers`), not over the keys of `array_merge` as written (see Findings).
- Snapshots.Snapshot.Restore: the super-globals follow `RestoredContainers`, the union of keys, not the keys of `array_merge` as written (see Findings).
- Restorer.RestoredContainersIdempotent: holds of the union restore (`ReconcileContainer`), not of the source as written: with `[3 => 'a']` live and `[0 => 'x', 1 => 'y']` saved, a second pass unsets key 3, which the first pass kept (`AsWrittenNotIdempotent`; see Findings).
- Snapshots.ContainerRoundTrip: holds of the union restore (`RestoreContainer`), not of the source as written, where an integer key added after the capture survives and a deleted one is not put back (`SnapshotAddedIntegerKeySurvivesRestore`; see Findings). It also states equality as maps, which is PHP's `==` on arrays, not `===`. PHP arrays are ordered and the restore re-creates a deleted key at the end, so the order of keys after a restore can differ from the recorded order. The model's containers are maps and carry no order; the same holds of `Snapshots.RestoreContainerIsSaved` and `Restorer.ReconcileContainerDropsNulls`.
- Runtime.WriteStaticsFrame: a static property is one cell per (class, property) pair. In PHP a subclass that does not redeclare an inherited static shares its parent's cell, and reflection reports the property on both classes. Writing one pair then changes the other, which the model does not capture.
- Snapshots.StaticAttributesRoundTrip: "every other static keeps its later value" is stronger than PHP where an unrecorded pair shares its cell with a recorded one. For example, B extends A without redeclaring `$x` and `addSubclassesOf('A')` excludes B: restoring A's `$x` also sets B's, while the model leaves B's at its later value.
- Restorer.RestoreStaticAttributesSetsRecorded: the same independent cells; unrecorded pairs that share a cell with a recorded pair change in PHP.
- Snapshots.Snapshot.constructor: the private `snapshot*` methods return what they record and the constructor stores it. In the source they append to fields that start empty, and each is called once, so the state after construction is the same.
- `Blacklist`, the policy class `Snapshot.php` is typed against, is not part of this model. `ExcludeList` stands in for it, with `isGlobalVariableExcluded` and `isStaticPropertyExcluded` in place of the `...Blacklisted` queries.
- The `Snapshot` accessors that `Restorer.php` and `CodeExporter.php` call (`globalVariables()`, `superGlobalArrays()`, `constants()`, ...) belong to a revision that is not part of this model:
  - the Restorer reads a `SnapshotView` value holding plain values;
  - the exporter reads the `Snapshot` fields.
- Snapshots.Snapshot.constructor: requires every static property a declared class reports to hold a value (`ReflectionResolves` in `Store.Consistent`). A typed static property that was never initialised breaks this: `getValue()` at src/Snapshot.php:319 throws `Error` and the source's constructor fails. The model does not admit such a store, so that error path is not modelled.
- Reflection is a class table. A declared class is assumed resolvable, which the engine guarantees. Two reflection failures are modelled: an unknown class in `isStaticPropertyExcluded`, and `new ReflectionProperty` on a static property that does not exist when the static properties are restored (src/Restorer.php:82, src/Snapshot.php:340), which `Runtime.WriteStatics` reports as the first missing property. Exceptions from `isSubclassOf`/`implementsInterface` on unknown names, and `setAccessible`, are not modelled.
- `serialize`/`unserialize` are a lossless wrapper and their textual format is not modelled. `serialize()` throws on a Closure nested inside an array or inside an object's properties. In the source that exception leaves the `Snapshot` constructor; the model's `Serialize` accepts every value, so such a global, super-global entry or static property is recorded. Only a Closure held directly is skipped. The later behaviour that tests/SnapshotTest.php:114-133 expects, leaving such globals unrecorded, is not part of this revision.
- `var_export` and `serialize` in the exporter are parameters (`CodeExport.Printer`); their output formats are not modelled.
- PHP's loose comparisons are modelled as exact comparisons:
  - `$key != 'GLOBALS'`;
  - non-strict `in_array`;
  - `ini_get('register_long_arrays') == '1'`.

  Numeric-string names and integer keys in `$GLOBALS` are not modelled.
- A super-global that is set but holds a non-array is represented as absent from `Store.superGlobals`, the same case the source's `isset && is_array` test skips.
- `uopz_delete` is removal from the user-function list. Whether it exists is a flag (`Store.uopzAvailable`).
- Ini settings, included files and declared traits are copied as the runtime reports them. `function_exists('get_declared_traits')` is `Store.declaredTraits` being present.
- PHP references, cyclic arrays, object identity beyond class name and handle, and floating-point formatting are not modelled.

## Findings

| source | as written | input that shows it | evidently intended | confidence | as-written member | corrected member |
|---|---|---|---|---|---|---|
| src/Restorer.php:102-107 | the keys to visit are `array_keys(array_merge($live, $saved))`; `array_merge` renumbers integer keys from 0 | `$_GET` was `[]` when recorded and is `[5 => 'x']` at restore: the merged keys are `[0]`, so key 5 is never visited and stays (`AddedIntegerKeySurvivesRestore`). A recorded `[5 => 'y']` deleted since is not put back either (`RecordedIntegerKeyNotRestored`). With `[3 => 'a']` live and `[0 => 'x', 1 => 'y']` saved, restoring twice differs from restoring once (`AsWrittenNotIdempotent`) | visit every key of the live and the saved container, so that the container ends equal to the saved one minus nulls | not executed | Restorer.ReconcileContainerAsWritten | Restorer.ReconcileContainerDropsNulls |
| src/Snapshot.php:282-287 | the same `array_keys(array_merge(...))` over the live container and the recorded one | `$_GET` recorded as `[]`, then `[5 => 'x']` at restore: key 5 survives `restore()` (`SnapshotAddedIntegerKeySurvivesRestore`) | visit every key of both, so that the container ends equal to the recorded one | not executed | Snapshots.RestoreContainerAsWritten | Snapshots.RestoreContainerIsSaved |
