/**
 * The code exporter: it renders the constants and the ini settings of a
 * snapshot as PHP statements that re-create them, one statement per line.
 * A value becomes a var_export literal when it is a scalar, null or an array
 * of such values at every depth, and an unserialize() call otherwise.
 */
module CodeExport {
  import opened PhpValues
  import opened Snapshots

  /**
   * The two PHP built-ins the exporter prints with. Their textual formats are
   * not modelled: var_export and serialize are whatever these functions say.
   */
  datatype Printer = Printer(varExport: Value -> string, serialize: Value -> string)

  // ---------------------------------------------------------------------
  // Which values have a literal form

  /** A leaf var_export can print directly: a scalar or null. */
  predicate ScalarLeaf(v: Value) {
    IsScalar(v) || v.Null?
  }

  /** A scalar, null, or an array all of whose elements are, recursively, the same. */
  predicate ScalarTree(v: Value)
    decreases v
  {
    ScalarLeaf(v) || (v.Arr? && forall i :: 0 <= i < |v.entries| ==> ScalarTree(v.entries[i].1))
  }

  /** Every value held in `entries`, at every depth, is a scalar, null or an array. */
  predicate OnlyScalars(entries: seq<(Key, Value)>) {
    forall i :: 0 <= i < |entries| ==> ScalarTree(entries[i].1)
  }

  /**
   * arrayOnlyContainsScalars: scans the elements in order, descending into
   * arrays, and stops at the first element (at any depth) that is neither a
   * scalar nor null. Stopping early gives the same answer as examining every
   * element.
   */
  method ArrayOnlyContainsScalars(arr: Value) returns (result: bool)
    requires arr.Arr?
    ensures result <==> OnlyScalars(arr.entries)
    decreases arr
  {
    var elements := arr.entries;
    result := true;
    var i := 0;
    while i < |elements|
      invariant 0 <= i <= |elements|
      invariant result
      invariant forall k :: 0 <= k < i ==> ScalarTree(elements[k].1)
    {
      var element := elements[i].1;
      if element.Arr? {
        result := ArrayOnlyContainsScalars(element);
      } else if !IsScalar(element) && !element.Null? {
        result := false;
      }
      if !result {
        break;
      }
      i := i + 1;
    }
  }

  /**
   * The text exportVariable produces: the var_export literal when the value
   * has one, else `unserialize(<the serialized string, var_exported>)`.
   */
  function Exported(v: Value, p: Printer): (r: string) {
    if ScalarTree(v) then p.varExport(v)
    else "unserialize(" + p.varExport(Str(p.serialize(v))) + ")"
  }

  /**
   * exportVariable: the literal form exactly for scalars, null and arrays of
   * those at every depth; an object, a resource or an array holding one
   * anywhere goes through unserialize().
   */
  method ExportVariable(v: Value, p: Printer) returns (r: string)
    ensures ScalarTree(v) ==> r == p.varExport(v)
    ensures !ScalarTree(v) ==> r == "unserialize(" + p.varExport(Str(p.serialize(v))) + ")"
  {
    var literal := IsScalar(v) || v.Null?;
    if !literal && v.Arr? {
      literal := ArrayOnlyContainsScalars(v);
    }
    if literal {
      r := p.varExport(v);
    } else {
      r := "unserialize(" + p.varExport(Str(p.serialize(v))) + ")";
    }
  }

  /** An array is exported literally iff each of its parts would be. */
  lemma {:induction false} OnlyScalarsAppend(a: seq<(Key, Value)>, b: seq<(Key, Value)>)
    ensures OnlyScalars(a + b) <==> OnlyScalars(a) && OnlyScalars(b)
  {
    assert forall i :: 0 <= i < |a| ==> (a + b)[i] == a[i];
    assert forall i :: 0 <= i < |b| ==> (a + b)[|a| + i] == b[i];
  }

  /** Wrapping a value in a one-element array does not change how it is exported. */
  lemma OnlyScalarsWrap(k: Key, v: Value)
    ensures ScalarTree(Arr([(k, v)])) <==> ScalarTree(v)
  {
    assert [(k, v)][0].1 == v;
  }

  // ---------------------------------------------------------------------
  // Rendering a list of entries one line each

  /** The text of the lines `line` renders for `entries`, in order. */
  function Render(entries: seq<(string, Value)>, line: ((string, Value)) -> string): (r: string)
    decreases |entries|
  {
    if entries == [] then ""
    else Render(entries[..|entries| - 1], line) + line(entries[|entries| - 1])
  }

  /** Rendering two lists one after the other renders their concatenation. */
  lemma {:induction false} RenderAppend(a: seq<(string, Value)>, b: seq<(string, Value)>,
                                        line: ((string, Value)) -> string)
    ensures Render(a + b, line) == Render(a, line) + Render(b, line)
    decreases |b|
  {
    if b == [] {
      assert a + b == a;
    } else {
      var init := b[..|b| - 1];
      assert (a + b)[..|a + b| - 1] == a + init;
      RenderAppend(a, init, line);
    }
  }

  /**
   * The i-th entry's line sits exactly after the lines of the entries before
   * it: the output is one line per entry, in the order of the entries.
   */
  lemma {:induction false} RenderLineAt(entries: seq<(string, Value)>, line: ((string, Value)) -> string, i: nat)
    requires i < |entries|
    ensures var start := |Render(entries[..i], line)|;
      && start + |line(entries[i])| <= |Render(entries, line)|
      && Render(entries, line)[start..start + |line(entries[i])|] == line(entries[i])
  {
    var before, rest := entries[..i], entries[i + 1..];
    assert entries == before + [entries[i]] + rest;
    RenderAppend(before + [entries[i]], rest, line);
    RenderAppend(before, [entries[i]], line);
    assert [entries[i]][..0] == [];
    assert Render([entries[i]], line) == line(entries[i]);
  }

  /** One line of the constants export. */
  function DefineLine(constant: (string, Value), p: Printer): (r: string)
  {
    var name := constant.0;
    "if (!defined('" + name + "')) define('" + name + "', " + Exported(constant.1, p) + ");\n"
  }

  /** One line of the ini-settings export. */
  function IniSetLine(setting: (string, Value), p: Printer): (r: string)
  {
    "@ini_set(" + Exported(Str(setting.0), p) + ", " + Exported(setting.1, p) + ");\n"
  }

  /** Every define line names its constant twice and ends the line. */
  lemma DefineLineShape(constant: (string, Value), p: Printer)
    ensures var r := DefineLine(constant, p);
      var prefix := "if (!defined('" + constant.0 + "')) define('" + constant.0 + "', ";
      && |prefix| < |r|
      && r[..|prefix|] == prefix
      && r[|r| - 1] == '\n'
  {
  }

  /** A setting's name is a string, so it is always printed as a literal. */
  lemma IniSetLineShape(setting: (string, Value), p: Printer)
    ensures var r := IniSetLine(setting, p);
      var prefix := "@ini_set(" + p.varExport(Str(setting.0)) + ", ";
      && |prefix| < |r|
      && r[..|prefix|] == prefix
      && r[|r| - 1] == '\n'
  {
    assert ScalarLeaf(Str(setting.0));
  }

  /** constants(): one define line per recorded constant, in order; nothing when there are none. */
  method Constants(snapshot: Snapshot, p: Printer) returns (result: string)
    ensures result == Render(snapshot.constants, c => DefineLine(c, p))
    ensures snapshot.constants == [] ==> result == ""
  {
    var constants := snapshot.constants;
    result := "";
    var i := 0;
    while i < |constants|
      invariant 0 <= i <= |constants|
      invariant result == Render(constants[..i], c => DefineLine(c, p))
    {
      assert constants[..i + 1][..i] == constants[..i];
      var (name, value) := constants[i];
      var exported := ExportVariable(value, p);
      var line := "if (!defined('" + name + "')) define('" + name + "', " + exported + ");\n";
      result := result + line;
      i := i + 1;
    }
    assert constants[..i] == constants;
  }

  /** iniSettings(): one ini_set line per recorded setting, in order; nothing when there are none. */
  method IniSettings(snapshot: Snapshot, p: Printer) returns (result: string)
    ensures result == Render(snapshot.iniSettings, s => IniSetLine(s, p))
    ensures snapshot.iniSettings == [] ==> result == ""
  {
    var settings := snapshot.iniSettings;
    result := "";
    var i := 0;
    while i < |settings|
      invariant 0 <= i <= |settings|
      invariant result == Render(settings[..i], s => IniSetLine(s, p))
    {
      assert settings[..i + 1][..i] == settings[..i];
      var (key, value) := settings[i];
      var exportedKey := ExportVariable(Str(key), p);
      var exportedValue := ExportVariable(value, p);
      var line := "@ini_set(" + exportedKey + ", " + exportedValue + ");\n";
      result := result + line;
      i := i + 1;
    }
    assert settings[..i] == settings;
  }
}
