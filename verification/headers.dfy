/**
 * Parser::buildClassTable (Parser.cpp:212-441) on one header, as functions of
 * the header's lines and the store: the validity gate, the namespace stack kept
 * by brace counting, the rows pass 1 inserts and the base classes pass 2 sets.
 *
 * The scan state (`namespaces`, `numBraces`, `hasNameSpace`, `classStarted`)
 * evolves independently of the store: `NamespaceStep` is that evolution and
 * says which lines are class definitions; `ClassLine` is what such a line does
 * to the store.
 */
module Headers {
  import opened QtString
  import opened Store
  import opened Resolution
  import opened Comments

  /** The local variables of buildClassTable that survive from line to line. */
  datatype HeaderScan = HeaderScan(
    namespaces: seq<string>,
    numBraces: int,
    hasNameSpace: bool,
    classStarted: bool)

  const InitialScan: HeaderScan := HeaderScan([], 0, false, false)

  /** What a line asks of the store besides changing the scan state. */
  datatype Action = NoAction | Unbalanced | ClassDefinition

  /** A line holding `class` and no `;` (Parser.cpp:228, 272). */
  predicate IsClassDefinition(s: string)
  {
    Contains(s, "class") && !Contains(s, ";")
  }

  /** The validity gate of Parser.cpp:227-233. */
  predicate HasClassDefinition(strings: seq<string>)
  {
    exists i :: 0 <= i < |strings| && IsClassDefinition(strings[i])
  }

  /** A `namespace` line turned into a prefix (Parser.cpp:247-251). */
  function NamespaceEntry(s: string): string
  {
    ReplaceAll(ReplaceAll(ReplaceAll(s, "namespace", ""), " ", ""), "{", "") + "::"
  }

  /** The class name of a derived-class line: what precedes the first `:`
      without `class` and spaces (Parser.cpp:283-286). */
  function DerivedClassName(s: string): string
  {
    ReplaceAll(ReplaceAll(Left(s, IndexOf(s, ":")), "class", ""), " ", "")
  }

  /** The class name of a line without `:`: from `class` up to the `{`, without
      `class` and spaces (Parser.cpp:413-418). */
  function PlainClassName(s: string): string
  {
    var idx := IndexOf(s, "class");
    var end := IndexOf(s, "{");
    ReplaceAll(ReplaceAll(Mid(s, idx, end - idx), "class", ""), " ", "")
  }

  /** The fully qualified name a class-definition line registers. */
  function ClassName(s: string, ns: seq<string>): string
  {
    Join(ns) + (if Contains(s, ":") then DerivedClassName(s) else PlainClassName(s))
  }

  /** The base class written after the `:`, without access keywords and spaces
      (Parser.cpp:311-320). */
  function BaseSpecifier(s: string): string
  {
    var t := ReplaceAll(ReplaceAll(ReplaceAll(s, "public", ""), "private", ""), "protected", "");
    var dIdx := IndexOf(t, ":");
    var end := IndexOf(t, "{");
    ReplaceAll(Mid(t, dIdx + 1, (end - dIdx) - 1), " ", "")
  }

  /** `rows` appended to the class table, numClasses advanced past them. */
  function AppendClasses(db: Db, rows: seq<ClassRow>): Db
  {
    Db(db.classes + rows, db.slots, db.slotObjs, db.numClasses + |rows|, db.numSlots)
  }

  /** `insert into class values(nextRow, name, NULL, fileName, NULL)`. */
  function InsertClass(db: Db, name: string, path: string): Db
  {
    AppendClasses(db, [ClassRow(db.numClasses, name, None, path, None)])
  }

  lemma AppendClassesTwice(db: Db, r1: seq<ClassRow>, r2: seq<ClassRow>)
    ensures AppendClasses(AppendClasses(db, r1), r2) == AppendClasses(db, r1 + r2)
  {
    assert db.classes + r1 + r2 == db.classes + (r1 + r2);
  }

  lemma AppendNoClasses(db: Db)
    ensures AppendClasses(db, []) == db
  {
    assert db.classes + [] == db.classes;
  }

  /** The rows pass 1 inserts for `names`, numbered from `base`. */
  function NewRows(names: seq<string>, base: int, path: string): (r: seq<ClassRow>)
    ensures |r| == |names|
  {
    seq(|names|, k requires 0 <= k < |names| => ClassRow(base + k, names[k], None, path, None))
  }

  /** The branches of Parser.cpp:241-273 on one line: the next scan state and what
      the line asks for. */
  function NamespaceStep(s: string, sc: HeaderScan): (HeaderScan, Action)
  {
    if Contains(s, "namespace") then
      if !Contains(s, "}") then
        (sc.(namespaces := sc.namespaces + [NamespaceEntry(s)], hasNameSpace := true), NoAction)
      else (sc, NoAction)
    else if sc.hasNameSpace && Contains(s, "{") && !Contains(s, "class") then
      (sc.(numBraces := sc.numBraces + 1), NoAction)
    else if sc.hasNameSpace && Contains(s, "}") then
      if sc.numBraces > 0 then (sc.(numBraces := sc.numBraces - 1), NoAction)
      else if !sc.classStarted then
        if sc.namespaces == [] then (sc, Unbalanced)
        else (sc.(namespaces := sc.namespaces[..|sc.namespaces| - 1]), NoAction)
      else (sc, NoAction)
    else if sc.hasNameSpace && IsClassDefinition(s) then
      (sc.(classStarted := true), ClassDefinition)
    else (sc, NoAction)
  }

  /** A class-definition line under the namespaces `ns` (Parser.cpp:276-430). */
  function ClassLine(path: string, basePass: bool, s: string, ns: seq<string>, db: Db): Finish
  {
    var cString := ClassName(s, ns);
    if Contains(s, ":") then
      if basePass then
        match BaseLookupSpec(db.classes, ns, BaseSpecifier(s))
        case OutOfRange => Finish(db, Some(NamespaceIndexOutOfRange(path)))
        case Resolved(None) => Finish(db, None)
        case Resolved(Some(v)) => Finish(db.(classes := SetBaseClass(db.classes, cString, v)), None)
      else Finish(InsertClass(db, cString, path), None)
    else if basePass then Finish(db, None)
    else Finish(InsertClass(db, cString, path), None)
  }

  /** The main loop of buildClassTable from line `i` on (Parser.cpp:240-431). */
  function HeaderFrom(path: string, basePass: bool, L: seq<string>, i: nat, sc: HeaderScan, db: Db): Finish
    decreases |L| - i
  {
    if i >= |L| then Finish(db, None)
    else
      var (sc', a) := NamespaceStep(L[i], sc);
      match a
      case NoAction => HeaderFrom(path, basePass, L, i + 1, sc', db)
      case Unbalanced => Finish(db, Some(UnbalancedNamespace(path)))
      case ClassDefinition =>
        var f := ClassLine(path, basePass, L[i], sc.namespaces, db);
        if f.abort.Some? then f else HeaderFrom(path, basePass, L, i + 1, sc', f.db)
  }

  /** buildClassTable on the header `path` with lines `lines`. */
  function ClassTableSpec(path: string, lines: seq<string>, basePass: bool, db: Db): Finish
  {
    if CountChar(path, '.') > 1 then Finish(db, None)
    else
      var strings := StripComments(lines);
      if !HasClassDefinition(strings) then Finish(db, None)
      else HeaderFrom(path, basePass, strings, 0, InitialScan, db)
  }

  // ---------------------------------------------------------------------------
  // The names a header registers, independent of the store.
  // ---------------------------------------------------------------------------

  /** The qualified names of the class-definition lines from line `i` on, up to
      an unbalanced `}`. */
  function RegisteredNames(L: seq<string>, i: nat, sc: HeaderScan): seq<string>
    decreases |L| - i
  {
    if i >= |L| then []
    else
      var (sc', a) := NamespaceStep(L[i], sc);
      match a
      case NoAction => RegisteredNames(L, i + 1, sc')
      case Unbalanced => []
      case ClassDefinition => [ClassName(L[i], sc.namespaces)] + RegisteredNames(L, i + 1, sc')
  }

  /** The names pass 1 registers for a header: none when the gate rejects it. */
  function HeaderClassNames(path: string, lines: seq<string>): seq<string>
  {
    if CountChar(path, '.') > 1 || !HasClassDefinition(StripComments(lines)) then []
    else RegisteredNames(StripComments(lines), 0, InitialScan)
  }

  // ---------------------------------------------------------------------------
  // Properties.
  // ---------------------------------------------------------------------------

  lemma NewRowsCons(n: string, names: seq<string>, base: int, next: int, path: string)
    requires next == base + 1
    ensures [ClassRow(base, n, None, path, None)] + NewRows(names, next, path) == NewRows([n] + names, base, path)
  {
  }

  /**
   * Pass 1 appends one row per class-definition line met after a namespace was
   * opened, in file order, with consecutive ids from numClasses, the file name,
   * and NULL form name and base class; it changes nothing else and stops only on
   * an unbalanced `}`.
   */
  lemma {:induction false} Pass1Rows(path: string, L: seq<string>, i: nat, sc: HeaderScan, db: Db)
    ensures var f := HeaderFrom(path, false, L, i, sc, db);
      && f.db == AppendClasses(db, NewRows(RegisteredNames(L, i, sc), db.numClasses, path))
      && (f.abort.None? || f.abort == Some(UnbalancedNamespace(path)))
    decreases |L| - i
  {
    if i < |L| {
      var (sc', a) := NamespaceStep(L[i], sc);
      match a
      case NoAction =>
        Pass1Rows(path, L, i + 1, sc', db);
      case Unbalanced =>
        AppendNoClasses(db);
      case ClassDefinition =>
        var n := ClassName(L[i], sc.namespaces);
        var row := ClassRow(db.numClasses, n, None, path, None);
        var db1 := InsertClass(db, n, path);
        assert ClassLine(path, false, L[i], sc.namespaces, db) == Finish(db1, None);
        Pass1Rows(path, L, i + 1, sc', db1);
        var rest := RegisteredNames(L, i + 1, sc');
        assert RegisteredNames(L, i, sc) == [n] + rest;
        NewRowsCons(n, rest, db.numClasses, db1.numClasses, path);
        AppendClassesTwice(db, [row], NewRows(rest, db1.numClasses, path));
    } else {
      AppendNoClasses(db);
    }
  }

  /** What pass 2 may do to the class rows: ids, names, form names and file names
      stay, and a base class changes only to the id of a row of `before`. */
  predicate BasesOnlyUpdated(before: seq<ClassRow>, after: seq<ClassRow>)
  {
    && |after| == |before|
    && forall k :: 0 <= k < |before| ==>
         && SameButBase(before[k], after[k])
         && (after[k].baseClass == before[k].baseClass
             || (after[k].baseClass.Some? && HasId(before, after[k].baseClass.value)))
  }

  lemma BasesOnlyUpdatedTrans(a: seq<ClassRow>, b: seq<ClassRow>, c: seq<ClassRow>)
    requires BasesOnlyUpdated(a, b) && BasesOnlyUpdated(b, c)
    ensures BasesOnlyUpdated(a, c)
  {
    forall k | 0 <= k < |a| && c[k].baseClass != a[k].baseClass && c[k].baseClass != b[k].baseClass
      ensures HasId(a, c[k].baseClass.value)
    {
      var m :| 0 <= m < |b| && b[m].id == c[k].baseClass.value;
      assert a[m].id == b[m].id;
    }
  }

  lemma SetBaseClassOnlyUpdates(classes: seq<ClassRow>, name: string, v: int)
    requires HasId(classes, v)
    ensures BasesOnlyUpdated(classes, SetBaseClass(classes, name, v))
  {
  }

  /** One class-definition line in pass 2 sets at most its own base class. */
  lemma ClassLineBases(path: string, s: string, ns: seq<string>, db: Db)
    ensures var f := ClassLine(path, true, s, ns, db);
      && f.db.slots == db.slots && f.db.slotObjs == db.slotObjs
      && f.db.numClasses == db.numClasses && f.db.numSlots == db.numSlots
      && BasesOnlyUpdated(db.classes, f.db.classes)
  {
    if Contains(s, ":") {
      var d := BaseSpecifier(s);
      var look := BaseLookupSpec(db.classes, ns, d);
      if look.Resolved? && look.id.Some? {
        BaseLookupFindsStoredRow(db.classes, ns, d);
        SetBaseClassOnlyUpdates(db.classes, ClassName(s, ns), look.id.value);
      }
    }
  }

  /**
   * Pass 2 inserts no row and touches neither the slot tables nor the counters:
   * it only sets base classes, each to the id of an existing row.
   */
  lemma {:induction false} Pass2Bases(path: string, L: seq<string>, i: nat, sc: HeaderScan, db: Db)
    ensures var f := HeaderFrom(path, true, L, i, sc, db);
      && f.db.slots == db.slots && f.db.slotObjs == db.slotObjs
      && f.db.numClasses == db.numClasses && f.db.numSlots == db.numSlots
      && BasesOnlyUpdated(db.classes, f.db.classes)
    decreases |L| - i
  {
    if i < |L| {
      var (sc', a) := NamespaceStep(L[i], sc);
      match a
      case NoAction =>
        Pass2Bases(path, L, i + 1, sc', db);
      case Unbalanced =>
      case ClassDefinition =>
        var f := ClassLine(path, true, L[i], sc.namespaces, db);
        ClassLineBases(path, L[i], sc.namespaces, db);
        if f.abort.None? {
          assert HeaderFrom(path, true, L, i, sc, db) == HeaderFrom(path, true, L, i + 1, sc', f.db);
          Pass2Bases(path, L, i + 1, sc', f.db);
          BasesOnlyUpdatedTrans(db.classes, f.db.classes, HeaderFrom(path, true, L, i + 1, sc', f.db).db.classes);
        }
    }
  }

  /** Pass 2 records a base class only on a hit: a class-definition line without
      `:`, or one whose base does not resolve, leaves the store as it is. */
  lemma BaseSetOnlyOnHit(path: string, s: string, ns: seq<string>, db: Db)
    requires !Contains(s, ":") || BaseLookupSpec(db.classes, ns, BaseSpecifier(s)) == Resolved(None)
    ensures ClassLine(path, true, s, ns, db) == Finish(db, None)
  {
  }

  /** A header with no `namespace` line before any namespace was opened changes
      nothing: class definitions are only recognised inside a namespace. */
  lemma {:induction false} NoNamespaceNoChange(path: string, basePass: bool, L: seq<string>, i: nat, sc: HeaderScan, db: Db)
    requires !sc.hasNameSpace
    requires forall j :: i <= j < |L| ==> !Contains(L[j], "namespace")
    ensures HeaderFrom(path, basePass, L, i, sc, db) == Finish(db, None)
    decreases |L| - i
  {
    if i < |L| {
      assert NamespaceStep(L[i], sc) == (sc, NoAction);
      NoNamespaceNoChange(path, basePass, L, i + 1, sc, db);
    }
  }

  /** buildClassTable leaves the store as it is for a file whose full path (its
      directories included) has more than one `.`, a header without a class
      definition, or one without a namespace. */
  lemma ClassTableUntouched(path: string, lines: seq<string>, basePass: bool, db: Db)
    requires || CountChar(path, '.') > 1
             || !HasClassDefinition(StripComments(lines))
             || forall j :: 0 <= j < |StripComments(lines)| ==> !Contains(StripComments(lines)[j], "namespace")
    ensures ClassTableSpec(path, lines, basePass, db) == Finish(db, None)
  {
    if CountChar(path, '.') <= 1 && HasClassDefinition(StripComments(lines)) {
      NoNamespaceNoChange(path, basePass, StripComments(lines), 0, InitialScan, db);
    }
  }

  /** Pass 1 over a header appends exactly the rows of HeaderClassNames. */
  lemma ClassTablePass1(path: string, lines: seq<string>, db: Db)
    ensures var f := ClassTableSpec(path, lines, false, db);
      && f.db == AppendClasses(db, NewRows(HeaderClassNames(path, lines), db.numClasses, path))
      && (f.abort.None? || f.abort == Some(UnbalancedNamespace(path)))
  {
    if CountChar(path, '.') > 1 || !HasClassDefinition(StripComments(lines)) {
      AppendNoClasses(db);
    } else {
      Pass1Rows(path, StripComments(lines), 0, InitialScan, db);
    }
  }

  /** Pass 2 over a header only sets base classes. */
  lemma ClassTablePass2(path: string, lines: seq<string>, db: Db)
    ensures var f := ClassTableSpec(path, lines, true, db);
      && f.db.slots == db.slots && f.db.slotObjs == db.slotObjs
      && f.db.numClasses == db.numClasses && f.db.numSlots == db.numSlots
      && BasesOnlyUpdated(db.classes, f.db.classes)
  {
    if CountChar(path, '.') <= 1 && HasClassDefinition(StripComments(lines)) {
      Pass2Bases(path, StripComments(lines), 0, InitialScan, db);
    }
  }

  /** Either pass keeps the store valid: class ids stay the row positions and
      every base class names an existing row. */
  lemma ClassTableKeepsValid(path: string, lines: seq<string>, basePass: bool, db: Db)
    requires Valid(db)
    ensures Valid(ClassTableSpec(path, lines, basePass, db).db)
  {
    var f := ClassTableSpec(path, lines, basePass, db);
    if basePass {
      ClassTablePass2(path, lines, db);
      forall k | 0 <= k < |f.db.classes| && f.db.classes[k].baseClass.Some?
        ensures 0 <= f.db.classes[k].baseClass.value < |f.db.classes|
      {
        if f.db.classes[k].baseClass != db.classes[k].baseClass {
          var m :| 0 <= m < |db.classes| && db.classes[m].id == f.db.classes[k].baseClass.value;
        }
      }
    } else {
      ClassTablePass1(path, lines, db);
    }
  }

  /** A namespace prefix has neither spaces nor `{` in front of its `::`. */
  lemma NamespaceEntryShape(s: string)
    ensures var e := NamespaceEntry(s);
      |e| >= 2 && e[|e| - 2..] == "::" && ' ' !in e[..|e| - 2] && '{' !in e[..|e| - 2]
  {
    var s1 := ReplaceAll(s, "namespace", "");
    var s2 := ReplaceAll(s1, " ", "");
    var s3 := ReplaceAll(s2, "{", "");
    var e := NamespaceEntry(s);
    assert e[..|e| - 2] == s3;
    RemoveCharRemovesAll(s1, ' ');
    RemoveCharRemovesAll(s2, '{');
    if ' ' in s3 {
      ReplaceByEmptyKeepsChars(s2, "{", ' ');
    }
  }

  /** The written base class that pass 2 looks up has no spaces. */
  lemma BaseSpecifierHasNoSpaces(s: string)
    ensures ' ' !in BaseSpecifier(s)
  {
    var t := ReplaceAll(ReplaceAll(ReplaceAll(s, "public", ""), "private", ""), "protected", "");
    var dIdx := IndexOf(t, ":");
    var end := IndexOf(t, "{");
    RemoveCharRemovesAll(Mid(t, dIdx + 1, (end - dIdx) - 1), ' ');
  }

  // ---------------------------------------------------------------------------
  // The namespace stack over a file.
  // ---------------------------------------------------------------------------

  /** The scan state after the lines `i .. j-1`. */
  function ScanThrough(L: seq<string>, i: nat, j: nat, sc: HeaderScan): HeaderScan
    requires i <= j <= |L|
    decreases j - i
  {
    if i == j then sc else ScanThrough(L, i + 1, j, NamespaceStep(L[i], sc).0)
  }

  /**
   * Once a class definition has been seen, a `}` no longer closes a namespace:
   * the namespaces open at that point stay open (at the front of the stack) for
   * the rest of the file, and `}` never aborts.
   */
  lemma {:induction false} NamespacesKeptAfterClass(L: seq<string>, i: nat, j: nat, sc: HeaderScan)
    requires i <= j <= |L|
    requires sc.classStarted
    ensures var sc' := ScanThrough(L, i, j, sc);
      sc'.classStarted && |sc'.namespaces| >= |sc.namespaces|
      && sc'.namespaces[..|sc.namespaces|] == sc.namespaces
    decreases j - i
  {
    if i < j {
      var (next, a) := NamespaceStep(L[i], sc);
      assert a != Unbalanced;
      assert next.classStarted && next.namespaces[..|sc.namespaces|] == sc.namespaces;
      NamespacesKeptAfterClass(L, i + 1, j, next);
      var sc' := ScanThrough(L, i, j, sc);
      assert sc'.namespaces[..|next.namespaces|][..|sc.namespaces|] == sc'.namespaces[..|sc.namespaces|];
    }
  }

  /** An unbalanced `}` is the only way the header scan stops before pass 2's
      lookups run: it needs an empty stack, no open brace and no class yet. */
  lemma UnbalancedNeedsEmptyStack(s: string, sc: HeaderScan)
    requires NamespaceStep(s, sc).1 == Unbalanced
    ensures sc.namespaces == [] && sc.numBraces <= 0 && !sc.classStarted && sc.hasNameSpace
    ensures Contains(s, "}") && !Contains(s, "namespace")
  {
  }
}
