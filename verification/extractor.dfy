/**
 * The Parser object of Parser.h/Parser.cpp: the store it writes into, the two
 * static id counters, and the operations that fill the store from a project's
 * headers and implementation files. Each method runs the loops of the source
 * and is proved to compute the specification function of its module.
 */
module Extractor {
  import opened QtString
  import opened Store
  import opened Resolution
  import opened Comments
  import opened Headers
  import opened Sources
  import opened Driver

  /** The validity gate of buildClassTable (Parser.cpp:227-231): some line holds
      `class` and no `;`. */
  method FindClassDefinition(strings: seq<string>) returns (classStarted: bool)
    ensures classStarted <==> HasClassDefinition(strings)
  {
    classStarted := false;
    var i := 0;
    while i < |strings| && !classStarted
      invariant 0 <= i <= |strings|
      invariant classStarted <==> exists k :: 0 <= k < i && IsClassDefinition(strings[k])
    {
      if Contains(strings[i], "class") && !Contains(strings[i], ";") {
        classStarted := true;
      }
      i := i + 1;
    }
  }

  class Parser {
    var classes: seq<ClassRow>
    var slots: seq<SlotRow>
    var slotObjs: seq<SlotObjRow>
    var numClasses: int
    var numSlots: int

    /** The store and the counters as one value. */
    function State(): Db
      reads this
    {
      Db(classes, slots, slotObjs, numClasses, numSlots)
    }

    /** Both counters start at 0 (Parser.cpp:11-12); the tables start empty. */
    constructor ()
      ensures State() == Db([], [], [], 0, 0)
    {
      classes := [];
      slots := [];
      slotObjs := [];
      numClasses := 0;
      numSlots := 0;
    }

    /** Parser::getNextClassNum (Parser.h:41): the current count, then one more;
        numSlots is untouched. */
    method GetNextClassNum() returns (r: int)
      modifies this`numClasses
      ensures r == old(numClasses) && numClasses == old(numClasses) + 1
    {
      r := numClasses;
      numClasses := numClasses + 1;
    }

    /** Parser::getNextSlotNum (Parser.h:42): the current count, then one more;
        numClasses is untouched. */
    method GetNextSlotNum() returns (r: int)
      modifies this`numSlots
      ensures r == old(numSlots) && numSlots == old(numSlots) + 1
    {
      r := numSlots;
      numSlots := numSlots + 1;
    }

    /** `insert into class values(nextRow, name, NULL, fileName, NULL)`
        (Parser.cpp:404-409, 424-428). */
    method InsertClassRow(name: string, path: string)
      modifies this
      ensures State() == InsertClass(old(State()), name, path)
    {
      var nextRow := GetNextClassNum();
      classes := classes + [ClassRow(nextRow, name, None, path, None)];
    }

    /** A class-definition line of a header (Parser.cpp:276-430). */
    method ClassDefinitionLine(path: string, basePass: bool, s: string, namespaces: seq<string>)
      returns (abort: Option<Failure>)
      modifies this
      ensures Finish(State(), abort) == ClassLine(path, basePass, s, namespaces, old(State()))
    {
      abort := None;
      if Contains(s, ":") {
        var dIdx := IndexOf(s, ":");
        var cString := ReplaceAll(ReplaceAll(Left(s, dIdx), "class", ""), " ", "");
        cString := QualifyOutermostFirst(namespaces, cString);
        assert cString == ClassName(s, namespaces);
        if basePass {
          var look := ResolveBaseClass(classes, namespaces, BaseSpecifier(s));
          match look
          case OutOfRange =>
            abort := Some(NamespaceIndexOutOfRange(path));
          case Resolved(None) =>
          case Resolved(Some(val)) =>
            classes := SetBaseClass(classes, cString, val);
        } else {
          InsertClassRow(cString, path);
        }
      } else if !basePass {
        var idx := IndexOf(s, "class");
        var end := IndexOf(s, "{");
        var temp := ReplaceAll(ReplaceAll(Mid(s, idx, end - idx), "class", ""), " ", "");
        temp := QualifyOutermostFirst(namespaces, temp);
        assert temp == ClassName(s, namespaces);
        InsertClassRow(temp, path);
      }
    }

    /** Parser::buildClassTable (Parser.cpp:212-441) on one header. */
    method BuildClassTable(file: SourceFile, basePass: bool) returns (abort: Option<Failure>)
      modifies this
      ensures Finish(State(), abort) == ClassTableSpec(file.path, file.lines, basePass, old(State()))
    {
      abort := None;
      if CountChar(file.path, '.') > 1 {
        return;
      }
      var stream := new LineStream(file.lines);
      var strings := RemoveComments(stream);
      var classStarted := FindClassDefinition(strings);
      if !classStarted {
        return;
      }
      abort := ScanHeader(file.path, basePass, strings);
    }

    /** The main loop of buildClassTable (Parser.cpp:240-431) over the comment-free
        lines of a header that passed the gate. */
    method ScanHeader(path: string, basePass: bool, strings: seq<string>) returns (abort: Option<Failure>)
      modifies this
      ensures Finish(State(), abort) == HeaderFrom(path, basePass, strings, 0, InitialScan, old(State()))
    {
      abort := None;
      var namespaces: seq<string> := [];
      var numBraces := 0;
      var hasNameSpace := false;
      var classStarted := false;
      ghost var spec := HeaderFrom(path, basePass, strings, 0, InitialScan, State());
      var i := 0;
      while i < |strings|
        invariant 0 <= i <= |strings| && abort.None?
        invariant HeaderFrom(path, basePass, strings, i,
                    HeaderScan(namespaces, numBraces, hasNameSpace, classStarted), State()) == spec
      {
        ghost var sc := HeaderScan(namespaces, numBraces, hasNameSpace, classStarted);
        var s := strings[i];
        if Contains(s, "namespace") {
          if !Contains(s, "}") {
            hasNameSpace := true;
            namespaces := namespaces + [NamespaceEntry(s)];
          }
        } else if hasNameSpace && Contains(s, "{") && !Contains(s, "class") {
          numBraces := numBraces + 1;
        } else if hasNameSpace && Contains(s, "}") {
          if numBraces > 0 {
            numBraces := numBraces - 1;
          } else if !classStarted {
            if namespaces == [] {
              return Some(UnbalancedNamespace(path));
            }
            namespaces := namespaces[..|namespaces| - 1];
          }
        } else if hasNameSpace && Contains(s, "class") && !Contains(s, ";") {
          classStarted := true;
          abort := ClassDefinitionLine(path, basePass, s, namespaces);
          if abort.Some? {
            return;
          }
        }
        assert NamespaceStep(s, sc).0 == HeaderScan(namespaces, numBraces, hasNameSpace, classStarted);
        i := i + 1;
      }
    }

    /** `getNextSlotNum()` and `insert into slotTable values(nextSlot, slotName,
        classId)` (Parser.cpp:528-533). */
    method AllocateSlot(slotName: string, classId: int) returns (nextSlot: int)
      modifies this
      ensures nextSlot == old(numSlots)
      ensures State() == AddSlots(old(State()), [slotName], classId)
    {
      nextSlot := GetNextSlotNum();
      slots := slots + [SlotRow(nextSlot, slotName, classId)];
    }

    /** The quoted slot names of one slot-table line, each given the next slot id
        and the next 0-based key of `tempIdx` (Parser.cpp:521-538). */
    method AddLineSlots(s: string, classId: int, ghost base: int, startIdx: nat, tempIdx: map<int, int>)
      returns (startIdx': nat, tempIdx': map<int, int>)
      requires IsIndexMap(tempIdx, base, startIdx) && numSlots == base + startIdx
      modifies this
      ensures State() == AddSlots(old(State()), SlotNames(s), classId)
      ensures startIdx' == startIdx + |SlotNames(s)| && IsIndexMap(tempIdx', base, startIdx')
    {
      ghost var target := AddSlots(State(), SlotNames(s), classId);
      startIdx', tempIdx' := startIdx, tempIdx;
      var slotStart := IndexOf(s, "\"");
      var slotEnd := IndexOfFrom(s, "\"", slotStart + 1);
      ghost var todo := SlotNames(s);
      while slotStart != -1 && slotEnd > slotStart
        invariant -1 <= slotStart && slotEnd < |s|
        invariant todo == SlotNamesAt(s, slotStart, slotEnd)
        invariant AddSlots(State(), todo, classId) == target
        invariant startIdx' + |todo| == startIdx + |SlotNames(s)|
        invariant IsIndexMap(tempIdx', base, startIdx')
        invariant numSlots == base + startIdx'
        decreases if slotStart < 0 then 0 else |s| + 1 - slotStart
      {
        var slotName := Mid(s, slotStart + 1, (slotEnd - slotStart) - 1);
        var next := IndexOfFrom(s, "\"", slotEnd + 1);
        SlotNamesAtStep(s, slotStart, slotEnd);
        ghost var rest := SlotNamesAt(s, next, IndexOfFrom(s, "\"", next + 1));
        ghost var before := State();
        var nextSlot := AllocateSlot(slotName, classId);
        AddSlotsConcat(before, [slotName], rest, classId);
        IndexMapExtend(tempIdx', base, startIdx', nextSlot);
        tempIdx' := tempIdx'[startIdx' := nextSlot];
        startIdx' := startIdx' + 1;
        slotStart := next;
        slotEnd := IndexOfFrom(s, "\"", slotStart + 1);
        todo := rest;
      }
      AddNoSlots(State(), classId);
    }

    /** The lines of a slot table from `i0` up to its `END_SLOTTABLE(` line
        (Parser.cpp:515-546): returns the position of that line and the table's
        index map. */
    method ReadSlotTable(strings: seq<string>, i0: nat, classId: int) returns (i: nat, tempIdx: map<int, int>)
      requires i0 <= |strings|
      modifies this
      ensures i == TableEnd(strings, i0, "END_SLOTTABLE(")
      ensures State() == AddSlots(old(State()), TableNames(strings, i0, i), classId)
      ensures tempIdx == IndexMap(old(numSlots), |TableNames(strings, i0, i)|)
    {
      ghost var db0 := State();
      ghost var e := TableEnd(strings, i0, "END_SLOTTABLE(");
      ghost var base := numSlots;
      i := i0;
      var startIdx: nat := 0;
      tempIdx := map[];
      while i < |strings| && !Contains(strings[i], "END_SLOTTABLE(")
        invariant i0 <= i <= e <= |strings|
        invariant TableEnd(strings, i, "END_SLOTTABLE(") == e
        invariant AddSlots(State(), TableNames(strings, i, e), classId) == AddSlots(db0, TableNames(strings, i0, e), classId)
        invariant startIdx + |TableNames(strings, i, e)| == |TableNames(strings, i0, e)|
        invariant IsIndexMap(tempIdx, base, startIdx) && numSlots == base + startIdx
      {
        ghost var before := State();
        startIdx, tempIdx := AddLineSlots(strings[i], classId, base, startIdx, tempIdx);
        AddSlotsConcat(before, SlotNames(strings[i]), TableNames(strings, i + 1, e), classId);
        i := i + 1;
      }
      AddNoSlots(State(), classId);
      IndexMapUnique(base, startIdx, tempIdx);
    }

    /** One slot-map line, spaces removed, for the table at `idxPos`
        (Parser.cpp:572-653). */
    method SlotMapLine(path: string, s: string, namespaces: seq<string>, classNames: seq<string>,
                       tIdxToSlotId: seq<map<int, int>>, idxPos: int) returns (abort: Option<Failure>)
      requires -1 <= idxPos
      modifies this
      ensures Finish(State(), abort) == SlotMapEntry(path, s, SlotScan(namespaces, classNames, tIdxToSlotId), idxPos, old(State()))
    {
      abort := None;
      var slotId := EntrySlotNumber(s);
      if slotId > 0 && idxPos != -1 {
        if idxPos >= |tIdxToSlotId| {
          return Some(SlotMapIndexOutOfRange(path));
        }
        var actSlotId := MapValue(tIdxToSlotId[idxPos], slotId - 1);
        ghost var db0 := State();
        var val := ResolveSlotType(classes, namespaces, EntryTypeName(s));
        if val.Some? {
          slotObjs := slotObjs + [SlotObjRow(actSlotId, val.value)];
        }
        assert State() == LinkSlot(db0, actSlotId, val);
      }
    }

    /** The lines of a slot map from `i0` up to its `END_SLOT_MAP(` line
        (Parser.cpp:568-658). */
    method ReadSlotMap(path: string, strings: seq<string>, i0: nat, namespaces: seq<string>,
                       classNames: seq<string>, tIdxToSlotId: seq<map<int, int>>, idxPos: int)
      returns (i: nat, abort: Option<Failure>)
      requires i0 <= |strings| && -1 <= idxPos
      modifies this
      ensures abort.None? ==> i == TableEnd(strings, i0, "END_SLOT_MAP(")
      ensures Finish(State(), abort)
           == MapFrom(path, strings, i0, TableEnd(strings, i0, "END_SLOT_MAP("),
                      SlotScan(namespaces, classNames, tIdxToSlotId), idxPos, old(State()))
    {
      ghost var sc := SlotScan(namespaces, classNames, tIdxToSlotId);
      ghost var e := TableEnd(strings, i0, "END_SLOT_MAP(");
      ghost var spec := MapFrom(path, strings, i0, e, sc, idxPos, State());
      abort := None;
      i := i0;
      while i < |strings| && !Contains(strings[i], "END_SLOT_MAP(")
        invariant i0 <= i <= e <= |strings|
        invariant TableEnd(strings, i, "END_SLOT_MAP(") == e
        invariant MapFrom(path, strings, i, e, sc, idxPos, State()) == spec
        invariant abort.None?
      {
        var line := ReplaceAll(strings[i], " ", "");
        abort := SlotMapLine(path, line, namespaces, classNames, tIdxToSlotId, idxPos);
        if abort.Some? {
          return;
        }
        i := i + 1;
      }
    }

    /** The first position of `cbt` among the slot-table class names, or -1
        (Parser.cpp:556-563). */
    method FindClassPosition(classNames: seq<string>, cbt: string) returns (idxPos: int)
      ensures idxPos == FirstIndexOf(classNames, cbt)
    {
      var found := false;
      idxPos := -1;
      var x := 0;
      while x < |classNames| && !found
        invariant 0 <= x <= |classNames|
        invariant !found ==> idxPos == -1 && cbt !in classNames[..x]
        invariant found ==> idxPos == FirstIndexOf(classNames, cbt)
      {
        if cbt == classNames[x] {
          idxPos := x;
          found := true;
          assert classNames[..x + 1] == classNames[..x] + [cbt];
          assert FirstIndexOf(classNames, cbt) == x;
        }
        assert classNames[..x + 1] == classNames[..x] + [classNames[x]];
        x := x + 1;
      }
      assert classNames[..|classNames|] == classNames;
    }

    /** One turn of the main loop of buildSlotTable on line `i`, together with the
        lines a slot table or slot map consumes (Parser.cpp:470-660). */
    method SourceFileLine(path: string, strings: seq<string>, i: nat, namespaces: seq<string>,
                          classNames: seq<string>, tIdxToSlotId: seq<map<int, int>>)
      returns (next: nat, namespaces': seq<string>, classNames': seq<string>,
               tIdxToSlotId': seq<map<int, int>>, abort: Option<Failure>)
      requires i < |strings|
      modifies this
      ensures SlotStep(next, SlotScan(namespaces', classNames', tIdxToSlotId'), State(), abort)
           == SourceLine(path, strings, i, SlotScan(namespaces, classNames, tIdxToSlotId), old(State()))
    {
      next, namespaces', classNames', tIdxToSlotId', abort := i + 1, namespaces, classNames, tIdxToSlotId, None;
      var s := strings[i];
      if Contains(s, "namespace") && !Contains(s, "using") {
        namespaces' := [NamespaceName(s)] + namespaces;
      } else if Contains(s, "IMPLEMENT_") {
        var className := QualifyInnermostFirst(namespaces, ImplementClass(s));
        classes := SetFormName(classes, className, ImplementForm(s));
      } else if Contains(s, "BEGIN_SLOTTABLE(") {
        var cbt := MacroArgument(s);
        classNames' := classNames + [cbt];
        var qualified := QualifyInnermostFirst(namespaces, cbt);
        var classId := FindClassId(classes, qualified);
        if classId.Some? {
          var e, tempIdx := ReadSlotTable(strings, i + 1, classId.value);
          tIdxToSlotId' := tIdxToSlotId + [tempIdx];
          next := e + 1;
        }
      } else if Contains(s, "BEGIN_SLOT_MAP(") {
        var idxPos := FindClassPosition(classNames, MacroArgument(s));
        var e;
        e, abort := ReadSlotMap(path, strings, i + 1, namespaces, classNames, tIdxToSlotId, idxPos);
        next := TableEnd(strings, i + 1, "END_SLOT_MAP(") + 1;
      }
    }

    /** Parser::buildSlotTable (Parser.cpp:443-665) on one implementation file. */
    method BuildSlotTable(file: SourceFile) returns (abort: Option<Failure>)
      modifies this
      ensures Finish(State(), abort) == SlotTableSpec(file.path, file.lines, old(State()))
    {
      var stream := new LineStream(file.lines);
      var strings := RemoveComments(stream);
      var classNames: seq<string> := [];
      var tIdxToSlotId: seq<map<int, int>> := [];
      var namespaces: seq<string> := [];
      ghost var spec := SlotTableSpec(file.path, file.lines, State());
      abort := None;
      var i: nat := 0;
      while i < |strings|
        invariant SourceFrom(file.path, strings, i, SlotScan(namespaces, classNames, tIdxToSlotId), State()) == spec
        invariant abort.None?
        decreases |strings| - i
      {
        i, namespaces, classNames, tIdxToSlotId, abort :=
          SourceFileLine(file.path, strings, i, namespaces, classNames, tIdxToSlotId);
        if abort.Some? {
          return;
        }
      }
    }

    /** readDirectoriesForInclude (Parser.cpp:163-200) over the headers in the
        order the walk visits them. */
    method ReadHeaders(files: seq<SourceFile>, basePass: bool) returns (abort: Option<Failure>)
      modifies this
      ensures Finish(State(), abort) == HeaderPass(files, 0, basePass, old(State()))
    {
      ghost var spec := HeaderPass(files, 0, basePass, State());
      abort := None;
      var k := 0;
      while k < |files|
        invariant k <= |files| && abort.None?
        invariant HeaderPass(files, k, basePass, State()) == spec
      {
        abort := BuildClassTable(files[k], basePass);
        if abort.Some? {
          return;
        }
        k := k + 1;
      }
    }

    /** readDirectoriesForSource (Parser.cpp:127-160) over the implementation
        files in the order the walk visits them. */
    method ReadSources(files: seq<SourceFile>) returns (abort: Option<Failure>)
      modifies this
      ensures Finish(State(), abort) == SourcePass(files, 0, old(State()))
    {
      ghost var spec := SourcePass(files, 0, State());
      abort := None;
      var k := 0;
      while k < |files|
        invariant k <= |files| && abort.None?
        invariant SourcePass(files, k, State()) == spec
      {
        abort := BuildSlotTable(files[k]);
        if abort.Some? {
          return;
        }
        k := k + 1;
      }
    }

    /**
     * Parser::parse (Parser.cpp:32-125). On a database that is not open nothing
     * happens. Otherwise the tables are created or emptied, numClasses restarts at
     * 0 while numSlots keeps its value, and the two header passes and the source
     * pass run in turn until one of them fails.
     */
    method Parse(dbOpen: bool, headers: seq<SourceFile>, sources: seq<SourceFile>) returns (abort: Option<Failure>)
      modifies this
      ensures !dbOpen ==> State() == old(State()) && abort.None?
      ensures dbOpen ==> Finish(State(), abort) == ParseSpec(headers, sources, old(numSlots))
    {
      abort := None;
      if !dbOpen {
        return;
      }
      classes, slots, slotObjs := [], [], [];
      numClasses := 0;
      assert State() == EmptyStore(old(numSlots));
      abort := ReadHeaders(headers, false);
      if abort.Some? {
        return;
      }
      abort := ReadHeaders(headers, true);
      if abort.Some? {
        return;
      }
      abort := ReadSources(sources);
    }
  }
}
