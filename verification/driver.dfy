/**
 * One run of Parser::parse (Parser.cpp:32-125) as a function of the files it
 * visits: pass 1 over every header, pass 2 over every header, then every
 * implementation file, each in the order the directory walk meets them. A run
 * starts from empty tables and numClasses = 0 but keeps numSlots from the run
 * before; a failure in any file ends the run.
 */
module Driver {
  import opened QtString
  import opened Store
  import opened Comments
  import opened Headers
  import opened Sources

  /** A file handed to the parser: its path and its lines. The path is the full
      one the directory walk opens the file by: the directory's absolute path,
      `/`, then the file name (Parser.cpp:187-190). A file that cannot be opened
      reads as no lines. */
  datatype SourceFile = SourceFile(path: string, lines: seq<string>)

  /** readDirectoriesForInclude (Parser.cpp:163-200): buildClassTable on the
      headers from `k` on, stopping at the first failure. */
  function HeaderPass(files: seq<SourceFile>, k: nat, basePass: bool, db: Db): Finish
    decreases |files| - k
  {
    if k >= |files| then Finish(db, None)
    else
      var f := ClassTableSpec(files[k].path, files[k].lines, basePass, db);
      if f.abort.Some? then f else HeaderPass(files, k + 1, basePass, f.db)
  }

  /** readDirectoriesForSource (Parser.cpp:127-160): buildSlotTable on the
      implementation files from `k` on, stopping at the first failure. */
  function SourcePass(files: seq<SourceFile>, k: nat, db: Db): Finish
    decreases |files| - k
  {
    if k >= |files| then Finish(db, None)
    else
      var f := SlotTableSpec(files[k].path, files[k].lines, db);
      if f.abort.Some? then f else SourcePass(files, k + 1, f.db)
  }

  /** The tables a run starts from: cleared (or freshly created), numClasses
      reset, numSlots carried over. */
  function EmptyStore(numSlots: int): Db
  {
    Db([], [], [], 0, numSlots)
  }

  /** The whole run on an open database. */
  function ParseSpec(headers: seq<SourceFile>, sources: seq<SourceFile>, numSlots: int): Finish
  {
    var p1 := HeaderPass(headers, 0, false, EmptyStore(numSlots));
    if p1.abort.Some? then p1
    else
      var p2 := HeaderPass(headers, 0, true, p1.db);
      if p2.abort.Some? then p2
      else SourcePass(sources, 0, p2.db)
  }

  /** The names pass 1 registers in each header, header by header. */
  function HeaderNames(files: seq<SourceFile>): seq<seq<string>>
  {
    seq(|files|, i requires 0 <= i < |files| => HeaderClassNames(files[i].path, files[i].lines))
  }

  function HeaderPaths(files: seq<SourceFile>): seq<string>
  {
    seq(|files|, i requires 0 <= i < |files| => files[i].path)
  }

  /** The rows for the name lists from `k` on, numbered consecutively from `base`. */
  function RowsFrom(names: seq<seq<string>>, paths: seq<string>, k: nat, base: int): seq<ClassRow>
    requires |paths| == |names|
    decreases |names| - k
  {
    if k >= |names| then []
    else NewRows(names[k], base, paths[k]) + RowsFrom(names, paths, k + 1, base + |names[k]|)
  }

  /** The class rows pass 1 inserts for the headers from `k` on, ids from `base`. */
  function PassOneRows(files: seq<SourceFile>, k: nat, base: int): seq<ClassRow>
  {
    RowsFrom(HeaderNames(files), HeaderPaths(files), k, base)
  }

  lemma {:induction false} RowsFromStep(names: seq<seq<string>>, paths: seq<string>, k: nat, base: int, next: int)
    requires |paths| == |names| && k < |names| && next == base + |names[k]|
    ensures RowsFrom(names, paths, k, base) == NewRows(names[k], base, paths[k]) + RowsFrom(names, paths, k + 1, next)
  {
  }

  lemma {:induction false} AppendChain(db: Db, next: Db, rows: seq<ClassRow>, rest: seq<ClassRow>, all: seq<ClassRow>, after: seq<ClassRow>)
    requires next == AppendClasses(db, rows)
    requires after == next.classes + rest && all == rows + rest
    ensures after == db.classes + all
  {
  }

  // ---------------------------------------------------------------------------
  // Properties of a run.
  // ---------------------------------------------------------------------------

  /** Every header pass and every source pass keeps the store valid. */
  lemma {:induction false} HeaderPassKeepsValid(files: seq<SourceFile>, k: nat, basePass: bool, db: Db)
    requires Valid(db)
    ensures Valid(HeaderPass(files, k, basePass, db).db)
    decreases |files| - k
  {
    if k < |files| {
      var f := ClassTableSpec(files[k].path, files[k].lines, basePass, db);
      ClassTableKeepsValid(files[k].path, files[k].lines, basePass, db);
      if f.abort.None? {
        HeaderPassKeepsValid(files, k + 1, basePass, f.db);
      }
    }
  }

  lemma {:induction false} SourcePassKeepsValid(files: seq<SourceFile>, k: nat, db: Db)
    requires Valid(db)
    ensures Valid(SourcePass(files, k, db).db)
    decreases |files| - k
  {
    if k < |files| {
      var f := SlotTableSpec(files[k].path, files[k].lines, db);
      SlotTableKeepsValid(files[k].path, files[k].lines, db);
      if f.abort.None? {
        SourcePassKeepsValid(files, k + 1, f.db);
      }
    }
  }

  /** A run leaves a valid store, whatever the files and wherever it stops: class
      ids are row positions, base classes, slot parents and accepted types are
      stored classes, and slot ids increase below numSlots. */
  lemma ParseKeepsValid(headers: seq<SourceFile>, sources: seq<SourceFile>, numSlots: int)
    requires 0 <= numSlots
    ensures Valid(ParseSpec(headers, sources, numSlots).db)
  {
    var p1 := HeaderPass(headers, 0, false, EmptyStore(numSlots));
    HeaderPassKeepsValid(headers, 0, false, EmptyStore(numSlots));
    if p1.abort.None? {
      var p2 := HeaderPass(headers, 0, true, p1.db);
      HeaderPassKeepsValid(headers, 0, true, p1.db);
      if p2.abort.None? {
        SourcePassKeepsValid(sources, 0, p2.db);
      }
    }
  }

  /** Pass 1 over the headers from `k` on, when none of them fails, appends each
      header's rows to the class table in turn, with consecutive ids from
      numClasses. */
  lemma {:induction false} PassOneMatches(files: seq<SourceFile>, k: nat, db: Db)
    requires HeaderPass(files, k, false, db).abort.None?
    ensures HeaderPass(files, k, false, db).db.classes == db.classes + PassOneRows(files, k, db.numClasses)
    decreases |files| - k
  {
    if k < |files| {
      var f := ClassTableSpec(files[k].path, files[k].lines, false, db);
      assert HeaderPass(files, k, false, db) == HeaderPass(files, k + 1, false, f.db);
      ClassTablePass1(files[k].path, files[k].lines, db);
      PassOneMatches(files, k + 1, f.db);
      var names, paths := HeaderNames(files), HeaderPaths(files);
      assert names[k] == HeaderClassNames(files[k].path, files[k].lines) && paths[k] == files[k].path;
      RowsFromStep(names, paths, k, db.numClasses, f.db.numClasses);
      AppendChain(db, f.db, NewRows(names[k], db.numClasses, paths[k]), RowsFrom(names, paths, k + 1, f.db.numClasses),
                  RowsFrom(names, paths, k, db.numClasses), HeaderPass(files, k + 1, false, f.db).db.classes);
    } else {
      assert db.classes + [] == db.classes;
    }
  }

  /** Pass 1 leaves the slot tables and numSlots alone, and when it stops early
      the failure is an unbalanced `}`. */
  lemma {:induction false} PassOneKeepsSlots(files: seq<SourceFile>, k: nat, db: Db)
    ensures var f := HeaderPass(files, k, false, db);
      && f.db.slots == db.slots && f.db.slotObjs == db.slotObjs && f.db.numSlots == db.numSlots
      && (f.abort.None? || f.abort.value.UnbalancedNamespace?)
    decreases |files| - k
  {
    if k < |files| {
      var f := ClassTableSpec(files[k].path, files[k].lines, false, db);
      ClassTablePass1(files[k].path, files[k].lines, db);
      if f.abort.None? {
        PassOneKeepsSlots(files, k + 1, f.db);
      }
    }
  }

  /** Pass 2 over all headers only sets base classes, each to the id of a row
      pass 1 stored, and leaves the slot tables and both counters alone. */
  lemma {:induction false} PassTwoOnlySetsBases(files: seq<SourceFile>, k: nat, db: Db)
    ensures var f := HeaderPass(files, k, true, db);
      && f.db.slots == db.slots && f.db.slotObjs == db.slotObjs
      && f.db.numClasses == db.numClasses && f.db.numSlots == db.numSlots
      && BasesOnlyUpdated(db.classes, f.db.classes)
    decreases |files| - k
  {
    if k < |files| {
      var f := ClassTableSpec(files[k].path, files[k].lines, true, db);
      ClassTablePass2(files[k].path, files[k].lines, db);
      if f.abort.None? {
        PassTwoOnlySetsBases(files, k + 1, f.db);
        BasesOnlyUpdatedTrans(db.classes, f.db.classes, HeaderPass(files, k + 1, true, f.db).db.classes);
      }
    } else {
      assert BasesOnlyUpdated(db.classes, db.classes) by {
        forall m | 0 <= m < |db.classes| ensures SameButBase(db.classes[m], db.classes[m]) {}
      }
    }
  }

  /** Pass 2 walks the same lines with the same namespace tracking as pass 1, so
      once pass 1 got through a header, pass 2 never stops on an unbalanced `}`. */
  lemma {:induction false} PassTwoBalanced(path: string, L: seq<string>, i: nat, sc: HeaderScan, db1: Db, db2: Db)
    requires HeaderFrom(path, false, L, i, sc, db1).abort.None?
    ensures HeaderFrom(path, true, L, i, sc, db2).abort.None?
            || HeaderFrom(path, true, L, i, sc, db2).abort.value.NamespaceIndexOutOfRange?
    decreases |L| - i
  {
    if i < |L| {
      var (sc', a) := NamespaceStep(L[i], sc);
      match a
      case NoAction =>
        PassTwoBalanced(path, L, i + 1, sc', db1, db2);
      case Unbalanced =>
        assert false;
      case ClassDefinition =>
        var f1 := ClassLine(path, false, L[i], sc.namespaces, db1);
        var f2 := ClassLine(path, true, L[i], sc.namespaces, db2);
        if f2.abort.None? {
          PassTwoBalanced(path, L, i + 1, sc', f1.db, f2.db);
        }
    }
  }

  lemma {:induction false} HeaderPassesBalanced(files: seq<SourceFile>, k: nat, db1: Db, db2: Db)
    requires HeaderPass(files, k, false, db1).abort.None?
    ensures HeaderPass(files, k, true, db2).abort.None? || HeaderPass(files, k, true, db2).abort.value.NamespaceIndexOutOfRange?
    decreases |files| - k
  {
    if k < |files| {
      var path, lines := files[k].path, files[k].lines;
      var f1 := ClassTableSpec(path, lines, false, db1);
      var f2 := ClassTableSpec(path, lines, true, db2);
      if CountChar(path, '.') <= 1 && HasClassDefinition(StripComments(lines)) {
        PassTwoBalanced(path, StripComments(lines), 0, InitialScan, db1, db2);
      }
      if f2.abort.None? {
        HeaderPassesBalanced(files, k + 1, f1.db, f2.db);
      }
    }
  }

  /** The source pass changes class rows only in their form names, adds slot rows
      with ids consecutive from numSlots and slot-object rows that name stored
      classes. */
  lemma {:induction false} SourcePassEffect(files: seq<SourceFile>, k: nat, db: Db)
    requires 0 <= db.numSlots
    ensures SourceEffect(db, SourcePass(files, k, db).db)
    decreases |files| - k
  {
    if k < |files| {
      var f := SlotTableSpec(files[k].path, files[k].lines, db);
      SourceFromEffect(files[k].path, StripComments(files[k].lines), 0, InitialSlotScan, db);
      if f.abort.None? {
        SourcePassEffect(files, k + 1, f.db);
        SourceEffectTrans(db, f.db, SourcePass(files, k + 1, f.db).db);
      }
    } else {
      SourceEffectRefl(db);
    }
  }

  /**
   * numSlots is never reset (only numClasses is, Parser.cpp:72): the slot rows of
   * a run carry the ids numSlots, numSlots + 1, ... in the order they were read,
   * and the counter ends one past the last of them.
   */
  lemma SlotIdsContinueCount(headers: seq<SourceFile>, sources: seq<SourceFile>, numSlots: int)
    requires 0 <= numSlots
    ensures var db := ParseSpec(headers, sources, numSlots).db;
      && db.numSlots == numSlots + |db.slots|
      && forall k :: 0 <= k < |db.slots| ==> db.slots[k].slotId == numSlots + k
  {
    var p1 := HeaderPass(headers, 0, false, EmptyStore(numSlots));
    PassOneKeepsSlots(headers, 0, EmptyStore(numSlots));
    if p1.abort.None? {
      var p2 := HeaderPass(headers, 0, true, p1.db);
      PassTwoOnlySetsBases(headers, 0, p1.db);
      if p2.abort.None? {
        var db := SourcePass(sources, 0, p2.db).db;
        SourcePassEffect(sources, 0, p2.db);
        assert p2.db.slots == [];
        assert db.slots[|p2.db.slots|..] == db.slots;
      }
    }
  }

  /** A run that ends normally has stored exactly the pass-1 rows of the headers,
      with ids 0, 1, ... and the file each came from; later passes only fill in
      base classes and form names. */
  lemma ParseClassRows(headers: seq<SourceFile>, sources: seq<SourceFile>, numSlots: int)
    requires 0 <= numSlots
    requires ParseSpec(headers, sources, numSlots).abort.None?
    ensures var db := ParseSpec(headers, sources, numSlots).db;
      var rows := PassOneRows(headers, 0, 0);
      && |db.classes| == |rows| == db.numClasses
      && forall k :: 0 <= k < |rows| ==>
           && db.classes[k].id == rows[k].id == k
           && db.classes[k].className == rows[k].className
           && db.classes[k].fileName == rows[k].fileName
  {
    var start := EmptyStore(numSlots);
    var p1 := HeaderPass(headers, 0, false, start);
    assert p1.abort.None?;
    PassOneMatches(headers, 0, start);
    var rows := p1.db.classes;
    HeaderPassKeepsValid(headers, 0, false, start);
    var p2 := HeaderPass(headers, 0, true, p1.db);
    assert p2.abort.None?;
    PassTwoOnlySetsBases(headers, 0, p1.db);
    var db := SourcePass(sources, 0, p2.db).db;
    assert db == ParseSpec(headers, sources, numSlots).db;
    SourcePassEffect(sources, 0, p2.db);
    assert FormsOnlyUpdated(p2.db.classes, db.classes);
    forall k | 0 <= k < |rows|
      ensures db.classes[k].id == rows[k].id == k
      ensures db.classes[k].className == rows[k].className && db.classes[k].fileName == rows[k].fileName
    {
      assert SameButBase(rows[k], p2.db.classes[k]);
      assert SameButForm(p2.db.classes[k], db.classes[k]);
    }
  }

  /** A run never stops on an unbalanced `}` in pass 2: that header already ended
      the run in pass 1. */
  lemma ParseFailures(headers: seq<SourceFile>, sources: seq<SourceFile>, numSlots: int)
    ensures var r := ParseSpec(headers, sources, numSlots);
      r.abort.Some? && r.abort.value.UnbalancedNamespace? ==> r == HeaderPass(headers, 0, false, EmptyStore(numSlots))
  {
    var p1 := HeaderPass(headers, 0, false, EmptyStore(numSlots));
    if p1.abort.None? {
      var p2 := HeaderPass(headers, 0, true, p1.db);
      HeaderPassesBalanced(headers, 0, EmptyStore(numSlots), p1.db);
      if p2.abort.None? {
        SourcePassNeverUnbalanced(sources, 0, p2.db);
      }
    }
  }

  /** The source pass stops only on a misaligned slot map. */
  lemma {:induction false} SourcePassNeverUnbalanced(files: seq<SourceFile>, k: nat, db: Db)
    ensures SourcePass(files, k, db).abort.None? || SourcePass(files, k, db).abort.value.SlotMapIndexOutOfRange?
    decreases |files| - k
  {
    if k < |files| {
      var f := SlotTableSpec(files[k].path, files[k].lines, db);
      SlotTableFailure(files[k].path, files[k].lines, db);
      if f.abort.None? {
        SourcePassNeverUnbalanced(files, k + 1, f.db);
      }
    }
  }
}
