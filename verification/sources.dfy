/**
 * Parser::buildSlotTable (Parser.cpp:443-665) on one implementation file, as
 * functions of the file's lines and the store: namespaces met (kept innermost
 * first, never closed), `IMPLEMENT_` lines that set form names,
 * `BEGIN_SLOTTABLE(C)` ... `END_SLOTTABLE` blocks that allocate slot rows, and
 * `BEGIN_SLOT_MAP(C)` ... `END_SLOT_MAP` blocks whose entries become slot-object
 * rows.
 */
module Sources {
  import opened QtString
  import opened Store
  import opened Resolution
  import opened Comments

  /**
   * The local lists of buildSlotTable: the namespaces, innermost first; the
   * class names of the slot tables met so far (Parser.cpp:506, one per table);
   * and the index maps of the tables whose class was found (Parser.cpp:546), map
   * key k holding the slot id of the table's (k+1)-th slot.
   */
  datatype SlotScan = SlotScan(
    namespaces: seq<string>,
    classNames: seq<string>,
    maps: seq<map<int, int>>)

  const InitialSlotScan: SlotScan := SlotScan([], [], [])

  /** The text between `namespace` and the character before `{`, without spaces
      (Parser.cpp:473-479). */
  function NamespaceName(s: string): string
  {
    var idx := IndexOf(s, "namespace") + 9;
    var fIndex := IndexOf(s, "{");
    ReplaceAll(Mid(s, idx, (fIndex - idx) - 1), " ", "") + "::"
  }

  /** The text between the first `(` and the next `)` (Parser.cpp:502-504, 552-554). */
  function MacroArgument(s: string): string
  {
    var startIdx := IndexOf(s, "(");
    var endIdx := IndexOfFrom(s, ")", startIdx + 1);
    Mid(s, startIdx + 1, (endIdx - startIdx) - 1)
  }

  /** The class of an `IMPLEMENT_` line: between the first `(` and the first `,`
      (Parser.cpp:484-486). */
  function ImplementClass(s: string): string
  {
    var startJ := IndexOf(s, "(");
    var lastJ := IndexOf(s, ",");
    Mid(s, startJ + 1, (lastJ - startJ) - 1)
  }

  /** The form name of an `IMPLEMENT_` line: between its first two quotes
      (Parser.cpp:492-494). */
  function ImplementForm(s: string): string
  {
    var startJ := IndexOf(s, "\"");
    var lastJ := IndexOfFrom(s, "\"", startJ + 1);
    Mid(s, startJ + 1, (lastJ - startJ) - 1)
  }

  /** The quoted strings of a slot-table line from the quote pair at `slotStart`
      and `slotEnd` on, left to right (Parser.cpp:521-538). */
  function SlotNamesAt(s: string, slotStart: int, slotEnd: int): seq<string>
    requires -1 <= slotStart && slotEnd < |s|
    decreases if slotStart < 0 then 0 else |s| + 1 - slotStart
  {
    if slotStart != -1 && slotEnd > slotStart then
      var next := IndexOfFrom(s, "\"", slotEnd + 1);
      [Mid(s, slotStart + 1, (slotEnd - slotStart) - 1)] + SlotNamesAt(s, next, IndexOfFrom(s, "\"", next + 1))
    else []
  }

  /** The quoted strings of a slot-table line, left to right. */
  function SlotNames(s: string): seq<string>
  {
    var slotStart := IndexOf(s, "\"");
    SlotNamesAt(s, slotStart, IndexOfFrom(s, "\"", slotStart + 1))
  }

  /** The first line from `i` on that holds `marker`, or |L| (Parser.cpp:520, 570). */
  function TableEnd(L: seq<string>, i: nat, marker: string): (e: nat)
    ensures i <= e
    ensures i <= |L| ==> e <= |L|
    decreases |L| - i
  {
    if i >= |L| || Contains(L[i], marker) then i else TableEnd(L, i + 1, marker)
  }

  /** The slot names of lines `i .. e-1`, top to bottom. */
  function TableNames(L: seq<string>, i: nat, e: nat): seq<string>
    requires i <= e <= |L|
    decreases e - i
  {
    if i == e then [] else SlotNames(L[i]) + TableNames(L, i + 1, e)
  }

  /** One `insert into slotTable` per name, with the next slot ids. */
  function AddSlots(db: Db, names: seq<string>, parent: int): Db
  {
    db.(slots := db.slots + seq(|names|, k requires 0 <= k < |names| => SlotRow(db.numSlots + k, names[k], parent)),
        numSlots := db.numSlots + |names|)
  }

  /** `tempIdx` after a table of `n` slots numbered from `base`: one insert per
      slot (Parser.cpp:530). */
  function IndexMap(base: int, n: nat): map<int, int>
  {
    if n == 0 then map[] else IndexMap(base, n - 1)[n - 1 := base + (n - 1)]
  }

  /** `m` has the keys 0 .. n-1, key k holding base + k. */
  ghost predicate IsIndexMap(m: map<int, int>, base: int, n: nat)
  {
    && (forall k :: k in m <==> 0 <= k < n)
    && (forall k :: 0 <= k < n ==> m[k] == base + k)
  }

  /** Recording the next slot under the next key keeps the shape. */
  lemma IndexMapExtend(m: map<int, int>, base: int, n: nat, v: int)
    requires IsIndexMap(m, base, n) && v == base + n
    ensures IsIndexMap(m[n := v], base, n + 1)
  {
  }

  /** IndexMap(base, n) is the one map with that shape. */
  lemma IndexMapUnique(base: int, n: nat, m: map<int, int>)
    ensures IsIndexMap(m, base, n) <==> m == IndexMap(base, n)
  {
    IndexMapContents(base, n);
    if IsIndexMap(m, base, n) {
      var im := IndexMap(base, n);
      assert forall k :: k in m <==> k in im;
      assert forall k :: k in m ==> m[k] == im[k];
    }
  }

  /** QMap::value(key): 0 for a missing key. */
  function MapValue(m: map<int, int>, key: int): int
  {
    if key in m then m[key] else 0
  }

  /** The first position of `c` in `names`, or -1 (Parser.cpp:556-563). */
  function FirstIndexOf(names: seq<string>, c: string): (r: int)
    ensures r == -1 <==> c !in names
    ensures r != -1 ==> 0 <= r < |names| && names[r] == c && c !in names[..r]
  {
    if names == [] then -1
    else if names[0] == c then 0
    else
      var r := FirstIndexOf(names[1..], c);
      assert names[1..][..(if r == -1 then 0 else r)] == names[1..(if r == -1 then 1 else r + 1)];
      if r == -1 then -1 else r + 1
  }

  /** The slot number of a slot-map line, spaces already removed: the integer
      between the first `(` and the next `,`, or 0 without a `(...)` pair
      (Parser.cpp:574-582). */
  function EntrySlotNumber(s: string): int
  {
    var slotStart := IndexOf(s, "(");
    var slotEnd := IndexOfFrom(s, ")", slotStart + 1);
    if slotStart != -1 && slotEnd > slotStart then
      var comma := IndexOfFrom(s, ",", slotStart + 1);
      ToInt(Mid(s, slotStart + 1, (comma - slotStart) - 1))
    else 0
  }

  /** The accepted type of a slot-map line: between the second `,` and the next
      `)` (Parser.cpp:582-585). */
  function EntryTypeName(s: string): string
  {
    var slotStart := IndexOf(s, "(");
    var comma := IndexOfFrom(s, ",", slotStart + 1);
    var typeStart := IndexOfFrom(s, ",", comma + 1);
    var typeEnd := IndexOfFrom(s, ")", typeStart + 1);
    Mid(s, typeStart + 1, (typeEnd - typeStart) - 1)
  }

  /** `insert into slotObjTable` when the accepted type resolved. */
  function LinkSlot(db: Db, actSlotId: int, accepted: Option<int>): Db
  {
    match accepted
    case None => db
    case Some(v) => db.(slotObjs := db.slotObjs + [SlotObjRow(actSlotId, v)])
  }

  /** One slot-map line, spaces already removed, for the table at `idxPos`
      (Parser.cpp:572-653). */
  function SlotMapEntry(path: string, s: string, sc: SlotScan, idxPos: int, db: Db): Finish
    requires -1 <= idxPos
  {
    var slotId := EntrySlotNumber(s);
    if slotId > 0 && idxPos != -1 then
      if idxPos >= |sc.maps| then Finish(db, Some(SlotMapIndexOutOfRange(path)))
      else
        var actSlotId := MapValue(sc.maps[idxPos], slotId - 1);
        Finish(LinkSlot(db, actSlotId, SlotTypeLookup(db.classes, sc.namespaces, EntryTypeName(s))), None)
    else Finish(db, None)
  }

  /** The slot-map lines `j .. e-1` (Parser.cpp:570-657). */
  function MapFrom(path: string, L: seq<string>, j: nat, e: nat, sc: SlotScan, idxPos: int, db: Db): Finish
    requires j <= e <= |L| && -1 <= idxPos
    decreases e - j
  {
    if j == e then Finish(db, None)
    else
      var f := SlotMapEntry(path, ReplaceAll(L[j], " ", ""), sc, idxPos, db);
      if f.abort.Some? then f else MapFrom(path, L, j + 1, e, sc, idxPos, f.db)
  }

  /** Where one turn of the main loop leaves the scan: the next line to look at,
      the lists, the store, and the failure that ends the file, if any. */
  datatype SlotStep = SlotStep(next: nat, sc: SlotScan, db: Db, abort: Option<Failure>)

  /** One turn of the main loop of buildSlotTable on line `i`, including the
      lines a slot table or slot map consumes (Parser.cpp:470-660). */
  function SourceLine(path: string, L: seq<string>, i: nat, sc: SlotScan, db: Db): (r: SlotStep)
    requires i < |L|
    ensures r.next > i
  {
    var s := L[i];
    if Contains(s, "namespace") && !Contains(s, "using") then
      SlotStep(i + 1, sc.(namespaces := [NamespaceName(s)] + sc.namespaces), db, None)
    else if Contains(s, "IMPLEMENT_") then
      var className := JoinRev(sc.namespaces) + ImplementClass(s);
      SlotStep(i + 1, sc, db.(classes := SetFormName(db.classes, className, ImplementForm(s))), None)
    else if Contains(s, "BEGIN_SLOTTABLE(") then
      var cbt := MacroArgument(s);
      var sc1 := sc.(classNames := sc.classNames + [cbt]);
      match FindClassId(db.classes, JoinRev(sc.namespaces) + cbt)
      case None => SlotStep(i + 1, sc1, db, None)
      case Some(classId) =>
        var e := TableEnd(L, i + 1, "END_SLOTTABLE(");
        var names := TableNames(L, i + 1, e);
        SlotStep(e + 1, sc1.(maps := sc.maps + [IndexMap(db.numSlots, |names|)]), AddSlots(db, names, classId), None)
    else if Contains(s, "BEGIN_SLOT_MAP(") then
      var idxPos := FirstIndexOf(sc.classNames, MacroArgument(s));
      var e := TableEnd(L, i + 1, "END_SLOT_MAP(");
      var f := MapFrom(path, L, i + 1, e, sc, idxPos, db);
      SlotStep(e + 1, sc, f.db, f.abort)
    else SlotStep(i + 1, sc, db, None)
  }

  /** The main loop of buildSlotTable from line `i` on (Parser.cpp:469-661). */
  function SourceFrom(path: string, L: seq<string>, i: nat, sc: SlotScan, db: Db): Finish
    decreases |L| - i
  {
    if i >= |L| then Finish(db, None)
    else
      var st := SourceLine(path, L, i, sc, db);
      if st.abort.Some? then Finish(st.db, st.abort) else SourceFrom(path, L, st.next, st.sc, st.db)
  }

  /** buildSlotTable on the source file `path` with lines `lines`. */
  function SlotTableSpec(path: string, lines: seq<string>, db: Db): Finish
  {
    SourceFrom(path, StripComments(lines), 0, InitialSlotScan, db)
  }

  // ---------------------------------------------------------------------------
  // Properties.
  // ---------------------------------------------------------------------------

  /** Map entry `(k, _, T)` refers to the k-th slot of its table, or to slot id 0
      when the table has fewer than k slots (QMap::value's default). */
  lemma SlotMapKeyLinksDeclaredSlot(base: int, n: nat, k: int)
    requires k > 0
    ensures MapValue(IndexMap(base, n), k - 1) == if k <= n then base + (k - 1) else 0
  {
    IndexMapContents(base, n);
  }

  /** The keys of a table's index map are 0 .. n-1 and key k holds slot id base + k. */
  lemma {:induction false} IndexMapContents(base: int, n: nat)
    ensures forall k :: k in IndexMap(base, n) <==> 0 <= k < n
    ensures forall k :: 0 <= k < n ==> IndexMap(base, n)[k] == base + k
  {
    if n > 0 {
      IndexMapContents(base, n - 1);
    }
  }

  /** Allocating the slots of two lists in turn is allocating those of the two
      lists joined: ids stay consecutive across the lines of a table. */
  lemma AddSlotsConcat(db: Db, a: seq<string>, b: seq<string>, parent: int)
    ensures AddSlots(AddSlots(db, a, parent), b, parent) == AddSlots(db, a + b, parent)
  {
    var x := AddSlots(AddSlots(db, a, parent), b, parent).slots;
    var y := AddSlots(db, a + b, parent).slots;
    assert |x| == |y|;
    forall k | 0 <= k < |x|
      ensures x[k] == y[k]
    {
      if k >= |db.slots| + |a| {
        assert (a + b)[k - |db.slots|] == b[k - |db.slots| - |a|];
      } else if k >= |db.slots| {
        assert (a + b)[k - |db.slots|] == a[k - |db.slots|];
      }
    }
  }

  lemma AddNoSlots(db: Db, parent: int)
    ensures AddSlots(db, [], parent) == db
  {
    assert db.slots + [] == db.slots;
  }

  /** A slot name is the text strictly between two consecutive quotes, so it never
      holds a quote itself. */
  lemma SlotNamesHaveNoQuotes(s: string)
    ensures NoQuotes(SlotNames(s))
  {
    var slotStart := IndexOf(s, "\"");
    SlotNamesAtHaveNoQuotes(s, slotStart);
  }

  lemma {:induction false} SlotNamesAtHaveNoQuotes(s: string, slotStart: int)
    requires -1 <= slotStart < |s|
    ensures NoQuotes(SlotNamesAt(s, slotStart, IndexOfFrom(s, "\"", slotStart + 1)))
    decreases if slotStart < 0 then 0 else |s| + 1 - slotStart
  {
    var slotEnd := IndexOfFrom(s, "\"", slotStart + 1);
    if slotStart != -1 && slotEnd > slotStart {
      var next := IndexOfFrom(s, "\"", slotEnd + 1);
      SlotNamesAtHaveNoQuotes(s, next);
      QuoteFreeBetween(s, slotStart, slotEnd);
      SlotNamesAtStep(s, slotStart, slotEnd);
      NoQuotesCons(Mid(s, slotStart + 1, (slotEnd - slotStart) - 1), SlotNamesAt(s, next, IndexOfFrom(s, "\"", next + 1)));
    }
  }

  /** The positions of the quotes of `s` from `i` on, left to right. */
  function QuotesFrom(s: string, i: nat): seq<nat>
    decreases |s| - i
  {
    if i >= |s| then []
    else if s[i] == '"' then [i] + QuotesFrom(s, i + 1)
    else QuotesFrom(s, i + 1)
  }

  /** `QuotesFrom` lists every quote from `i` on, and nothing else, in
      increasing order. */
  lemma {:induction false} QuotesFromExact(s: string, i: nat)
    ensures forall k :: 0 <= k < |QuotesFrom(s, i)| ==> i <= QuotesFrom(s, i)[k] < |s| && s[QuotesFrom(s, i)[k]] == '"'
    ensures forall k, l :: 0 <= k < l < |QuotesFrom(s, i)| ==> QuotesFrom(s, i)[k] < QuotesFrom(s, i)[l]
    ensures forall j :: i <= j < |s| && s[j] == '"' ==> j in QuotesFrom(s, i)
    decreases |s| - i
  {
    if i < |s| {
      QuotesFromExact(s, i + 1);
    }
  }

  /** The text between the first two positions of `q`, then between the next
      two, and so on; an unpaired last position contributes nothing. */
  function QuotedPairs(s: string, q: seq<nat>): seq<string>
    decreases |q|
  {
    if |q| < 2 then [] else [Mid(s, q[0] + 1, (q[1] as int - q[0]) - 1)] + QuotedPairs(s, q[2..])
  }

  /** The texts between the 1st and 2nd quote of a line, the 3rd and 4th, and
      so on. */
  function QuotedTexts(s: string): seq<string>
  {
    QuotedPairs(s, QuotesFrom(s, 0))
  }

  /** For increasing positions inside `s`, pair k is the slice strictly between
      positions 2k and 2k+1. */
  lemma {:induction false} QuotedPairsIndexed(s: string, q: seq<nat>)
    requires forall k :: 0 <= k < |q| ==> q[k] < |s|
    requires forall k, l :: 0 <= k < l < |q| ==> q[k] < q[l]
    ensures |QuotedPairs(s, q)| == |q| / 2
    ensures forall k :: 0 <= k < |q| / 2 ==> QuotedPairs(s, q)[k] == s[q[2 * k] + 1..q[2 * k + 1]]
    decreases |q|
  {
    if |q| >= 2 {
      var rest := q[2..];
      QuotedPairsIndexed(s, rest);
      var name := Mid(s, q[0] + 1, (q[1] as int - q[0]) - 1);
      assert name == s[q[0] + 1..q[1]];
      assert QuotedPairs(s, q) == [name] + QuotedPairs(s, rest);
      forall k | 1 <= k < |q| / 2
        ensures QuotedPairs(s, q)[k] == s[q[2 * k] + 1..q[2 * k + 1]]
      {
        assert QuotedPairs(s, q)[k] == QuotedPairs(s, rest)[k - 1];
        assert rest[2 * (k - 1)] == q[2 * k] && rest[2 * (k - 1) + 1] == q[2 * k + 1];
      }
    }
  }

  /** The search for a quote from `from` finds the first listed quote position. */
  lemma {:induction false} NextQuote(s: string, from: nat)
    ensures IndexOfFrom(s, "\"", from) == if QuotesFrom(s, from) == [] then -1 else QuotesFrom(s, from)[0]
    decreases |s| - from
  {
    if from < |s| {
      CharOccursAt(s, '"', from);
      if s[from] != '"' {
        NextQuote(s, from + 1);
      }
    }
  }

  /** The quotes from `i` on are the first of them followed by those after it. */
  lemma {:induction false} QuotesFromHead(s: string, i: nat)
    requires QuotesFrom(s, i) != []
    ensures QuotesFrom(s, i)[0] < |s| && s[QuotesFrom(s, i)[0]] == '"'
    ensures QuotesFrom(s, i) == [QuotesFrom(s, i)[0]] + QuotesFrom(s, QuotesFrom(s, i)[0] + 1)
    decreases |s| - i
  {
    if s[i] != '"' {
      QuotesFromHead(s, i + 1);
    }
  }

  /** The quotes from `i` on start at the one the search from `i` finds. */
  lemma {:induction false} QuotesFromFound(s: string, i: nat, nx: int)
    requires nx == IndexOfFrom(s, "\"", i)
    ensures nx == -1 ==> QuotesFrom(s, i) == []
    ensures nx != -1 ==> 0 <= nx < |s| && s[nx] == '"' && QuotesFrom(s, i) == [nx] + QuotesFrom(s, nx + 1)
  {
    NextQuote(s, i);
    if nx != -1 {
      QuotesFromHead(s, i);
    }
  }

  /** The quote loop from an opening quote at `st` (none when `st` is -1). */
  function SlotNamesOpen(s: string, st: int): seq<string>
    requires -1 <= st < |s|
  {
    SlotNamesAt(s, st, IndexOfFrom(s, "\"", st + 1))
  }

  /** The quote loop started by a search for a quote from `from` on. */
  function SlotNamesAfter(s: string, from: nat): seq<string>
  {
    SlotNamesOpen(s, IndexOfFrom(s, "\"", from))
  }

  /** Searching from `from` on, the quote loop reads the quoted pairs of the
      quotes from `from` on. */
  lemma {:induction false} SlotNamesFrom(s: string, from: nat)
    ensures SlotNamesAfter(s, from) == QuotedPairs(s, QuotesFrom(s, from))
    decreases |s| + 1 - from, 1
  {
    var st := IndexOfFrom(s, "\"", from);
    QuotesFromFound(s, from, st);
    if st != -1 {
      SlotNamesFromQuote(s, st);
    } else {
      assert SlotNamesOpen(s, st) == [];
    }
  }

  /** From an opening quote at `st`, the quote loop reads the quoted pairs of
      that quote and those after it. */
  lemma {:induction false} SlotNamesFromQuote(s: string, st: nat)
    requires st < |s|
    ensures SlotNamesOpen(s, st) == QuotedPairs(s, [st] + QuotesFrom(s, st + 1))
    decreases |s| + 1 - st, 0
  {
    var en := IndexOfFrom(s, "\"", st + 1);
    QuotesFromFound(s, st + 1, en);
    if en != -1 {
      SlotNamesFrom(s, en + 1);
      PairStep(s, st, en, QuotesFrom(s, en + 1));
    } else {
      assert QuotedPairs(s, [st] + QuotesFrom(s, st + 1)) == [];
    }
  }

  /** One turn of the quote loop reads one quoted pair. */
  lemma PairStep(s: string, st: nat, en: int, rest: seq<nat>)
    requires st < en < |s|
    requires SlotNamesAfter(s, en + 1) == QuotedPairs(s, rest)
    ensures SlotNamesAt(s, st, en) == QuotedPairs(s, [st] + ([en] + rest))
  {
    LoopTurn(s, st, en);
    PairsCons(s, st, en, rest);
  }

  /** A turn of the quote loop takes the text between its two quotes and
      searches on after the closing one. */
  lemma LoopTurn(s: string, st: nat, en: int)
    requires st < en < |s|
    ensures SlotNamesAt(s, st, en) == [Mid(s, st + 1, (en - st) - 1)] + SlotNamesAfter(s, en + 1)
  {
  }

  /** Two positions taken off the front of the list give its first pair. */
  lemma PairsCons(s: string, st: nat, en: nat, rest: seq<nat>)
    ensures QuotedPairs(s, [st] + ([en] + rest)) == [Mid(s, st + 1, (en - st) - 1)] + QuotedPairs(s, rest)
  {
    var q := [st] + ([en] + rest);
    assert q[0] == st && q[1] == en && q[2..] == rest;
  }

  /** The slot names of a line are the texts between its 1st and 2nd quote,
      its 3rd and 4th, and so on, left to right (Parser.cpp:527-541). */
  lemma SlotNamesAreQuotedTexts(s: string)
    ensures SlotNames(s) == QuotedTexts(s)
  {
    SlotNamesFrom(s, 0);
  }

  /** Slot name k of a line is the text strictly between its quote 2k and its
      quote 2k+1, counting from 0; a line with n quotes has n / 2 slot names. */
  lemma SlotNameIsQuotedText(s: string)
    ensures |SlotNames(s)| == |QuotesFrom(s, 0)| / 2
    ensures forall k :: 0 <= k < |QuotesFrom(s, 0)| / 2 ==>
      QuotesFrom(s, 0)[2 * k] < QuotesFrom(s, 0)[2 * k + 1] < |s|
      && SlotNames(s)[k] == s[QuotesFrom(s, 0)[2 * k] + 1..QuotesFrom(s, 0)[2 * k + 1]]
  {
    SlotNamesAreQuotedTexts(s);
    QuotesFromExact(s, 0);
    QuotedPairsIndexed(s, QuotesFrom(s, 0));
  }

  /** A line with no quote declares no slot. */
  lemma NoQuoteNoSlots(s: string)
    requires '"' !in s
    ensures SlotNames(s) == []
  {
    assert s[0..] == s;
    NoCharFound(s, '"', 0);
  }

  /** A line with a single quote declares no slot. */
  lemma OneQuoteNoSlots(pre: string, post: string)
    requires '"' !in pre && '"' !in post
    ensures SlotNames(pre + "\"" + post) == []
  {
    var s := pre + "\"" + post;
    assert pre[0..] == pre;
    FirstCharAfter(pre, '"', post, 0);
    assert s[|pre| + 1..] == post;
    NoCharFound(s, '"', |pre| + 1);
  }

  /** No name in `names` holds a quote. */
  predicate NoQuotes(names: seq<string>)
  {
    forall n :: n in names ==> '"' !in n
  }

  lemma NoQuotesCons(name: string, rest: seq<string>)
    requires '"' !in name && NoQuotes(rest)
    ensures NoQuotes([name] + rest)
  {
  }

  lemma SlotNamesAtStep(s: string, slotStart: int, slotEnd: int)
    requires 0 <= slotStart < slotEnd < |s|
    ensures SlotNamesAt(s, slotStart, slotEnd)
      == [Mid(s, slotStart + 1, (slotEnd - slotStart) - 1)]
         + SlotNamesAt(s, IndexOfFrom(s, "\"", slotEnd + 1), IndexOfFrom(s, "\"", IndexOfFrom(s, "\"", slotEnd + 1) + 1))
  {
  }

  /** The text strictly between a quote and the next one holds no quote. */
  lemma QuoteFreeBetween(s: string, slotStart: nat, slotEnd: int)
    requires slotStart < slotEnd < |s| && slotEnd == IndexOfFrom(s, "\"", slotStart + 1)
    ensures '"' !in Mid(s, slotStart + 1, (slotEnd - slotStart) - 1)
  {
    var name := Mid(s, slotStart + 1, (slotEnd - slotStart) - 1);
    assert name == s[slotStart + 1..slotEnd];
    forall c | 0 <= c < |name|
      ensures name[c] != '"'
    {
      var q := slotStart + 1 + c;
      assert !OccursAt(s, "\"", q);
      assert s[q..q + 1] == [s[q]];
    }
  }

  /** What a source file may do to the class rows: only form names change. */
  predicate FormsOnlyUpdated(before: seq<ClassRow>, after: seq<ClassRow>)
  {
    |after| == |before| && forall k :: 0 <= k < |before| ==> SameButForm(before[k], after[k])
  }

  /** The new slot rows a source file adds: ids consecutive from `base`, each
      belonging to a stored class. */
  predicate FreshSlots(classes: seq<ClassRow>, extra: seq<SlotRow>, base: int)
  {
    forall k :: 0 <= k < |extra| ==> extra[k].slotId == base + k && HasId(classes, extra[k].parentId)
  }

  /** What every slot-object row added by a file holds: an accepted class that is
      stored, and a slot id that was allocated or is 0. */
  predicate FreshSlotObjs(classes: seq<ClassRow>, extra: seq<SlotObjRow>, numSlots: int)
  {
    forall k :: 0 <= k < |extra| ==>
      HasId(classes, extra[k].objId) && 0 <= extra[k].slotId && (extra[k].slotId < numSlots || extra[k].slotId == 0)
  }

  /** Every index map holds slot ids in [0, numSlots). */
  predicate MapsAllocated(maps: seq<map<int, int>>, numSlots: int)
  {
    forall m, k :: 0 <= m < |maps| && k in maps[m] ==> 0 <= maps[m][k] < numSlots
  }

  /** The effect of a source file on the store, as far as `db` is concerned. */
  predicate SourceEffect(db: Db, db': Db)
  {
    && FormsOnlyUpdated(db.classes, db'.classes)
    && db'.numClasses == db.numClasses
    && db'.numSlots >= db.numSlots
    && |db'.slots| >= |db.slots| && db'.slots[..|db.slots|] == db.slots
    && FreshSlots(db.classes, db'.slots[|db.slots|..], db.numSlots)
    && db'.numSlots == db.numSlots + (|db'.slots| - |db.slots|)
    && |db'.slotObjs| >= |db.slotObjs| && db'.slotObjs[..|db.slotObjs|] == db.slotObjs
    && FreshSlotObjs(db.classes, db'.slotObjs[|db.slotObjs|..], db'.numSlots)
  }

  lemma SourceEffectRefl(db: Db)
    ensures SourceEffect(db, db)
  {
    assert db.slots[..|db.slots|] == db.slots;
    assert db.slotObjs[..|db.slotObjs|] == db.slotObjs;
  }

  lemma SameIdsKeepHasId(a: seq<ClassRow>, b: seq<ClassRow>, v: int)
    requires |a| == |b| && forall k :: 0 <= k < |a| ==> a[k].id == b[k].id
    requires HasId(b, v)
    ensures HasId(a, v)
  {
    var k :| 0 <= k < |b| && b[k].id == v;
    assert a[k].id == v;
  }

  lemma {:induction false} SourceEffectTrans(a: Db, b: Db, c: Db)
    requires SourceEffect(a, b) && SourceEffect(b, c)
    ensures SourceEffect(a, c)
  {
    assert FormsOnlyUpdated(a.classes, c.classes);
    assert c.slots[..|b.slots|][..|a.slots|] == c.slots[..|a.slots|];
    assert c.slotObjs[..|b.slotObjs|][..|a.slotObjs|] == c.slotObjs[..|a.slotObjs|];
    var ex := c.slots[|a.slots|..];
    forall k | 0 <= k < |ex|
      ensures ex[k].slotId == a.numSlots + k && HasId(a.classes, ex[k].parentId)
    {
      if k < |b.slots| - |a.slots| {
        assert ex[k] == b.slots[|a.slots|..][k];
      } else {
        var k' := k - (|b.slots| - |a.slots|);
        assert ex[k] == c.slots[|b.slots|..][k'];
        SameIdsKeepHasId(a.classes, b.classes, ex[k].parentId);
      }
    }
    var ox := c.slotObjs[|a.slotObjs|..];
    forall k | 0 <= k < |ox|
      ensures HasId(a.classes, ox[k].objId) && 0 <= ox[k].slotId && (ox[k].slotId < c.numSlots || ox[k].slotId == 0)
    {
      if k < |b.slotObjs| - |a.slotObjs| {
        assert ox[k] == b.slotObjs[|a.slotObjs|..][k];
      } else {
        var k' := k - (|b.slotObjs| - |a.slotObjs|);
        assert ox[k] == c.slotObjs[|b.slotObjs|..][k'];
        SameIdsKeepHasId(a.classes, b.classes, ox[k].objId);
      }
    }
  }

  lemma {:induction false} MapFromEffect(path: string, L: seq<string>, j: nat, e: nat, sc: SlotScan, idxPos: int, db: Db)
    requires j <= e <= |L| && -1 <= idxPos
    requires MapsAllocated(sc.maps, db.numSlots)
    ensures SourceEffect(db, MapFrom(path, L, j, e, sc, idxPos, db).db)
    ensures MapFrom(path, L, j, e, sc, idxPos, db).db.numSlots == db.numSlots
    decreases e - j
  {
    if j == e {
      SourceEffectRefl(db);
    } else {
      var s := ReplaceAll(L[j], " ", "");
      var f := SlotMapEntry(path, s, sc, idxPos, db);
      SlotMapEntryEffect(path, s, sc, idxPos, db);
      if f.abort.None? {
        MapFromEffect(path, L, j + 1, e, sc, idxPos, f.db);
        SourceEffectTrans(db, f.db, MapFrom(path, L, j + 1, e, sc, idxPos, f.db).db);
      }
    }
  }

  lemma SlotMapEntryEffect(path: string, s: string, sc: SlotScan, idxPos: int, db: Db)
    requires -1 <= idxPos
    requires MapsAllocated(sc.maps, db.numSlots)
    ensures SourceEffect(db, SlotMapEntry(path, s, sc, idxPos, db).db)
    ensures SlotMapEntry(path, s, sc, idxPos, db).db.numSlots == db.numSlots
  {
    SourceEffectRefl(db);
    var slotId := EntrySlotNumber(s);
    if slotId > 0 && 0 <= idxPos < |sc.maps| {
      var actSlotId := MapValue(sc.maps[idxPos], slotId - 1);
      var look := SlotTypeLookup(db.classes, sc.namespaces, EntryTypeName(s));
      if look.Some? {
        SlotTypeFindsStoredRow(db.classes, sc.namespaces, EntryTypeName(s));
        LinkEffect(db, actSlotId, look.value);
      }
    }
  }

  lemma LinkEffect(db: Db, actSlotId: int, v: int)
    requires HasId(db.classes, v) && 0 <= actSlotId && (actSlotId < db.numSlots || actSlotId == 0)
    ensures SourceEffect(db, LinkSlot(db, actSlotId, Some(v)))
  {
    var db' := db.(slotObjs := db.slotObjs + [SlotObjRow(actSlotId, v)]);
    assert db'.slots[..|db.slots|] == db.slots;
    assert db'.slotObjs[..|db.slotObjs|] == db.slotObjs;
    assert db'.slotObjs[|db.slotObjs|..] == [SlotObjRow(actSlotId, v)];
  }

  lemma AddSlotsEffect(db: Db, names: seq<string>, classId: int)
    requires HasId(db.classes, classId)
    ensures SourceEffect(db, AddSlots(db, names, classId))
  {
    var db' := AddSlots(db, names, classId);
    assert db'.slots[..|db.slots|] == db.slots;
    assert db'.slotObjs[..|db.slotObjs|] == db.slotObjs;
  }

  lemma SetFormNameEffect(db: Db, className: string, form: string)
    ensures SourceEffect(db, db.(classes := SetFormName(db.classes, className, form)))
  {
    SourceEffectRefl(db);
  }

  lemma SlotTableEffect(db: Db, sc: SlotScan, names: seq<string>, classId: int)
    requires HasId(db.classes, classId)
    requires 0 <= db.numSlots && MapsAllocated(sc.maps, db.numSlots)
    ensures SourceEffect(db, AddSlots(db, names, classId))
    ensures MapsAllocated(sc.maps + [IndexMap(db.numSlots, |names|)], AddSlots(db, names, classId).numSlots)
  {
    AddSlotsEffect(db, names, classId);
    IndexMapBounded(db.numSlots, |names|);
    MapsAllocatedSnoc(sc.maps, IndexMap(db.numSlots, |names|), db.numSlots, db.numSlots + |names|);
  }

  lemma IndexMapBounded(base: int, n: nat)
    ensures forall k :: k in IndexMap(base, n) ==> base <= IndexMap(base, n)[k] < base + n
  {
    IndexMapContents(base, n);
  }

  lemma MapsAllocatedSnoc(maps: seq<map<int, int>>, m: map<int, int>, n0: int, n: int)
    requires MapsAllocated(maps, n0) && n0 <= n
    requires forall k :: k in m ==> 0 <= m[k] < n
    ensures MapsAllocated(maps + [m], n)
  {
    var maps' := maps + [m];
    forall j, k | 0 <= j < |maps'| && k in maps'[j]
      ensures 0 <= maps'[j][k] < n
    {
      if j < |maps| {
        assert maps'[j] == maps[j];
      }
    }
  }

  lemma SourceLineEffect(path: string, L: seq<string>, i: nat, sc: SlotScan, db: Db)
    requires i < |L|
    requires 0 <= db.numSlots && MapsAllocated(sc.maps, db.numSlots)
    ensures var st := SourceLine(path, L, i, sc, db);
      SourceEffect(db, st.db) && MapsAllocated(st.sc.maps, st.db.numSlots)
  {
    var st := SourceLine(path, L, i, sc, db);
    var s := L[i];
    if Contains(s, "namespace") && !Contains(s, "using") {
      assert st.db == db && st.sc.maps == sc.maps;
      SourceEffectRefl(db);
    } else if Contains(s, "IMPLEMENT_") {
      var className := JoinRev(sc.namespaces) + ImplementClass(s);
      assert st.db == db.(classes := SetFormName(db.classes, className, ImplementForm(s))) && st.sc == sc;
      SetFormNameEffect(db, className, ImplementForm(s));
    } else if Contains(s, "BEGIN_SLOTTABLE(") {
      var cbt := MacroArgument(s);
      match FindClassId(db.classes, JoinRev(sc.namespaces) + cbt)
      case None =>
        assert st.db == db && st.sc.maps == sc.maps;
        SourceEffectRefl(db);
      case Some(classId) =>
        var e := TableEnd(L, i + 1, "END_SLOTTABLE(");
        var names := TableNames(L, i + 1, e);
        assert st.db == AddSlots(db, names, classId) && st.sc.maps == sc.maps + [IndexMap(db.numSlots, |names|)];
        SlotTableEffect(db, sc, names, classId);
    } else if Contains(s, "BEGIN_SLOT_MAP(") {
      var idxPos := FirstIndexOf(sc.classNames, MacroArgument(s));
      var e := TableEnd(L, i + 1, "END_SLOT_MAP(");
      assert st.db == MapFrom(path, L, i + 1, e, sc, idxPos, db).db && st.sc == sc;
      MapFromEffect(path, L, i + 1, e, sc, idxPos, db);
    } else {
      assert st.db == db && st.sc == sc;
      SourceEffectRefl(db);
    }
  }

  /**
   * A source file only sets form names, appends slot rows with consecutive ids
   * from numSlots, each owned by a stored class, and appends slot-object rows
   * whose accepted class is stored and whose slot id was allocated or is 0.
   */
  lemma {:induction false} SourceFromEffect(path: string, L: seq<string>, i: nat, sc: SlotScan, db: Db)
    requires 0 <= db.numSlots && MapsAllocated(sc.maps, db.numSlots)
    ensures SourceEffect(db, SourceFrom(path, L, i, sc, db).db)
    decreases |L| - i
  {
    if i >= |L| {
      SourceEffectRefl(db);
    } else {
      var st := SourceLine(path, L, i, sc, db);
      SourceLineEffect(path, L, i, sc, db);
      if st.abort.None? {
        SourceFromEffect(path, L, st.next, st.sc, st.db);
        SourceEffectTrans(db, st.db, SourceFrom(path, L, st.next, st.sc, st.db).db);
      }
    }
  }

  /** buildSlotTable keeps the store valid. */
  lemma SlotTableKeepsValid(path: string, lines: seq<string>, db: Db)
    requires Valid(db)
    ensures Valid(SlotTableSpec(path, lines, db).db)
  {
    var db' := SlotTableSpec(path, lines, db).db;
    SourceFromEffect(path, StripComments(lines), 0, InitialSlotScan, db);
    forall k | 0 <= k < |db'.slots|
      ensures 0 <= db'.slots[k].slotId < db'.numSlots && 0 <= db'.slots[k].parentId < |db'.classes|
    {
      if k >= |db.slots| {
        assert db'.slots[k] == db'.slots[|db.slots|..][k - |db.slots|];
      } else {
        assert db'.slots[k] == db'.slots[..|db.slots|][k];
      }
    }
    forall a, b | 0 <= a < b < |db'.slots|
      ensures db'.slots[a].slotId < db'.slots[b].slotId
    {
      if b >= |db.slots| {
        assert db'.slots[b] == db'.slots[|db.slots|..][b - |db.slots|];
        if a >= |db.slots| {
          assert db'.slots[a] == db'.slots[|db.slots|..][a - |db.slots|];
        } else {
          assert db'.slots[a] == db'.slots[..|db.slots|][a];
        }
      } else {
        assert db'.slots[a] == db'.slots[..|db.slots|][a];
        assert db'.slots[b] == db'.slots[..|db.slots|][b];
      }
    }
    forall k | 0 <= k < |db'.slotObjs|
      ensures 0 <= db'.slotObjs[k].objId < |db'.classes|
      ensures 0 <= db'.slotObjs[k].slotId && (db'.slotObjs[k].slotId < db'.numSlots || db'.slotObjs[k].slotId == 0)
    {
      if k >= |db.slotObjs| {
        assert db'.slotObjs[k] == db'.slotObjs[|db.slotObjs|..][k - |db.slotObjs|];
      } else {
        assert db'.slotObjs[k] == db'.slotObjs[..|db.slotObjs|][k];
      }
    }
  }

  /** A source file never pops a namespace: each turn of the main loop keeps the
      list and at most adds one entry at its front (Parser.cpp:472-481). */
  lemma NamespacesNeverPopped(path: string, L: seq<string>, i: nat, sc: SlotScan, db: Db)
    requires i < |L|
    ensures var ns := SourceLine(path, L, i, sc, db).sc.namespaces;
      ns == sc.namespaces || ns == [NamespaceName(L[i])] + sc.namespaces
  {
  }

  /** A slot table whose class is not stored still records its class name but no
      index map, so the positions of the later tables' names and maps drift apart
      (Parser.cpp:506, 521, 546). */
  lemma MissingClassMisalignsTables(path: string, L: seq<string>, i: nat, sc: SlotScan, db: Db)
    requires i < |L|
    requires !Contains(L[i], "namespace") && !Contains(L[i], "IMPLEMENT_") && Contains(L[i], "BEGIN_SLOTTABLE(")
    requires FindClassId(db.classes, JoinRev(sc.namespaces) + MacroArgument(L[i])).None?
    ensures var st := SourceLine(path, L, i, sc, db);
      && st.sc.classNames == sc.classNames + [MacroArgument(L[i])]
      && st.sc.maps == sc.maps && st.db == db && st.next == i + 1
  {
  }

  /** The only way buildSlotTable stops early is a slot map whose table position
      has no index map (Parser.cpp:579). */
  lemma {:induction false} MapFromFailure(path: string, L: seq<string>, j: nat, e: nat, sc: SlotScan, idxPos: int, db: Db)
    requires j <= e <= |L| && -1 <= idxPos
    ensures var f := MapFrom(path, L, j, e, sc, idxPos, db);
      f.abort.None? || (f.abort == Some(SlotMapIndexOutOfRange(path)) && idxPos >= |sc.maps|)
    decreases e - j
  {
    if j < e {
      var f := SlotMapEntry(path, ReplaceAll(L[j], " ", ""), sc, idxPos, db);
      if f.abort.None? {
        MapFromFailure(path, L, j + 1, e, sc, idxPos, f.db);
      }
    }
  }

  lemma {:induction false} SourceFromFailure(path: string, L: seq<string>, i: nat, sc: SlotScan, db: Db)
    ensures SourceFrom(path, L, i, sc, db).abort.None? || SourceFrom(path, L, i, sc, db).abort == Some(SlotMapIndexOutOfRange(path))
    decreases |L| - i
  {
    if i < |L| {
      var st := SourceLine(path, L, i, sc, db);
      var s := L[i];
      if !(Contains(s, "namespace") && !Contains(s, "using")) && !Contains(s, "IMPLEMENT_")
         && !Contains(s, "BEGIN_SLOTTABLE(") && Contains(s, "BEGIN_SLOT_MAP(") {
        var idxPos := FirstIndexOf(sc.classNames, MacroArgument(s));
        MapFromFailure(path, L, i + 1, TableEnd(L, i + 1, "END_SLOT_MAP("), sc, idxPos, db);
      }
      if st.abort.None? {
        SourceFromFailure(path, L, st.next, st.sc, st.db);
      }
    }
  }

  lemma SlotTableFailure(path: string, lines: seq<string>, db: Db)
    ensures SlotTableSpec(path, lines, db).abort.None? || SlotTableSpec(path, lines, db).abort == Some(SlotMapIndexOutOfRange(path))
  {
    SourceFromFailure(path, StripComments(lines), 0, InitialSlotScan, db);
  }

  /** The namespace name drops the character just before `{`: written with a
      space before the brace it is the plain name, written without one it loses
      its last letter. */
  lemma {:induction false} NamespaceNameDropsCharBeforeBrace(name: string)
    requires ' ' !in name && '{' !in name && |name| > 0
    ensures NamespaceName("namespace " + name + " {") == name + "::"
    ensures NamespaceName("namespace " + name + "{") == name[..|name| - 1] + "::"
  {
    SpacedNamespaceName(name);
    UnspacedNamespaceName(name);
  }

  lemma {:induction false} SpacedNamespaceName(name: string)
    requires ' ' !in name && '{' !in name
    ensures NamespaceName("namespace " + name + " {") == name + "::"
  {
    var prefix := "namespace " + name;
    var s1 := prefix + " {";
    NamespaceNameOf(s1, name, " ", |prefix| + 1);
    assert s1[9..|prefix|] == " " + name;
    SpaceThenNoSpaces(name);
  }

  lemma {:induction false} UnspacedNamespaceName(name: string)
    requires ' ' !in name && '{' !in name && |name| > 0
    ensures NamespaceName("namespace " + name + "{") == name[..|name| - 1] + "::"
  {
    var prefix := "namespace " + name;
    var s2 := prefix + "{";
    NamespaceNameOf(s2, name, "", |prefix|);
    SliceBeforeLast(s2, name);
    SpaceThenNoSpaces(name[..|name| - 1]);
  }

  lemma {:induction false} SliceBeforeLast(s2: string, name: string)
    requires |name| > 0 && s2 == "namespace " + name + "{"
    ensures s2[9..9 + |name|] == " " + name[..|name| - 1]
  {
    var t := s2[9..9 + |name|];
    assert |t| == |name|;
    forall i | 0 <= i < |t|
      ensures t[i] == (" " + name[..|name| - 1])[i]
    {
      if i > 0 {
        assert t[i] == s2[9 + i] == name[i - 1];
      }
    }
  }

  /** Removing the spaces of a space followed by a space-free word leaves the word. */
  lemma {:induction false} SpaceThenNoSpaces(w: string)
    requires ' ' !in w
    ensures ReplaceAll(" " + w, " ", "") == w
  {
    assert (" " + w)[..1] == " " && (" " + w)[1..] == w;
    NoSpacesUnchanged(w);
  }

  lemma {:induction false} NoSpacesUnchanged(w: string)
    requires ' ' !in w
    ensures ReplaceAll(w, " ", "") == w
    decreases |w|
  {
    if |w| >= 1 {
      assert w[..1] != " " by { assert w[..1][0] == w[0]; }
      NoSpacesUnchanged(w[1..]);
      assert [w[0]] + w[1..] == w;
    }
  }

  /** NamespaceName of a `namespace` line whose first `{` is at `p`. */
  lemma {:induction false} NamespaceNameOf(s: string, name: string, gap: string, p: nat)
    requires ' ' !in name && '{' !in name && '{' !in gap
    requires s == "namespace " + name + gap + "{" && p == 10 + |name| + |gap|
    requires gap == "" || gap == " "
    ensures NamespaceName(s) == ReplaceAll(s[9..p - 1], " ", "") + "::"
  {
    assert OccursAt(s, "namespace", 0);
    IndexOfAt(s, "namespace", 0);
    assert OccursAt(s, "{", p) by { assert s[p..p + 1] == [s[p]]; }
    forall i | 0 <= i < p
      ensures !OccursAt(s, "{", i)
    {
      assert s[i] != '{';
      assert s[i..i + 1] == [s[i]];
    }
    IndexOfAt(s, "{", p);
  }

  lemma {:induction false} IndexOfAt(s: string, sub: string, p: nat)
    requires OccursAt(s, sub, p)
    requires forall i :: 0 <= i < p ==> !OccursAt(s, sub, i)
    ensures IndexOf(s, sub) == p
  {
  }
}
