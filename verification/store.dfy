/**
 * The relational store the extractor writes into: the `class`, `slotTable` and
 * `slotObjTable` tables of Parser.cpp:49-62 as sequences of rows in insertion
 * order, together with the two id counters of Parser.h:36-37. The SQL text the
 * source builds is replaced by the three operations it performs: a SELECT of the
 * first row with a given class name, an UPDATE of every row with that name, and
 * an INSERT at the end.
 */
module Store {

  datatype Option<T> = None | Some(value: T)

  /** One row of the `class` table. */
  datatype ClassRow = ClassRow(
    id: int,
    className: string,
    formName: Option<string>,
    fileName: string,
    baseClass: Option<int>)

  /** One row of `slotTable`. */
  datatype SlotRow = SlotRow(slotId: int, slotName: string, parentId: int)

  /** One row of `slotObjTable`: slot `slotId` accepts objects of class `objId`. */
  datatype SlotObjRow = SlotObjRow(slotId: int, objId: int)

  /** The three tables and the two counters (Parser::numClasses, Parser::numSlots). */
  datatype Db = Db(
    classes: seq<ClassRow>,
    slots: seq<SlotRow>,
    slotObjs: seq<SlotObjRow>,
    numClasses: int,
    numSlots: int)

  /** Why a run stopped early. In the source the first is `exit(1)` and the other
      two are reads past the end of a QList. */
  datatype Failure =
    | UnbalancedNamespace(path: string)
    | NamespaceIndexOutOfRange(path: string)
    | SlotMapIndexOutOfRange(path: string)

  /** The store after a scan, and the failure that stopped it, if any; on a failure
      `db` keeps every write made before it. */
  datatype Finish = Finish(db: Db, abort: Option<Failure>)

  /** Some row of `classes` carries id `v`. */
  predicate HasId(classes: seq<ClassRow>, v: int)
  {
    exists k :: 0 <= k < |classes| && classes[k].id == v
  }

  /** `SELECT id FROM class WHERE className = name`, first row, from row `k` on. */
  function FindClassIdFrom(classes: seq<ClassRow>, name: string, k: nat): (r: Option<int>)
    requires k <= |classes|
    ensures r.Some? ==> exists m :: k <= m < |classes| && classes[m].id == r.value
    decreases |classes| - k
  {
    if k == |classes| then None
    else if classes[k].className == name then Some(classes[k].id)
    else FindClassIdFrom(classes, name, k + 1)
  }

  /** `SELECT id FROM class WHERE className = name`: the id of the first row with
      that name, or None. */
  function FindClassId(classes: seq<ClassRow>, name: string): (r: Option<int>)
    ensures r.Some? ==> HasId(classes, r.value)
  {
    FindClassIdFrom(classes, name, 0)
  }

  /** The SELECT finds nothing exactly when no row from `k` on has the name, and
      otherwise the id of the first such row. */
  lemma {:induction false} FindClassIdFromFirstMatch(classes: seq<ClassRow>, name: string, k: nat)
    requires k <= |classes|
    ensures FindClassIdFrom(classes, name, k).None? <==>
              forall m :: k <= m < |classes| ==> classes[m].className != name
    ensures FindClassIdFrom(classes, name, k).Some? ==>
              exists m :: k <= m < |classes| && classes[m].className == name
                          && classes[m].id == FindClassIdFrom(classes, name, k).value
                          && forall p :: k <= p < m ==> classes[p].className != name
    decreases |classes| - k
  {
    if k < |classes| && classes[k].className != name {
      FindClassIdFromFirstMatch(classes, name, k + 1);
    }
  }

  lemma FindClassIdFirstMatch(classes: seq<ClassRow>, name: string)
    ensures FindClassId(classes, name).None? <==> forall m :: 0 <= m < |classes| ==> classes[m].className != name
    ensures FindClassId(classes, name).Some? ==>
              exists m :: 0 <= m < |classes| && classes[m].className == name
                          && classes[m].id == FindClassId(classes, name).value
                          && forall p :: 0 <= p < m ==> classes[p].className != name
  {
    FindClassIdFromFirstMatch(classes, name, 0);
  }

  /** `UPDATE class SET baseclass = base WHERE className = name` (Parser.cpp:374-376, 393-395). */
  function SetBaseClass(classes: seq<ClassRow>, name: string, base: int): seq<ClassRow>
  {
    seq(|classes|, k requires 0 <= k < |classes| =>
      if classes[k].className == name then classes[k].(baseClass := Some(base)) else classes[k])
  }

  /** `UPDATE class SET formname = form WHERE className = name` (Parser.cpp:496-497). */
  function SetFormName(classes: seq<ClassRow>, name: string, form: string): seq<ClassRow>
  {
    seq(|classes|, k requires 0 <= k < |classes| =>
      if classes[k].className == name then classes[k].(formName := Some(form)) else classes[k])
  }

  /** Two class rows agree on everything but possibly the base class. */
  predicate SameButBase(a: ClassRow, b: ClassRow)
  {
    a.id == b.id && a.className == b.className && a.formName == b.formName && a.fileName == b.fileName
  }

  /** Two class rows agree on everything but possibly the form name. */
  predicate SameButForm(a: ClassRow, b: ClassRow)
  {
    a.id == b.id && a.className == b.className && a.baseClass == b.baseClass && a.fileName == b.fileName
  }

  /** The slot ids stored in `slots` strictly increase. */
  predicate SlotIdsIncreasing(slots: seq<SlotRow>)
  {
    forall a, b :: 0 <= a < b < |slots| ==> slots[a].slotId < slots[b].slotId
  }

  /**
   * What a parse run keeps true of the store: class ids are the row positions
   * (numClasses restarts at 0 on a cleared table, Parser.cpp:65-72), every stored
   * base class, slot parent and accepted type is an existing class id, slot ids
   * increase and stay below numSlots, and a slot-object row names either an
   * allocated slot id or 0, the value QMap::value returns for a missing key.
   */
  predicate Valid(db: Db)
  {
    && db.numClasses == |db.classes|
    && (forall k :: 0 <= k < |db.classes| ==> db.classes[k].id == k)
    && (forall k :: 0 <= k < |db.classes| && db.classes[k].baseClass.Some? ==>
          0 <= db.classes[k].baseClass.value < |db.classes|)
    && 0 <= db.numSlots
    && (forall k :: 0 <= k < |db.slots| ==>
          0 <= db.slots[k].slotId < db.numSlots && 0 <= db.slots[k].parentId < |db.classes|)
    && SlotIdsIncreasing(db.slots)
    && (forall k :: 0 <= k < |db.slotObjs| ==>
          0 <= db.slotObjs[k].objId < |db.classes|
          && 0 <= db.slotObjs[k].slotId
          && (db.slotObjs[k].slotId < db.numSlots || db.slotObjs[k].slotId == 0))
  }

  /** In a valid store a looked-up id is a row position. */
  lemma FoundIdInRange(db: Db, name: string)
    requires Valid(db)
    ensures FindClassId(db.classes, name).Some? ==> 0 <= FindClassId(db.classes, name).value < |db.classes|
  {
  }

  /** UPDATE statements that change only base classes or form names leave every
      SELECT by name as it was. */
  lemma {:induction false} LookupIgnoresUpdates(classes: seq<ClassRow>, updated: seq<ClassRow>, name: string, k: nat)
    requires |classes| == |updated| && k <= |classes|
    requires forall m :: 0 <= m < |classes| ==>
               updated[m].id == classes[m].id && updated[m].className == classes[m].className
    ensures FindClassIdFrom(updated, name, k) == FindClassIdFrom(classes, name, k)
    decreases |classes| - k
  {
    if k < |classes| {
      assert updated[k].className == classes[k].className && updated[k].id == classes[k].id;
      LookupIgnoresUpdates(classes, updated, name, k + 1);
    }
  }

  /** Appending rows does not change which row a SELECT finds first, when the
      name was already present. */
  lemma {:induction false} LookupIgnoresAppended(classes: seq<ClassRow>, extra: seq<ClassRow>, name: string, k: nat)
    requires k <= |classes|
    requires FindClassIdFrom(classes, name, k).Some?
    ensures FindClassIdFrom(classes + extra, name, k) == FindClassIdFrom(classes, name, k)
    decreases |classes| - k
  {
    assert (classes + extra)[k] == classes[k];
    if classes[k].className != name {
      LookupIgnoresAppended(classes, extra, name, k + 1);
    }
  }
}
