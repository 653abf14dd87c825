# oeSql class and slot extractor, modelled in Dafny

oeSql reads an OpenEaagles project and fills a small SQL database. It has three tables:

- `class`: an id, a fully qualified class name, a form name, a file name and a base-class id.
- `slotTable`: a slot id, a slot name and the id of the class that owns the slot.
- `slotObjTable`: a slot id and the id of the class an object in that slot must have.

The `Parser` fills the tables in three passes over the project:

1. `buildClassTable` runs over every header and inserts one row per class definition. It builds the class name from the namespaces that enclose the definition.
2. `buildClassTable` runs over every header again and records each class's base class. The base name is resolved against the enclosing namespaces.
3. `buildSlotTable` runs over every implementation file:
   - `IMPLEMENT_…` macros set the form name of a class;
   - `BEGIN_SLOTTABLE` … `END_SLOTTABLE` blocks add slots with consecutive ids;
   - `BEGIN_SLOT_MAP` … `END_SLOT_MAP` blocks link slots to the class of object they accept.

Before it is scanned, every file goes through `removeComments`. Class ids come from the static counter `numClasses` and slot ids from `numSlots`. A run resets `numClasses` to 0 and keeps `numSlots`.

## How the model is built

The modules follow the program's structure:

- **QtString** has the few `QString` operations the parser relies on, with Qt 5 semantics: `indexOf` gives -1 on a miss, `mid` with a negative length runs to the end, `chop`, `remove`, `replace` of every occurrence, `count`, and `toInt` with its 32-bit range.
- **Store** has the three tables and both counters as one value, `Db`:
  - a `SELECT … WHERE className = …` answers the id of the first row with that name;
  - an `UPDATE … WHERE className = …` changes every row with that name.
- **Comments** models `removeComments`. The text stream is a `LineStream` class whose `ReadLine` moves a cursor. The method `RemoveComments` is proved to compute the function `StripAt`.
- **Resolution** models the two ways of qualifying a name with namespaces:
  - outermost first, for header namespaces, which are pushed at the back;
  - innermost first, for source namespaces, which are pushed at the front.

  It also models the two name resolvers: base classes at Parser.cpp:317-398 and slot object types at Parser.cpp:585-655.
- **Headers** and **Sources** specify `buildClassTable` and `buildSlotTable` line by line as functions of the store. They also carry the lemmas about those functions.
- **Driver** specifies one `parse` run over given lists of header and implementation files.
- **Extractor** holds the `Parser` class. Its fields are the tables and the two counters. Its methods run the source's loops and are proved to compute the functions of the modules above.

Some behaviour of the code differs from what its own comments say. The model follows the code:

- **Last line.** `removeComments` never emits the last line of a file, except when a `/*` opened on an earlier line is still open as the inner read loop reaches it. The text after its `*/` is then emitted (`Comments.BlockCommentOutput` with the closing line the last one), or the whole line, when non-empty, if it holds no `*/` (`Comments.UnclosedCommentEmitsLastLine`).
- **Whitespace-only lines.** Such lines are dropped only when a comment was removed from them. A plain line of spaces is kept.
- **`using namespace`.** The header scanner does not skip `using namespace` lines: it treats them as namespace openings. Only the implementation-file scanner skips them.
- **First namespace compared.** The header resolver compares the leading namespace of a qualified base only with the second namespace on the stack. With an empty namespace stack it reads outside the list (Parser.cpp:338).
- **Prefixed candidates.** The slot-type resolver never prefixes the innermost namespace. After the exact name misses, it does no further lookup when the leading segment of the name equals one of the outer namespaces (any but the innermost) (`Resolution.LeadingMatchNeverResolves`).
- **Slot counter kept across runs.** A run resets the class counter (Parser.cpp:72) but not the slot counter, so a second run in the same process numbers its slots on from where the first stopped (`Driver.SlotIdsContinueCount`).
- **Namespace names.** The implementation-file scanner drops the character just before `{`. In `namespace Foo {` that character is the space; in `namespace Foo{` it is the last letter of the name.

Where the code's behaviour is undefined or it exits, the model stops the run with a `Failure`:

- `exit(1)` on an unbalanced `}` becomes `UnbalancedNamespace`.
- Reading `namespaces[1]` of an empty list becomes `NamespaceIndexOutOfRange`.
- Indexing the list of slot maps past its end becomes `SlotMapIndexOutOfRange`.

The writes made before the failure are kept.

## Model

| member | source | states |
|---|---|---|
| Comments.LineStream.ReadLine | Parser.cpp:672 | reading returns the current line and advances; at the end it returns "" and does not move |
| Comments.RemoveComments | Parser.cpp:669-721 | the lines returned are exactly `StripAt` of the stream from its position, and the stream ends exhausted |
| Comments.StripFrom | Parser.cpp:717 | no empty string is ever emitted, and at most one string per remaining line |
| Comments.NoBlockComments | Parser.cpp:669-721 | in a file with no `/*` outside line comments the result is the non-empty lines after `//` cuts, in order, with the last line never emitted |
| Comments.LineCommentCut | Parser.cpp:675-684 | a `//` line keeps exactly the text before the first `//`, or becomes empty when that text is blank; no `//` is left |
| Comments.InlineBlockRemoved | Parser.cpp:686-699 | a `/* … */` on one line is removed from `/*` through the first `*/`; a blank remainder becomes empty |
| Comments.InlineBlockOutOfOrder | Parser.cpp:689-697 | when the first `*/` comes before the first `/*`, the line is kept whole, or loses only the `/` of `*/*` |
| Comments.BlockCommentSpansLines | Parser.cpp:703-705 | an open comment skips every line up to and including the first that holds `*/` |
| Comments.BlockCommentOutput | Parser.cpp:700-714 | a comment opened on one line and closed on a later one yields only the text after `*/`; scanning resumes after that line |
| Comments.UnclosedCommentReachesEnd | Parser.cpp:703-705 | with no `*/` ahead, the open comment runs to the last line |
| Comments.UnclosedCommentEmitsLastLine | Parser.cpp:700-718 | with no `*/` ahead, the only output from there on is the file's last line, emitted uncut if non-empty |
| Comments.CloseBlock | Parser.cpp:703-713 | the loop that reads to `*/` leaves the stream where `SkipToClose` says and returns the text after `*/` |
| Comments.ProcessCurrentLine | Parser.cpp:674-716 | one turn of the main loop computes `ProcessLine` |
| Comments.CutComment | Parser.cpp:675-684 | computes `CutLineComment` |
| Comments.RemoveBlockOnLine | Parser.cpp:688-699 | computes `RemoveInlineBlock` |
| QtString.IndexOfFrom | Parser.cpp:473 | the first occurrence at or after `from`, or -1 exactly when there is none |
| QtString.Contains | Parser.cpp:228 | true exactly when the pattern occurs somewhere |
| QtString.ToInt | Parser.cpp:576 | the value always lies within the 32-bit range |
| QtString.ToIntDecimal | Parser.cpp:576 | decimal digits, with white space around them, give their value when it fits in 32 bits, and 0 otherwise |
| QtString.ToIntNegative | Parser.cpp:576 | a `-` before the digits gives the negated value when it fits in 32 bits, and 0 otherwise |
| QtString.ToIntRejects | Parser.cpp:576 | blank text, a bare sign, or any non-digit after the optional sign gives 0 |
| QtString.RemoveCharRemovesAll | Parser.cpp:315 | replacing a character by "" leaves none of it |
| Store.FindClassIdFirstMatch | Parser.cpp:324-329 | a lookup by name misses exactly when no row has the name, and otherwise gives the id of the first row with it |
| Store.LookupIgnoresUpdates | Parser.cpp:374-376 | updates that keep ids and names do not change any lookup |
| Store.LookupIgnoresAppended | Parser.cpp:405-409 | inserting rows after a hit does not change it |
| Store.FoundIdInRange | Parser.cpp:329 | in a valid store a found id is a row index |
| Resolution.QualifyOutermostFirst | Parser.cpp:287-289 | prepending from the back of the header namespace list gives outermost-first `Join(ns) + name` |
| Resolution.QualifyInnermostFirst | Parser.cpp:487-490 | prepending from the front of the source namespace list gives `JoinRev(ns) + name` |
| Resolution.JoinRevIsJoinOfReverse | Parser.cpp:480 | both qualifications agree once the list is reversed |
| Resolution.ResolveBaseClass | Parser.cpp:317-370 | the resolver, including its out-of-range read, computes `BaseLookupSpec` |
| Resolution.SearchOuterPrefixes | Parser.cpp:355-369 | the loop computes `OutermostPrefixSearch`, probing `ns[0]`, `ns[0] ns[1]`, ... until one names a row |
| Resolution.BaseLookupOutOfRange | Parser.cpp:338 | the read past the namespace list happens exactly for a qualified base not stored as written, with no namespace open |
| Resolution.SecondNamespaceMatchIsFinal | Parser.cpp:333-352 | when the second namespace equals the base's leading one, the answer is the lookup of the base without every copy of that segment |
| Resolution.OtherNamespacesNotCompared | Parser.cpp:338-369 | otherwise the outer-prefix search decides, whatever the other namespaces hold |
| Resolution.OuterNamespacePrefixFound | Parser.cpp:298-305 | inside `A::B`, a base `C::X` stored as `A::C::X` resolves to that row |
| Resolution.OutermostPrefixSearch | Parser.cpp:357-368 | misses exactly when every outermost-first prefix misses, and otherwise answers one prefix's hit |
| Resolution.OutermostPrefixFirstHit | Parser.cpp:357-368 | the search answers the shortest prefix that hits |
| Resolution.BaseLookupFindsStoredRow | Parser.cpp:372-377 | a resolved base id is the id of a stored row |
| Resolution.FindOuterNamespace | Parser.cpp:604-610 | the loop reports whether the type's leading segment equals some namespace other than the innermost |
| Resolution.SearchInnerPrefixes | Parser.cpp:612-626 | the loop computes `InnerPrefixSearch` over prefixes built from the outermost namespace inwards |
| Resolution.InnerPrefixSearch | Parser.cpp:614-625 | misses exactly when every probed prefix misses, and otherwise answers one probe's hit |
| Resolution.InnerPrefixFirstHit | Parser.cpp:614-625 | the search answers the first prefix that hits |
| Resolution.ResolveSlotType | Parser.cpp:585-655 | the resolver computes `SlotTypeLookup` |
| Resolution.SlotTypeFindsStoredRow | Parser.cpp:629-651 | a resolved type id is the id of a stored row |
| Resolution.LeadingMatchNeverResolves | Parser.cpp:600-628 | a qualified type not stored as written is never found once its leading segment is an outer namespace |
| Resolution.InnermostNeverPrefixed | Parser.cpp:614 | the innermost namespace is never used as a prefix; with at most one namespace nothing is found |
| Headers.Pass1Rows | Parser.cpp:241-429 | pass 1 appends one row per registered class, with consecutive ids from the counter, the qualified name, no form, the file's path and no base; it touches nothing else and can only fail on an unbalanced `}` |
| Headers.ClassTablePass1 | Parser.cpp:212-441 | the same for a whole header |
| Headers.Pass2Bases | Parser.cpp:291-400 | pass 2 adds no row, keeps both counters and the slot tables, and changes only base-class ids, each to a stored id |
| Headers.ClassTablePass2 | Parser.cpp:212-441 | the same for a whole header |
| Headers.ClassLineBases | Parser.cpp:272-400 | one class-definition line in pass 2 changes only base-class ids |
| Headers.BaseSetOnlyOnHit | Parser.cpp:280-398 | a definition without `:`, or one whose base does not resolve, changes nothing in pass 2 |
| Headers.ClassTableUntouched | Parser.cpp:215-254 | a file with more than one `.` in its full path (directories included), with no class definition, or with no namespace line leaves the store unchanged |
| Headers.NoNamespaceNoChange | Parser.cpp:243-272 | with no namespace open and no namespace line ahead, the rest of a header changes nothing |
| Headers.ClassTableKeepsValid | Parser.cpp:212-441 | either pass keeps ids equal to row positions and the counter equal to the row count, and keeps every base, owner and accepted type pointing at a stored row |
| Headers.NamespaceEntryShape | Parser.cpp:247-252 | a pushed namespace ends with `::` and holds no space or `{` before it |
| Headers.BaseSpecifierHasNoSpaces | Parser.cpp:308-315 | the extracted base name holds no space |
| Headers.NamespacesKeptAfterClass | Parser.cpp:259-270 | once a class has started no namespace is popped |
| Headers.UnbalancedNeedsEmptyStack | Parser.cpp:259-268 | the exit happens only on a `}` line with an empty stack, no pending braces and no class started |
| Headers.NewRows | Parser.cpp:401-429 | one row per name |
| Headers.AppendClassesTwice | Parser.cpp:405-409 | inserting two batches is inserting their concatenation |
| Sources.FirstIndexOf | Parser.cpp:556-563 | -1 exactly when the class has no slot table earlier in this file, and otherwise the first position with that name |
| Sources.IndexMapUnique | Parser.cpp:525-535 | the map a slot table builds is exactly position `k` to slot id `base + k` |
| Sources.IndexMapContents | Parser.cpp:535 | keys are the positions `0 … n-1`, and position `k` holds `base + k` |
| Sources.SlotMapKeyLinksDeclaredSlot | Parser.cpp:579 | map entry `k` names the `k`-th declared slot, or slot 0 when the table has fewer slots |
| Sources.AddSlotsConcat | Parser.cpp:530-544 | adding slots line by line is adding all of them at once |
| Sources.SlotNamesHaveNoQuotes | Parser.cpp:527-541 | no slot name holds a quote |
| Sources.SlotNamesAreQuotedTexts | Parser.cpp:527-541 | the slot names of a line are the texts between its 1st and 2nd quote, its 3rd and 4th, and so on, left to right |
| Sources.SlotNameIsQuotedText | Parser.cpp:527-541 | a line with n quotes has n / 2 slot names, and name k is the text strictly between quote 2k and quote 2k+1 |
| Sources.QuotesFromExact | Parser.cpp:527-541 | the quote positions used above are every quote of the line, in increasing order, and nothing else |
| Sources.NoQuoteNoSlots | Parser.cpp:527-530 | a line with no quote declares no slot |
| Sources.OneQuoteNoSlots | Parser.cpp:527-530 | a line with a single quote declares no slot |
| Sources.SourceFromEffect | Parser.cpp:469-661 | a file only sets form names, appends slots with consecutive fresh ids owned by stored classes, and appends links to stored classes |
| Sources.SlotTableKeepsValid | Parser.cpp:443-665 | `buildSlotTable` keeps the store valid |
| Sources.SlotTableFailure | Parser.cpp:443-665 | the only failure is reading past the list of slot maps |
| Sources.MapFromFailure | Parser.cpp:567-660 | that failure happens only with a position beyond the recorded maps |
| Sources.SourceFromFailure | Parser.cpp:469-661 | the main loop can fail only that way |
| Sources.NamespacesNeverPopped | Parser.cpp:472-481 | each line keeps the namespace list or pushes one entry at its front |
| Sources.MissingClassMisalignsTables | Parser.cpp:499-547 | a slot table of an unknown class still records its name but no map, so the two lists drift apart |
| Sources.NamespaceNameDropsCharBeforeBrace | Parser.cpp:473-479 | `namespace N {` gives `N::`, but `namespace N{` loses the last letter of `N` |
| Sources.SpacedNamespaceName | Parser.cpp:473-479 | a namespace line written `namespace N {` pushes exactly `N::` |
| Sources.UnspacedNamespaceName | Parser.cpp:473-479 | a namespace line written `namespace N{` pushes `N` without its last letter, followed by `::` |
| Sources.TableEnd | Parser.cpp:526-567 | the block's end lies within the file |
| Driver.PassOneMatches | Parser.cpp:85-86 | pass 1 over all headers appends exactly the per-file rows, with ids running on across files |
| Driver.PassOneKeepsSlots | Parser.cpp:85 | pass 1 leaves the slot tables and the slot counter alone, and fails only on an unbalanced `}` |
| Driver.PassTwoOnlySetsBases | Parser.cpp:86 | pass 2 over all headers adds no row and changes only base ids |
| Driver.PassTwoBalanced | Parser.cpp:241-270 | a header that passes pass 1 cannot exit in pass 2 |
| Driver.HeaderPassesBalanced | Parser.cpp:85-86 | after a clean pass 1, pass 2 can only fail on the out-of-range read |
| Driver.SourcePassEffect | Parser.cpp:146-161 | across all implementation files, only form names change, slots are appended with consecutive fresh ids, and links to stored classes are appended |
| Driver.SourcePassNeverUnbalanced | Parser.cpp:108 | the source pass fails only past the list of slot maps |
| Driver.ParseKeepsValid | Parser.cpp:32-125 | a run leaves a valid store |
| Driver.ParseClassRows | Parser.cpp:65-86 | after a clean run the class rows are pass 1's rows, ids 0, 1, 2, … in the order met, and `numClasses` is their count |
| Driver.SlotIdsContinueCount | Parser.cpp:72-108 | slot ids run on from the `numSlots` the run started with, one per slot row |
| Driver.ParseFailures | Parser.cpp:261-267 | an unbalanced `}` ends the run during pass 1, with pass 1's partial result |
| Extractor.FindClassDefinition | Parser.cpp:227-231 | the gate is set exactly when some line holds `class` and no `;` |
| Extractor.Parser.constructor | Parser.cpp:11-12 | both counters start at 0, and the tables start empty |
| Extractor.Parser.GetNextClassNum | Parser.h:41 | returns the class counter, then increments it; nothing else changes |
| Extractor.Parser.GetNextSlotNum | Parser.h:42 | returns the slot counter, then increments it; nothing else changes |
| Extractor.Parser.InsertClassRow | Parser.cpp:405-409 | inserts one row with the next id and bumps the counter |
| Extractor.Parser.ClassDefinitionLine | Parser.cpp:272-429 | one class-definition line, in either pass, has the effect `ClassLine` specifies |
| Extractor.Parser.ScanHeader | Parser.cpp:241-431 | the scan of a header computes `HeaderFrom` |
| Extractor.Parser.BuildClassTable | Parser.cpp:212-441 | computes `ClassTableSpec` on the store |
| Extractor.Parser.AllocateSlot | Parser.cpp:533-539 | a slot takes the next slot id and becomes one row owned by the class |
| Extractor.Parser.AddLineSlots | Parser.cpp:527-542 | adds the line's quoted slot names in order and extends the index map |
| Extractor.Parser.ReadSlotTable | Parser.cpp:521-546 | reads to the end marker, adds the table's slots, and returns the map from positions to new ids |
| Extractor.Parser.SlotMapLine | Parser.cpp:568-657 | one map entry has the effect `SlotMapEntry` specifies |
| Extractor.Parser.ReadSlotMap | Parser.cpp:566-660 | a map block computes `MapFrom` |
| Extractor.Parser.FindClassPosition | Parser.cpp:556-563 | computes the first position of the class name |
| Extractor.Parser.SourceFileLine | Parser.cpp:472-661 | one turn of the main loop computes `SourceLine` |
| Extractor.Parser.BuildSlotTable | Parser.cpp:443-665 | computes `SlotTableSpec` on the store |
| Extractor.Parser.ReadHeaders | Parser.cpp:164-200 | computes `HeaderPass` |
| Extractor.Parser.ReadSources | Parser.cpp:127-162 | computes `SourcePass` |
| Extractor.Parser.Parse | Parser.cpp:32-125 | a closed database changes nothing; otherwise the run computes `ParseSpec` |

## Left out

- Progress dialogs, cancellation and message boxes are not modelled. A cancelled run clears the tables, and the model has no cancelled run.
- The directory walk (`QDir` listing order, the `*.h` and `*.cpp` filters, recursion into sub-directories) is not modelled. The driver takes the list of headers and the list of implementation files in the order the walk would visit them.
- A file that cannot be opened reads as no lines. `QFile`, `QTextStream` and the file system are not modelled.
- The count of files parsed, shown when a run completes, is not modelled.
- SQL text, quoting and escaping are not modelled. Queries are operations on the three tables. A name holding a quote, which would break the SQL string, is stored as it is.
- Whether the tables are created or cleared with `DELETE` at the start of a run is not modelled. Both leave them empty, and a closed database is a `dbOpen` flag.
- `QString::toInt` skips Unicode whitespace around the number; the model accepts only ASCII spaces.
- Undefined behaviour (out-of-range list reads) and `exit(1)` are modelled as a failure that ends the run and keeps earlier writes. A real run would crash, exit or read garbage.
- Extractor.Parser.GetNextClassNum: the counter is an unbounded integer. The source's 32-bit `int` (Parser.h:36) would overflow past 2^31-1, which is undefined behaviour, and the model does not represent it.
- Extractor.Parser.GetNextSlotNum: likewise unbounded. The 32-bit `int` of Parser.h:37 would overflow past 2^31-1, and the model does not represent that.
- The static counters are fields of the one `Parser` object. Sharing them between several `Parser` objects is not modelled.
- The browser, the tree model, the connection dialog and `main` are not part of this model.
