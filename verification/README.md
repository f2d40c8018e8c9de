# Database Studio: algorithms and protocols, modelled and proved in Dafny

HttpReq's Database Studio packages hold a number of hand-written algorithms and protocol machines:
an index over documents in files of many gigabytes, an edited document kept as pieces of the file, the
BSON and MySQL wire formats, the text form of BSON documents, the scripts and changes that turn one
table or document into another, the layout of table diagrams, the background task system, and the
protocol between the application and its worker processes. Each of them has a simple meaning - a list of
ranges, a sequence of lines, a round trip, a schema, a rule that every run keeps - and a program far from
it. This project states the meanings and proves that the programs have them.

Each area has the same two layers. A specification is made of datatypes, functions and lemmas; the
theorems are lemmas over all inputs, all cuts of an input into chunks, or all runs of a state machine.
Where the source changes variables, fields, arrays or maps step by step, a class or a method with loops
does so too, and its contract says that it computes the specification's function or takes the
specification's step, so the theorems hold of it.

What a result means is said a second time, apart from the functions that compute it: a relation between a
design and its table, a grammar of the document text, of BSON and of decimal numbers, what each event of a
run does to each task, worker and statement. Such relations are written with the names, type bytes and
limits of the formats themselves, and a theorem each says that the functions meet them, in both directions
where there are two.

| area | files |
|---|---|
| table scripts | TableDesign, AlterTable, AlterScript, AlterMeaning |
| documents as text | BsonDocument, BsonDocumentRoundTrip, BsonDocumentExact, BsonReader, ShellGrammar, ShellValues, ShellReading, ShellWriting |
| changes of documents | DocumentDiff, DocumentDelta, DocumentChange |
| BSON and Decimal128 | Decimal128, DecimalGrammar, Bson, BsonGrammar, BsonMeaning, BsonRoundTrip, BsonTags, BsonDecoded, BsonTypes, BsonCursor |
| large files | RangeIndex, Scanner, ScannerLines, ScannerJson, ScannerFiles, ScannerObject |
| edited documents | Pieces, PieceHistory, LinePieceTable |
| event streams | Sse, SseStream, SseParser |
| background tasks | TaskMachine, TaskInvariants, TaskHistory, TaskManager |
| worker processes | WorkerProtocol, WorkerInvariants, WorkerHistory, WorkerLifecycle, WorkerStop, WorkerObjects |
| table diagrams | ErGraph, ErLayout |
| MySQL | Packets, PacketReader, MysqlStream, MysqlResponse, MysqlQuery |
| shared | Wrappers, Letters, Numerals, Texts, Bytes |

`dafny verify dfyconfig.toml` checks everything.

What comes from outside is a parameter: the clock is the time given to each step; dates, UTF-8, base64
and the reading of JavaScript numbers are functions with the few laws that are relied on (`Bson.Sound`);
the comparison that orders tables inside a layer is any rearrangement; ids are fresh; the MongoDB server
splits a path at its dots and refuses one with a part that is empty or begins with a dollar sign. Asynchronous code is a sequence
of steps, each of which is what runs between two awaits.

## What does not hold, and exactly when it does

Some things the code or its comments promise fail on some inputs. The code is modelled as it is; a lemma
names a failing input, and the theorem gives the condition.

- `alterTableSql` does not reach the new design when columns exchange or inherit names, or when an index
  is added while the table is renamed (`SwappedNamesRefused`, `ReusedNameRefused`,
  `IndexOnRenamedTableRefused`). `AlterReachesAfter` states the condition, and `AlterWithoutReuse` a simple
  one that suffices.
- The editor holds values whose text it cannot read back: regular expressions that begin a comment or hold
  a bare slash, 32-bit integers that are none, doubles outside the number syntax (`EmptyPatternLost`,
  `StarPatternLost`, `SlashPatternCut`, `WideIntegerLost` and `NinesLost`, `LeadingDotLost`,
  `MinusInfinityLost`).
  `LeafComesBack` is an equivalence for every leaf, and `ReadInPlace` for every document.
- `diffDocument` reports the removal of a field with a dot in its name as a path the server reads
  differently (`DottedRemovalLost`), although it refuses such names in the edited document. A change below
  a field with an empty name is reported for another place (`EmptyNameMisplaced`), or with an empty part in
  its path, which the server refuses (`EmptyNameRefused`); it also refuses the removal of a field with a
  dollar sign in front (`DollarRemovalRefused`). `ChangeIsExact` is an equivalence in the two documents.
- The comment of bson.ts says that whatever is decoded can be encoded to the same type. `ScalarAccepted`
  and `ValueTaken` say exactly what can be encoded (`DbPointerRefused`, `UpperFlagRefused`), `TypeKept`
  exactly when the type is the same (`WholeDoubleNarrowed`, `SmallInt64Narrowed`, `UndefinedBecomesNull`,
  `ScopeDropped`, `DocumentBecomesObjectId`), and `ReadThenWrite` exactly when the value is
  (`FlagsReordered`). An empty container one level deeper than the reader allows is written all the same
  (`EmptyOneTooDeep`); `WriteThenRead` is an equivalence in the depth.
- A Decimal128 text whose value fits is refused when its exponent, as written, does not
  (`RepresentableRefused`, `OnlyTheExponentRefuses`).
- A worker marked `failed` may be taken up again without a reset by a start that was under way
  (`BrokenLeftWithoutReset`). `BrokenIsLeftBy` says exactly which steps do that, and `BrokenStays` when it
  cannot happen over any run.
- `stop` passes over a worker that is not the one taken for running, and over a start that is under way
  while some worker is taken for running. A worker that was killed and is then heard to be ready brings
  about either (`LateReadySurvivesStop`, `StartSurvivesStop`). `StopLeaves` says for every run exactly when
  `stop` leaves nobody, `GoingOnLeaves` the same for a `stop` that waited for a start, and `StopEndsAll`
  that without such a late message it passes nothing over.
- A byte order mark before a sequence of values, which the guess of the layout skips, is taken for the
  beginning of a number or word (`MarkTakenForValue`); without one `ValuesAreFound` holds.
- Rows already decoded but not yet in a page are dropped when a later row packet is malformed or the
  connection closes (`MalformedRowLeavesRow`, `AbortLeavesRow`); `NoRowLeftBehind` is an equivalence.

## Model

| member | source | states |
|---|---|---|
| `AlterTable.AlterReachesAfter` | packages/db-admin/src/tableDesign.ts:361-551 | for any two valid designs, running the ALTER script of the MySQL dialect on the table of `before` gives exactly the table of `after` when no key that stays names a dropped column, every CHANGE COLUMN finds its new name free, and no index is created in a script that renames the table; otherwise the server refuses a statement |
| `AlterMeaning.AlterMeans` | packages/db-admin/src/tableDesign.ts:361-551 | the same from the fields of the designs alone: started on any table that `before` describes, the script ends in one that `after` describes under just that condition, and is refused otherwise. A column is NOT NULL exactly when it is not nullable, or increments and is not generated; has a default exactly when it has a text for one and neither increments nor is generated; and so on for type, length, unsigned, generation, comment, and for each key with its name |
| `AlterMeaning.SchemaIs` | packages/db-admin/src/tableDesign.ts:275-302 | a design describes exactly one table |
| `AlterMeaning.DefinitionIs` | packages/db-admin/src/tableDesign.ts:118-155 | a column has exactly one definition with the type, nullability, default, generation, increment and comment its fields call for |
| `AlterMeaning.ScriptIs` | packages/db-admin/src/tableDesign.ts:361-551 | a statement is in the script if and only if a difference between the two designs calls for it: a key that does not stay, a key that did not, a column that is gone, new, renamed or changed, another table name, comment or primary key |
| `AlterMeaning.RenamesAre` | packages/db-admin/src/tableDesign.ts:370-381 | the renames are the pairs of different names of columns with the same id |
| `AlterMeaning.SlugJoinsWords` | packages/db-admin/src/tableDesign.ts:105 | a name as part of a constraint name is its words of letters and digits, joined by underscores |
| `AlterMeaning.AutoNameOnly` | packages/db-admin/src/tableDesign.ts:107-115 | the name given to a key without one: prefix, table and columns by their words, cut at 60 characters |
| `AlterMeaning.TrimIs` | packages/db-admin/src/tableDesign.ts:120 | trimming leaves out exactly the blanks at the ends |
| `AlterScript.AlterTableSql` | packages/db-admin/src/tableDesign.ts:361-551 | the loops over keys, columns and indexes give the statement list of the specification, in its order |
| `AlterScript.RenamedColumns` | packages/db-admin/src/tableDesign.ts:373-381 | old names of columns that are matched by id and have another name, with their new names |
| `AlterScript.DropForeignKeys` | packages/db-admin/src/tableDesign.ts:384-398 | one DROP for each foreign key whose name is gone or whose columns (after renames), target or actions differ |
| `AlterScript.DropUniques` | packages/db-admin/src/tableDesign.ts:399-411 | one DROP for each unique key that is gone or changed |
| `AlterScript.DropChecks` | packages/db-admin/src/tableDesign.ts:412-424 | one DROP for each check that is gone or has another expression |
| `AlterScript.DropIndexes` | packages/db-admin/src/tableDesign.ts:425-433 | one DROP for each index that is gone or changed |
| `AlterScript.DroppedColumns` | packages/db-admin/src/tableDesign.ts:448-451 | a DROP COLUMN for every id that is gone |
| `AlterScript.ChangedAndNewColumns` | packages/db-admin/src/tableDesign.ts:452-470 | CHANGE for a renamed column, MODIFY for a changed one, nothing for an equal one, ADD for a new id; each with the definition that `AlterMeaning.DefinitionIs` says |
| `AlterScript.AddUniques` | packages/db-admin/src/tableDesign.ts:515-519 | the unique keys that are new or changed come back after the columns |
| `AlterScript.AddChecks` | packages/db-admin/src/tableDesign.ts:520-524 | the checks that are new or changed come back |
| `AlterScript.AddForeignKeys` | packages/db-admin/src/tableDesign.ts:525-529 | the foreign keys that are new or changed come back |
| `AlterScript.AddIndexes` | packages/db-admin/src/tableDesign.ts:530-538 | the indexes that are new or changed come back, created on the new name of the table |
| `AlterScript.AlterWithoutReuse` | packages/db-admin/src/tableDesign.ts:355-360 | with the table name kept and no column taking a name that is already in use, the script always reaches `after` |
| `AlterScript.AlterThereAndBack` | packages/db-admin/src/tableDesign.ts:355-360 | the script to `after` followed by the script back gives the table it started from |
| `AlterScript.SwappedNamesRefused` | packages/db-admin/src/tableDesign.ts:460-470 | two columns that swap their names: the first CHANGE COLUMN is refused |
| `AlterScript.ReusedNameRefused` | packages/db-admin/src/tableDesign.ts:399-411 | a column that takes the name of a dropped one hides a change of a key; a key that stays names the column that is dropped, and the new design is not reached |
| `AlterScript.IndexOnRenamedTableRefused` | packages/db-admin/src/tableDesign.ts:530-549 | a new index is created on a name the table does not have yet |
| `BsonDocumentExact.LeafComesBack` | packages/db-admin/src/bsonDocument.ts:439-481 | for every leaf at every depth and indentation and whatever follows: it is read from exactly the text written for it if and only if its bare text is read as such and its constructor gives it back |
| `BsonDocumentExact.ReadInPlace` | packages/db-admin/src/bsonDocument.ts:418-481 | for every document: it and every value inside it is read from exactly the text written for it if and only if its bare texts are read as such, it is nested at most 99 deep, its constructor arguments are in their normal form, and no object with one field looks like extended JSON |
| `BsonDocumentExact.ParseUndoesFormat` | packages/db-admin/src/bsonDocument.ts:418-481 | every such document comes back, at every indentation; no other leaf does, and no other document does unless its first bare text that is not read as such opens a comment, a constructor or an object and the text from there on also spells the constructor or key that could give its value |
| `BsonDocumentExact.ValueCost` | packages/db-admin/src/bsonDocument.ts:203-345 | whatever is read as a text, a number or a regular expression is read from at least as many characters as it holds |
| `BsonDocumentExact.ValueLost` | packages/db-admin/src/bsonDocument.ts:203-272 | a document with a bare text that is not read as such is read as another one, or not at all |
| `BsonDocumentExact.SpelledWhenRead` | packages/db-admin/src/bsonDocument.ts:236-345 | a regular expression or double that no bare text is read as is read only from text that holds `RegExp`, or `Double` or an escape |
| `BsonDocumentRoundTrip.RereadBack` | packages/db-admin/src/bsonDocument.ts:203-272 | what the printed text of a node with readable bare texts is read as, at every depth, in front of a comma, a line break, a closing parenthesis or the end |
| `BsonDocumentRoundTrip.RereadItself` | packages/db-admin/src/bsonDocument.ts:378-416 | a node is read as itself exactly when it is canonical, extended JSON included |
| `BsonDocumentRoundTrip.ExtendedIsTaken` | packages/db-admin/src/bsonDocument.ts:378-416 | an object stays an object exactly when it has not one field, or its key and the form of its value are not those of extended JSON |
| `BsonDocumentExact.EmptyPatternLost` | packages/db-admin/src/bsonDocument.ts:439-481 | an empty pattern is printed as a line comment |
| `BsonDocumentExact.StarPatternLost` | packages/db-admin/src/bsonDocument.ts:439-481 | a pattern that begins with a star is printed as an open comment |
| `BsonDocumentExact.SlashPatternCut` | packages/db-admin/src/bsonDocument.ts:236-248 | a slash inside a pattern ends it |
| `BsonDocumentExact.MinusInfinityLost` | packages/db-admin/src/bsonDocument.ts:250-255 | minus infinity is printed as text that is no value |
| `BsonDocumentExact.WideIntegerLost` | packages/db-admin/src/bsonDocument.ts:403-404 | an integer beyond 32 bits is read from `$numberInt` and held, and its text is not read as that |
| `BsonDocumentExact.NinesLost` | packages/db-admin/src/bsonDocument.ts:403-404 | 99999999999 is such an integer |
| `BsonDocumentExact.LeadingDotLost` | packages/db-admin/src/bsonDocument.ts:407-408 | the double `.5` is read from `$numberDouble` and held, and its text is no value |
| `BsonReader.ReadDocument` | packages/db-admin/src/bsonDocument.ts:418-431 | the reader object gives what the parsing function gives on the whole text, so by `ShellReading.DocumentIsExact` the document that the text spells |
| `ShellReading.DocumentIsExact` | packages/db-admin/src/bsonDocument.ts:60-431 | a text is read as a document if and only if it spells that document in the shell grammar: blanks and comments, strings in either quotes with their escapes, numbers, names, regular expressions, constants, `new`, every constructor, arrays and objects with an optional last comma, extended JSON, at most 100 levels |
| `ShellReading.ReadingIsExact` | packages/db-admin/src/bsonDocument.ts:203-375 | the same for each value at each depth, with whatever follows: exactly the text before the rest spells it |
| `ShellReading.OneDocument` | packages/db-admin/src/bsonDocument.ts:418-431 | no text spells two documents |
| `ShellReading.NumberIntIsRead` | packages/db-admin/src/bsonDocument.ts:307-308 | `NumberInt(v)` is a 32-bit integer for every `v` that fits |
| `ShellValues.CallIs` | packages/db-admin/src/bsonDocument.ts:274-345 | for each constructor by name: the value it makes of its arguments, and when it makes none |
| `ShellValues.ExtendedIs` | packages/db-admin/src/bsonDocument.ts:378-416 | for each key of extended JSON: the value its object stands for; any other object stays as it is |
| `ShellValues.NumbersAre` | packages/db-admin/src/bsonDocument.ts:187-195 | a bare number is an integer of 32 or 64 bits by its size, or a double; too large or not finite, none |
| `ShellGrammar.GapFound` | packages/db-admin/src/bsonDocument.ts:77-90 | what is passed over before a value is blanks and comments, and nothing else |
| `ShellGrammar.NumberIsRead` | packages/db-admin/src/bsonDocument.ts:250-255 | a number is taken as far as it goes |
| `ShellGrammar.BodyIsRead` | packages/db-admin/src/bsonDocument.ts:109-163 | each spelling of a string, in either quotes, is read as that string |
| `ShellWriting.DocumentIsPrinted` | packages/db-admin/src/bsonDocument.ts:439-481 | what is printed for any document at any indentation, by type, character by character |
| `ShellWriting.TextIsPrinted` | packages/db-admin/src/bsonDocument.ts:433-438 | a string is printed in the shortest of its spellings without control characters |
| `BsonReader.Reader.SkipBlanks` | packages/db-admin/src/bsonDocument.ts:77-90 | blanks and both kinds of comments are passed, and an open comment is an error |
| `BsonReader.Reader.Peek` | packages/db-admin/src/bsonDocument.ts:92-95 | the next character after blanks |
| `BsonReader.Reader.ExpectChar` | packages/db-admin/src/bsonDocument.ts:97-102 | one given character after blanks, or an error |
| `BsonReader.Reader.ReadString` | packages/db-admin/src/bsonDocument.ts:109-163 | a quoted text with its escapes, or an error when it is not closed |
| `BsonReader.Reader.ReadEscape` | packages/db-admin/src/bsonDocument.ts:122-161 | one escape of a string |
| `BsonReader.Reader.Key` | packages/db-admin/src/bsonDocument.ts:169-184 | a field name, quoted or bare |
| `BsonReader.Reader.Value` | packages/db-admin/src/bsonDocument.ts:203-272 | one value at a depth of at most 100 |
| `BsonReader.Reader.NumberValue` | packages/db-admin/src/bsonDocument.ts:250-255 | the longest number at the place, and its kind |
| `BsonReader.Reader.RegexValue` | packages/db-admin/src/bsonDocument.ts:236-249 | a regular expression up to the first bare slash, with its flags |
| `BsonReader.Reader.WordValue` | packages/db-admin/src/bsonDocument.ts:256-270 | a constant, `new` and a value, or a constructor |
| `BsonReader.Reader.ConstructorValue` | packages/db-admin/src/bsonDocument.ts:274-337 | a constructor with its arguments, made into the value that `ShellValues.CallIs` says |
| `BsonReader.Reader.Args` | packages/db-admin/src/bsonDocument.ts:275-286 | arguments up to the closing parenthesis |
| `BsonReader.Reader.ArrayValue` | packages/db-admin/src/bsonDocument.ts:209-234 | items between brackets, with an optional comma at the end |
| `BsonReader.Reader.ObjectValue` | packages/db-admin/src/bsonDocument.ts:348-375 | fields between braces, taken as extended JSON where they look like it, as `ShellValues.ExtendedIs` says |
| `BsonReader.Reader.Field` | packages/db-admin/src/bsonDocument.ts:356-358 | a name, a colon and a value |
| `DocumentDiff.SameNodeIsEquality` | packages/db-admin/src/bsonDocument.ts:759-775 | `sameNode` holds exactly when the two documents are equal up to the order of fields |
| `DocumentDiff.DiffIsExact` | packages/db-admin/src/bsonDocument.ts:784-818 | the unsets and sets of a successful comparison, run on the original, give the edited document if and only if no removed field has a dot in its name |
| `DocumentDiff.NoPathInsideAnother` | packages/db-admin/src/bsonDocument.ts:784-818 | no path of a change is a prefix of another |
| `DocumentDelta.SetsAre` | packages/db-admin/src/bsonDocument.ts:789-808 | a value is set at a path if and only if the edited document has it there, in an object that both have, and the original has none or another there |
| `DocumentDelta.UnsetsAre` | packages/db-admin/src/bsonDocument.ts:809-811 | a path is unset if and only if only the original has a field there, in an object that both have |
| `DocumentDelta.FailsAre` | packages/db-admin/src/bsonDocument.ts:796-800 | the comparison fails if and only if a field of the edited document, in an object that both have, has a dot in its name or a dollar sign in front |
| `DocumentDelta.IdKeptIs` | packages/db-admin/src/bsonDocument.ts:812-815 | the identity is kept exactly when the original has none or the edited document has an equal one |
| `DocumentChange.Comparison.Visit` | packages/db-admin/src/bsonDocument.ts:789-811 | the walk pushes the sets and unsets of the specification below its prefix, and fails exactly on a name with a dot or a leading dollar sign |
| `DocumentChange.Comparison.VisitField` | packages/db-admin/src/bsonDocument.ts:796-808 | one edited field: new, compared inside, equal or replaced |
| `DocumentChange.Comparison.VisitRemoved` | packages/db-admin/src/bsonDocument.ts:809-811 | an unset for each field that is gone |
| `DocumentChange.DiffDocument` | packages/db-admin/src/bsonDocument.ts:784-818 | not two objects, a changed `_id`, a bad name, or the dotted change |
| `DocumentChange.ChangeIsExact` | packages/db-admin/src/bsonDocument.ts:776-818 | the change as dotted text, split by the server again, gives the edited document if and only if, wherever the comparison goes, no removed field has an empty name, a dot in its name or a dollar sign in front, and no field with an empty name changes |
| `DocumentChange.SendableIs` | packages/db-admin/src/bsonDocument.ts:789-811 | that condition on the two documents is the one on the paths: no dot in a removed name, and no part that is empty or begins with a dollar sign |
| `DocumentChange.DottedRemovalLost` | packages/db-admin/src/bsonDocument.ts:809-811 | the removal of a field `a.b` is reported and leaves the field |
| `DocumentChange.DollarRemovalRefused` | packages/db-admin/src/bsonDocument.ts:809-811 | the removal of a field `$a` is reported and refused |
| `DocumentChange.EmptyNameMisplaced` | packages/db-admin/src/bsonDocument.ts:796-801 | a change inside a field with an empty name at the top is reported as a change of the whole document |
| `DocumentChange.EmptyNameRefused` | packages/db-admin/src/bsonDocument.ts:796-801 | deeper down it is reported with an empty part in its path |
| `DocumentChange.WhatIsSent` | packages/db-admin/src/bsonDocument.ts:796-811 | what is sent of a path is all of it but exactly the empty names it begins with |
| `BsonRoundTrip.WrittenReads` | packages/db-protocol-mongo/src/bson.ts:513-538 | whatever is written for a document, objects that only pass for tagged values included, is read as the document of what each value is read as, with exactly its bytes taken, if and only if it nests at most 100 deep |
| `BsonRoundTrip.WriteThenRead` | packages/db-protocol-mongo/src/bson.ts:532-538 | a document of canonical values that can be written is read back with exactly its bytes taken, if and only if it nests at most 100 deep |
| `BsonMeaning.WrittenMeans` | packages/db-protocol-mongo/src/bson.ts:380-538 | what is written for any document is read as the document in which each pair of a type name and a text stands for the value they name, as a table of the type names says it |
| `BsonMeaning.TagIsMeant` | packages/db-protocol-mongo/src/bson.ts:380-458 | that table: each type name with its type byte, which texts it takes and the value they stand for (`double` is type 0x01 and the number of its text, `int32` 0x10, `int64` 0x12, `date` 0x09, …); writing follows it, and refuses exactly what it does not name |
| `BsonMeaning.RefusedWhenUnnamed` | packages/db-protocol-mongo/src/bson.ts:380-538 | a document nested at most 100 deep is refused exactly when a pair in it names nothing or it is larger than 48 MiB |
| `BsonMeaning.PairType` | packages/db-protocol-mongo/src/bson.ts:460-511 | inside a document a pair is an element of the type it names |
| `BsonMeaning.PairsAreTagged` | packages/db-protocol-mongo/src/bson.ts:342-348 | an object is taken for a tagged value exactly when it is a pair |
| `BsonGrammar.DecodeIsExact` | packages/db-protocol-mongo/src/bson.ts:147-320 | bytes are read as a document if and only if they begin with one by the BSON grammar: lengths, zero bytes, type bytes, integers as signed sums of bytes, the last of several fields with one name |
| `BsonGrammar.OneMeaning` | packages/db-protocol-mongo/src/bson.ts:147-320 | no bytes stand for two documents, and no document is the front of another |
| `BsonGrammar.WrittenIsBson` | packages/db-protocol-mongo/src/bson.ts:513-538 | what is written is BSON by that grammar |
| `BsonGrammar.ObjectIs` | packages/db-protocol-mongo/src/bson.ts:178-193 | of several fields with one name the last value stays, in the place of the first |
| `BsonRoundTrip.FieldsTaken` | packages/db-protocol-mongo/src/bson.ts:460-529 | a document nested at most 100 deep is refused by the writer exactly when an object in it passes for a tagged value of a type or text that cannot be written |
| `BsonRoundTrip.FieldsAccepted` | packages/db-protocol-mongo/src/bson.ts:460-529 | canonical values nested at most 100 deep are never refused by the writer |
| `BsonRoundTrip.WrappedBack` | packages/db-protocol-mongo/src/bson.ts:167-196 | a body with its length in front and a zero behind is read to exactly its end |
| `BsonRoundTrip.TagWritten` | packages/db-protocol-mongo/src/bson.ts:380-458 | each tagged value that reading makes is written as the bytes of its type |
| `BsonRoundTrip.TagAlone` | packages/db-protocol-mongo/src/bson.ts:380-458 | whatever a pair of texts is written as is one value of its type, and nothing behind it is looked at; which value is `BsonMeaning.TagIsMeant` |
| `BsonTags.TagFormIsGood` | packages/db-protocol-mongo/src/bson.ts:200-309 | an object is a tagged value as reading makes it exactly when its type and its text have the form of that type |
| `BsonRoundTrip.KindBack` | packages/db-protocol-mongo/src/bson.ts:200-309 | the bytes of each tagged value are read as that value, whatever follows |
| `BsonRoundTrip.ScalarBack` | packages/db-protocol-mongo/src/bson.ts:460-511 | the bytes of each value without a tag are read as that value, whatever follows |
| `BsonDecoded.ScalarMade` | packages/db-protocol-mongo/src/bson.ts:200-309 | from any bytes, a value without a document is canonical, but for a DBPointer and for flags that are not lower-case letters in order |
| `BsonDecoded.ReadThenWrite` | packages/db-protocol-mongo/src/bson.ts:11-13 | a document read from any bytes can be written, unless it is too large, exactly when every object that passes for a tagged value can; it is read back the same exactly when each of them has the form of a tagged value |
| `BsonTypes.TypeKept` | packages/db-protocol-mongo/src/bson.ts:11-13 | an element of any type, read from any bytes and written again, has its type exactly when it is not a double that holds a safe integer, a 64-bit integer that fits 32 bits, `undefined`, code with a scope, or a document that passes for a tagged value |
| `BsonTypes.ScalarAccepted` | packages/db-protocol-mongo/src/bson.ts:460-511 | a value without a document, read from any bytes, can be written exactly when it is no DBPointer and, of a regular expression, the flags after their last slash are lower-case letters |
| `BsonTypes.ValueTaken` | packages/db-protocol-mongo/src/bson.ts:460-529 | any value, read from any bytes, can be written exactly when the objects in it that pass for tagged values can |
| `BsonTypes.ScalarElement` | packages/db-protocol-mongo/src/bson.ts:460-511 | the type that each element without a document is written with |
| `BsonTypes.DbPointerRefused` | packages/db-protocol-mongo/src/bson.ts:255-262 | a DBPointer that was read cannot be written |
| `BsonTypes.UpperFlagRefused` | packages/db-protocol-mongo/src/bson.ts:410-422 | a regular expression with a flag in upper case is read and cannot be written |
| `BsonTypes.FlagsReordered` | packages/db-protocol-mongo/src/bson.ts:410-422 | flags out of order are written in order, so another value is read back |
| `BsonTypes.WholeDoubleNarrowed` | packages/db-protocol-mongo/src/bson.ts:469-484 | the double 5 is written as a 32-bit integer |
| `BsonTypes.SmallInt64Narrowed` | packages/db-protocol-mongo/src/bson.ts:469-478 | every 64-bit integer that fits 32 bits is written as one of 32 bits |
| `BsonTypes.UndefinedBecomesNull` | packages/db-protocol-mongo/src/bson.ts:463 | `undefined` is written as null |
| `BsonTypes.ScopeDropped` | packages/db-protocol-mongo/src/bson.ts:268-274 | code with a scope is written as code without one |
| `BsonTypes.DocumentBecomesObjectId` | packages/db-protocol-mongo/src/bson.ts:509 | a document of two texts that looks like an ObjectId is written as one |
| `BsonTypes.EmptyOneTooDeep` | packages/db-protocol-mongo/src/bson.ts:460-462 | documents nested 101 deep around an empty one are written, and not read |
| `BsonCursor.DecodeDocument` | packages/db-protocol-mongo/src/bson.ts:312-320 | one document at an offset, and the offset just past it |
| `BsonCursor.Cursor.CString` | packages/db-protocol-mongo/src/bson.ts:147-153 | text up to a zero byte inside the document |
| `BsonCursor.Cursor.LengthPrefixed` | packages/db-protocol-mongo/src/bson.ts:155-165 | text after its length, with its zero byte |
| `BsonCursor.Cursor.DocumentAt` | packages/db-protocol-mongo/src/bson.ts:167-196 | a document or array: length, limits, terminator, elements |
| `BsonCursor.Cursor.Elements` | packages/db-protocol-mongo/src/bson.ts:178-193 | the loop over elements builds the array and sets the fields, a later one of the same name in place of the earlier |
| `BsonCursor.Cursor.AnyValue` | packages/db-protocol-mongo/src/bson.ts:200-309 | a value of any type at its depth |
| `BsonCursor.Cursor.ScalarValue` | packages/db-protocol-mongo/src/bson.ts:200-309 | a value of a type that holds no document |
| `BsonCursor.Cursor.BinaryValue` | packages/db-protocol-mongo/src/bson.ts:210-226 | binary data: plain, a UUID or of another subtype |
| `BsonCursor.Cursor.ScopeValue` | packages/db-protocol-mongo/src/bson.ts:283-289 | code with a scope, whose scope is dropped |
| `Decimal128.PatternsReturn` | packages/db-protocol-mongo/src/bson.ts:59-131 | for each of the 2^128 patterns, writing its text gives the canonical pattern of the same value, which has the same text |
| `Decimal128.CanonicalStays` | packages/db-protocol-mongo/src/bson.ts:59-131 | a finite pattern with at most 34 digits comes back bit for bit |
| `Decimal128.ValueKept` | packages/db-protocol-mongo/src/bson.ts:111-130 | the pattern written for an accepted number has its sign and its exact value, with zeros folded into the exponent |
| `Decimal128.OnlyTheExponentRefuses` | packages/db-protocol-mongo/src/bson.ts:119-128 | a number that fits 34 digits is refused exactly when the exponent it is written with, after folding, is out of range |
| `Decimal128.RepresentableRefused` | packages/db-protocol-mongo/src/bson.ts:125-128 | 1E+6112 is refused although 10E+6111 is the same number |
| `DecimalGrammar.ReadingIsExact` | packages/db-protocol-mongo/src/bson.ts:94-131 | a text is read as a number, or refused for its size, if and only if it is spelled as that number: sign, digits, point, exponent, or one of the words; anything else is no number |
| `DecimalGrammar.WrittenForm` | packages/db-protocol-mongo/src/bson.ts:59-91 | each finite pattern is written in full or scientifically, with its sign, all digits of its coefficient and its exponent |
| `DecimalGrammar.OneForm` | packages/db-protocol-mongo/src/bson.ts:76-91 | there is one text of that form |
| `DecimalGrammar.SmallLayout` | packages/db-protocol-mongo/src/bson.ts:59-75 | a pattern is a sign bit, an exponent of 14 bits and a coefficient of 113 |
| `DecimalGrammar.LargeLayout` | packages/db-protocol-mongo/src/bson.ts:59-75 | in the form for larger coefficients the value is zero |
| `DecimalGrammar.WordLayout` | packages/db-protocol-mongo/src/bson.ts:59-75 | infinities and NaN, whatever their other bits |
| `Decimal128.BytesToText` | packages/db-protocol-mongo/src/bson.ts:59-91 | the text of sixteen bytes, the lowest first |
| `Decimal128.TextToBytes` | packages/db-protocol-mongo/src/bson.ts:94-131 | sixteen bytes for a text, or why it has none |
| `Decimal128.FoldZeros` | packages/db-protocol-mongo/src/bson.ts:117-121 | the loop that moves trailing zeros beyond 34 digits into the exponent |
| `Scanner.ChunksDoNotMatter` | packages/document-engine/src/scanner.ts:73-76 | in all three formats, feeding chunks is feeding the whole file |
| `Scanner.AnyBytesInOrder` | packages/document-engine/src/scanner.ts:112-328 | on any bytes the recorded ranges are in order and disjoint, so the index refuses one only for its size |
| `ScannerLines.LinesAreFound` | packages/document-engine/src/scanner.ts:139-163 | the entries of a JSON Lines file are the trimmed contents of its lines that are not blank |
| `ScannerJson.ElementsAreFound` | packages/document-engine/src/scanner.ts:167-318 | a well-formed array file of values nested at most 4,096 deep, in any layout, with or without a byte order mark: one unflagged entry for each element with exactly its bytes, unless a range exceeds 4 GiB |
| `ScannerJson.ValuesAreFound` | packages/document-engine/src/scanner.ts:119-318 | well-formed values one after another: one unflagged entry for each value with exactly its bytes |
| `ScannerJson.MarkTakenForValue` | packages/document-engine/src/scanner.ts:216-264 | behind a byte order mark the first entry of a sequence starts at 0, whatever follows |
| `ScannerFiles.AnyFileIsScanned` | packages/document-engine/src/scanner.ts:119-328 | any bytes as an array or sequence file: exactly the entries of its tokens, unflagged for a value that ends, flagged as damaged where something stands that cannot, flagged as cut for a string or container the file ends in; after damage the scan takes up again at the first bracket that begins a line; the scan fails exactly when one of them or a gap is larger than 4 GiB |
| `ScannerObject.JsonDocumentScanner.Take` | packages/document-engine/src/scanner.ts:112-117 | a chunk takes the object to the state the step function reaches on its bytes |
| `ScannerObject.JsonDocumentScanner.Close` | packages/document-engine/src/scanner.ts:119-135 | the end of the file records what it cuts off, flagged unless it is a number or word |
| `ScannerObject.JsonDocumentScanner.FeedLines` | packages/document-engine/src/scanner.ts:139-150 | the loop over line breaks of one chunk |
| `ScannerObject.JsonDocumentScanner.TakeLinePart` | packages/document-engine/src/scanner.ts:153-163 | the part of a line in this chunk is folded into its content |
| `ScannerObject.JsonDocumentScanner.FeedValues` | packages/document-engine/src/scanner.ts:167-214 | the loop over one chunk, including the bytes that are looked at twice |
| `ScannerObject.JsonDocumentScanner.BetweenRun` | packages/document-engine/src/scanner.ts:216-264 | the bytes between values |
| `ScannerObject.JsonDocumentScanner.StringRun` | packages/document-engine/src/scanner.ts:266-285 | the bytes of a string |
| `ScannerObject.JsonDocumentScanner.ContainerRun` | packages/document-engine/src/scanner.ts:287-318 | the bytes of an object or array; the bracket stack is never indexed out of bounds |
| `ScannerObject.JsonDocumentScanner.Damaged` | packages/document-engine/src/scanner.ts:321-327 | the damaged part is recorded with the error flag |
| `RangeIndex.RangeIndex.Add` | packages/db-core/src/rangeIndex.ts:55-80 | a range is appended to the list, or refused for its order or its size and nothing changes |
| `RangeIndex.RangeIndex.SetCheckpoint` | packages/db-core/src/rangeIndex.ts:122-129 | the checkpoints grow when they are full and keep their values |
| `RangeIndex.RangeIndex.Get` | packages/db-core/src/rangeIndex.ts:83-92 | the i-th range added, with its flags, from the nearest checkpoint |
| `RangeIndex.RangeIndex.IndexAt` | packages/db-core/src/rangeIndex.ts:98-115 | the least index whose end lies beyond an offset, or -1 exactly when there is none |
| `Pieces.NormalFormUnique` | packages/editor-core/src/pieceTable.ts:250-272 | two piece lists in normal form that stand for the same lines are equal |
| `Pieces.Normalize` | packages/editor-core/src/pieceTable.ts:250-272 | the same lines, no empty piece and no two neighbours that continue one another |
| `LinePieceTable.LinePieceTable.Splice` | packages/editor-core/src/pieceTable.ts:82-104 | a splice is delete-then-insert on the lines; an emptied document is one empty line |
| `LinePieceTable.LinePieceTable.Restore` | packages/editor-core/src/pieceTable.ts:111-122 | the document becomes the given pieces, unless one names lines the file does not have |
| `LinePieceTable.LinePieceTable.SetLine` | packages/editor-core/src/pieceTable.ts:133-136 | one line is replaced |
| `LinePieceTable.LinePieceTable.Undo` | packages/editor-core/src/pieceTable.ts:138-144 | one step back in the history |
| `LinePieceTable.LinePieceTable.Redo` | packages/editor-core/src/pieceTable.ts:146-152 | one step forward in the history |
| `LinePieceTable.LinePieceTable.Segments` | packages/editor-core/src/pieceTable.ts:155-185 | exactly the requested lines, from cached starts and a binary search, with no empty part |
| `LinePieceTable.LinePieceTable.Read` | packages/editor-core/src/pieceTable.ts:191-206 | the texts of exactly the requested lines; a short read keeps their number |
| `LinePieceTable.LinePieceTable.OriginalLineAt` | packages/editor-core/src/pieceTable.ts:209-212 | the line of the file a line is, if it is one |
| `LinePieceTable.LinePieceTable.Dirty` | packages/editor-core/src/pieceTable.ts:61-63 | dirty exactly when a line differs, in origin or text, from what was saved |
| `LinePieceTable.LinePieceTable.Take` | packages/editor-core/src/pieceTable.ts:214-219 | a new edit: the last 500 points behind, none ahead |
| `LinePieceTable.LinePieceTable.Set` | packages/editor-core/src/pieceTable.ts:221-225 | the total is the sum of the sizes and the cache is dropped |
| `LinePieceTable.LinePieceTable.StartsOf` | packages/editor-core/src/pieceTable.ts:227-236 | the cached starts are where the pieces start |
| `PieceHistory.UndoRestores` | packages/editor-core/src/pieceTable.ts:138-144 | undoing the last k edits, for k up to 500, gives exactly what was there before them |
| `PieceHistory.MovesStayOnTheLine` | packages/editor-core/src/pieceTable.ts:138-152 | undo and redo move along one line of points, and one takes back the other |
| `PieceHistory.TimelineKept` | packages/editor-core/src/pieceTable.ts:138-152 | no run of undos and redos changes the line of points |
| `PieceHistory.AlwaysBounded` | packages/editor-core/src/pieceTable.ts:214-219 | over any run there are at most 500 points besides the current one |
| `Sse.PiecesDoNotMatter` | packages/api-client/src/responses.ts:295-310 | however the text is cut, also inside a CRLF, the events and the state are the same |
| `Sse.WrittenComesBack` | packages/api-client/src/responses.ts:327-338 | parsing what was written gives the same events if and only if they are numbered from 1 and clean |
| `Sse.Renumbered` | packages/api-client/src/responses.ts:327-338 | clean events come back with new numbers |
| `Sse.ParsedIsClean` | packages/api-client/src/responses.ts:252-322 | whatever the text, the events given are clean and numbered from 1 |
| `SseStream.StreamMeans` | packages/api-client/src/responses.ts:252-322 | the events of any text are those of its blocks of lines between blank ones: each with data gives one, with the joined data, the last event name, the last identifier without a zero character and the last whole number to retry after |
| `SseParser.Parser.Push` | packages/api-client/src/responses.ts:295-310 | the loop over whole lines of the buffer |
| `SseParser.Parser.Flush` | packages/api-client/src/responses.ts:311-321 | the end of the stream takes the cut line and gives an unfinished event |
| `SseParser.Parser.HandleLine` | packages/api-client/src/responses.ts:279-292 | one line: a field, a comment, or the blank line that gives the event |
| `SseParser.Parser.Dispatch` | packages/api-client/src/responses.ts:260-277 | the event of the lines since the last blank one, and a clean slate |
| `TaskInvariants.RunKeeps` | packages/db-core/src/tasks.ts:143-443 | over every run: at most `maxConcurrent` tasks at work and exactly as many while one waits, start in submission order, paused exactly in PAUSED, every wait answered once or kept by a paused task, a cancelled task has a timer that ends it, at most `keepFinished` finished tasks listed, listeners always shown the current state, progress paced |
| `TaskInvariants.StepKeeps` | packages/db-core/src/tasks.ts:166-443 | each operation keeps all of that |
| `TaskInvariants.PumpFills` | packages/db-core/src/tasks.ts:287-292 | pumping leaves no room unused while a task waits, and starts tasks in order |
| `TaskInvariants.FinishKeeps` | packages/db-core/src/tasks.ts:335-355 | finishing restores everything |
| `TaskInvariants.StepLives` | packages/db-core/src/tasks.ts:14-23 | an operation takes each task along at most one edge of its life and never changes its start or end time |
| `TaskInvariants.FinishedForGood` | packages/db-core/src/tasks.ts:140-141 | a finished task keeps its state and end time over any further run |
| `TaskHistory.HowTasksEnd` | packages/db-core/src/tasks.ts:211-355 | in every run a task is COMPLETED if and only if its runner returned while it was neither finished nor cancelled, FAILED if and only if its runner threw something other than a cancel while it was neither, and CANCELLED or on its way there if and only if it was cancelled before, or its runner threw that it was |
| `TaskHistory.RunTurns` | packages/db-core/src/tasks.ts:166-443 | for each event of each run: the next state, progress, times, flags, timers, answered waits, listing and deliveries of every task, from those before |
| `TaskHistory.StepTurns` | packages/db-core/src/tasks.ts:166-443 | the same for each operation in any state that keeps the rules |
| `TaskHistory.RoomIsUsed` | packages/db-core/src/tasks.ts:287-301 | after every run at most `maxConcurrent` tasks are at work, and while one waits just as many, and nothing submitted after it has started |
| `TaskManager.BackgroundTaskManager.Submit` | packages/db-core/src/tasks.ts:166-199 | a task is queued, shown, and started if there is room |
| `TaskManager.BackgroundTaskManager.Cancel` | packages/db-core/src/tasks.ts:211-230 | a waiting task is finished, a working one told to stop, with a timer behind it |
| `TaskManager.BackgroundTaskManager.Pause` | packages/db-core/src/tasks.ts:232-238 | a running task is paused |
| `TaskManager.BackgroundTaskManager.Resume` | packages/db-core/src/tasks.ts:240-247 | a paused task runs again and its waits are answered |
| `TaskManager.BackgroundTaskManager.Remove` | packages/db-core/src/tasks.ts:250-255 | a finished task is forgotten |
| `TaskManager.BackgroundTaskManager.Pump` | packages/db-core/src/tasks.ts:287-292 | the loop that starts waiting tasks while there is room |
| `TaskManager.BackgroundTaskManager.Start` | packages/db-core/src/tasks.ts:294-301 | a task begins to run |
| `TaskManager.BackgroundTaskManager.WaitIfPaused` | packages/db-core/src/tasks.ts:310-313 | a wait is answered at once, or kept while the task is paused |
| `TaskManager.BackgroundTaskManager.RunnerEnds` | packages/db-core/src/tasks.ts:315-332 | how a runner ends decides how its task finishes, unless it has: returned, COMPLETED; threw, FAILED; cancelled, CANCELLED (`TaskHistory.StepTurns`) |
| `TaskManager.BackgroundTaskManager.GraceTimerFires` | packages/db-core/src/tasks.ts:225-229 | a runner that ignores the cancel is given up |
| `TaskManager.BackgroundTaskManager.Finish` | packages/db-core/src/tasks.ts:335-355 | a task ends; old finished ones go and waiting ones start |
| `TaskManager.BackgroundTaskManager.Trim` | packages/db-core/src/tasks.ts:358-365 | the oldest finished tasks beyond the limit are forgotten |
| `TaskManager.BackgroundTaskManager.Wake` | packages/db-core/src/tasks.ts:367-371 | every wait of the task is answered |
| `TaskManager.BackgroundTaskManager.Report` | packages/db-core/src/tasks.ts:373-387 | progress of a task that is not finished |
| `TaskManager.BackgroundTaskManager.Issue` | packages/db-core/src/tasks.ts:389-400 | an issue is counted |
| `TaskManager.BackgroundTaskManager.Emit` | packages/db-core/src/tasks.ts:424-442 | a change of state is shown now, progress now or when the interval ends |
| `TaskManager.BackgroundTaskManager.TimerFires` | packages/db-core/src/tasks.ts:437-440 | the newest numbers go out when the interval ends |
| `WorkerInvariants.RunKeeps` | packages/db-workers/src/supervisor.ts:100-331 | over any interleaving of requests, cancels, timeouts, answers, crashes and stops: no caller is answered twice, an unanswered caller is kept by the worker of its request, and every answer is the one its own handler gave |
| `WorkerInvariants.AnswersAreTrue` | packages/db-workers/src/supervisor.ts:277-287 | each id is settled at most once, and with an answer only if its own handler gave just that |
| `WorkerInvariants.NobodyLeftWaiting` | packages/db-workers/src/supervisor.ts:233-253 | once the exit of a worker is handled every caller that waited for it has been answered |
| `WorkerInvariants.NobodyWaitsForTheGone` | packages/db-workers/src/supervisor.ts:233-253 | in every run no request is pending on a worker whose exit was handled |
| `WorkerInvariants.FailCallers` | packages/db-workers/src/supervisor.ts:289-298 | failing what is pending answers every caller of this worker and no other |
| `WorkerInvariants.NothingIsLost` | packages/db-workers/src/server.ts:33-58 | a pending request of a live worker is on its way, with its handler or on the way back; when all is quiet nobody waits |
| `WorkerInvariants.StoppedForGood` | packages/db-workers/src/supervisor.ts:325-327 | `stopped` is never left |
| `WorkerHistory.RunTurns` | packages/db-workers/src/supervisor.ts:100-331 | for each event of each run: what becomes of the supervisor, of every worker, of its callers, its handlers and its messages, and who is answered |
| `WorkerHistory.StepTurns` | packages/db-workers/src/supervisor.ts:100-331 | the same for each event in any state that keeps the rules |
| `WorkerHistory.CancelsReach` | packages/db-workers/src/server.ts:38-46 | in every run the flag of a handler at work is set if and only if a cancel of that very request has reached its worker while it was at work |
| `WorkerHistory.AnswersHaveReasons` | packages/db-workers/src/supervisor.ts:105-161 | in every run each answer was given at an event that is the reason for it: the message of the worker, the own cancel, the own timeout, the exit, or a stop |
| `WorkerLifecycle.AnswersAreFinal` | packages/db-workers/src/supervisor.ts:277-287 | over every run the answers callers got only grow: none is taken back, and no late answer adds a second |
| `WorkerLifecycle.BrokenIsLeftBy` | packages/db-workers/src/supervisor.ts:163-331 | apart from a reset and a stop, a step takes the mark `failed` away exactly when a delay ends that was under way (unless that start fails and crashes are too many), a worker reports ready, or an exit is seen when few crashes are recent |
| `WorkerLifecycle.BrokenStays` | packages/db-workers/src/supervisor.ts:163-179 | with no start under way and no worker left that lives or has said it is ready, the mark stays and nothing is started, over any run without a reset or a stop |
| `WorkerLifecycle.BrokenLeftWithoutReset` | packages/db-workers/src/supervisor.ts:211-226 | a run in which the mark goes without a reset |
| `WorkerStop.StopLeaves` | packages/db-workers/src/supervisor.ts:153-161 | after every run: `stop` leaves no caller waiting and no worker alive but one whose start it waits for, if and only if no worker but the one taken for running is ready and lives or has callers, and no start is under way, unwaited for, while some worker is taken for running |
| `WorkerStop.GoingOnLeaves` | packages/db-workers/src/supervisor.ts:156-160 | in every run a `stop` whose start has given a worker can go on, and then leaves no caller and no worker alive if and only if no other worker is ready and lives or has callers |
| `WorkerStop.StopEndsAll` | packages/db-workers/src/supervisor.ts:153-161 | after a run without a late ready `stop` passes nothing over |
| `WorkerStop.RunFits` | packages/db-workers/src/supervisor.ts:163-253 | in every run a start waits for just the last worker while that is unsettled, a rejected worker is dead, and only a ready worker whose exit was not seen has callers |
| `WorkerStop.RunPlaced` | packages/db-workers/src/supervisor.ts:163-253 | in every run without a late ready a worker that lives runs or is waited for, and callers wait for the one that runs only |
| `WorkerStop.LateReadySurvivesStop` | packages/db-workers/src/supervisor.ts:153-161 | a run with a late ready after which `stop` leaves a live worker and its caller |
| `WorkerStop.StartSurvivesStop` | packages/db-workers/src/supervisor.ts:156-160 | a run with a late ready during a start after which `stop` does not wait for that start, and the worker that comes up is never ended |
| `WorkerObjects.WorkerSupervisor.Ensure` | packages/db-workers/src/supervisor.ts:163-179 | refused when stopped or failed; else the running worker or one start |
| `WorkerObjects.WorkerSupervisor.DelayEnds` | packages/db-workers/src/supervisor.ts:181-212 | a worker is created, unless stopped in between or the factory throws |
| `WorkerObjects.WorkerSupervisor.Register` | packages/db-workers/src/supervisor.ts:105-144 | a request gets a fresh id, is kept and sent |
| `WorkerObjects.WorkerSupervisor.Abandon` | packages/db-workers/src/supervisor.ts:118-132 | a cancelled or timed-out caller is answered once and the worker told |
| `WorkerObjects.WorkerSupervisor.GraceEnds` | packages/db-workers/src/supervisor.ts:127-130 | a worker that ignores a cancel is killed |
| `WorkerObjects.WorkerSupervisor.ReadyTimesOut` | packages/db-workers/src/supervisor.ts:198-206 | a worker that is not ready in time is killed |
| `WorkerObjects.WorkerSupervisor.OnReady` | packages/db-workers/src/supervisor.ts:211-226 | ready with the right version, or killed |
| `WorkerObjects.WorkerSupervisor.OnAnswer` | packages/db-workers/src/supervisor.ts:277-287 | an answer settles its own request once |
| `WorkerObjects.WorkerSupervisor.ExitSeen` | packages/db-workers/src/supervisor.ts:233-253 | an exit fails what is pending and counts as a crash unless stopped |
| `WorkerObjects.WorkerSupervisor.FailPending` | packages/db-workers/src/supervisor.ts:289-298 | the loop that answers every waiting caller |
| `WorkerObjects.WorkerSupervisor.RecentCrashes` | packages/db-workers/src/supervisor.ts:313-317 | only crashes inside the window are kept |
| `WorkerObjects.WorkerSupervisor.RecordCrash` | packages/db-workers/src/supervisor.ts:319-323 | a crash is counted and decides between `crashed` and `failed` |
| `WorkerObjects.WorkerSupervisor.SetState` | packages/db-workers/src/supervisor.ts:325-330 | `stopped` is kept |
| `WorkerObjects.WorkerSupervisor.Reset` | packages/db-workers/src/supervisor.ts:148-151 | crashes are forgotten and starting is allowed again |
| `WorkerObjects.WorkerSupervisor.Stop` | packages/db-workers/src/supervisor.ts:154-161 | what is pending is answered and the worker killed |
| `WorkerObjects.WorkerSupervisor.StopGoesOn` | packages/db-workers/src/supervisor.ts:156-160 | the same for a worker whose start was under way |
| `WorkerObjects.WorkerServer.OnMessage` | packages/db-workers/src/server.ts:38-46 | a request gets an abort flag, a cancel reaches a request at work |
| `WorkerObjects.WorkerServer.HandlerEnds` | packages/db-workers/src/server.ts:47-54 | one answer for a handler that returns or throws |
| `ErLayout.AutoLayout` | packages/db-admin/src/er.ts:277-376 | every table is placed once with its size, no two boxes overlap and boxes of one column lie `gap.y` apart, for any relationships; a table lies wholly to the right of each table it references unless that relationship lies on a cycle |
| `ErGraph.FinishOrder` | packages/db-admin/src/er.ts:299-318 | every table is finished once, after its children but those that lead back to it |
| `ErGraph.Visit` | packages/db-admin/src/er.ts:301-316 | the search with an explicit stack terminates and finishes what it reaches |
| `ErGraph.AllForward` | packages/db-admin/src/er.ts:319-324 | every edge that lies on no cycle goes forward in the reversed finish order |
| `ErGraph.NoWayBack` | packages/db-admin/src/er.ts:322-324 | in a graph without cycles no edge leads back, so the order is topological |
| `ErGraph.Ranks` | packages/db-admin/src/er.ts:320-326 | longest-path ranks: each table one past the last of its forward parents, and 0 without any |
| `ErGraph.RankChildren` | packages/db-admin/src/er.ts:321-325 | one table moves its children past it |
| `ErGraph.PlacesOf` | packages/db-admin/src/er.ts:319 | where each table stands in the reversed order |
| `ErGraph.EdgesAre` | packages/db-admin/src/er.ts:280-288 | an edge for every one-sided relationship between two different listed tables, and no other |
| `ErGraph.ChildLists` | packages/db-admin/src/er.ts:294-297 | the children of each table, in order |
| `ErLayout.LayersOf` | packages/db-admin/src/er.ts:328-329 | each table is in the layer of its rank, once |
| `ErLayout.SortedKeys` | packages/db-admin/src/er.ts:330 | the ranks in ascending order |
| `ErLayout.PackLayer` | packages/db-admin/src/er.ts:358-374 | a layer is packed top down without overlap, each box `gap.y` below the one before, a new column `gap.x / 2` further right where the height would pass 2400, wholly right of what is there |
| `ErLayout.PackLayers` | packages/db-admin/src/er.ts:354-375 | lower ranks end before higher ones begin |
| `Packets.FramesComeBack` | packages/db-protocol-mysql/src/packets.ts:23-101 | payloads framed, concatenated and cut anywhere come back in order with the number of their last frame, multiples of 16 MiB - 1 included |
| `Packets.OneComesBack` | packages/db-protocol-mysql/src/packets.ts:45-58 | a payload comes back exactly when its full frames hold at most 1 GiB, and is refused otherwise |
| `Packets.ChunksDoNotMatter` | packages/db-protocol-mysql/src/packets.ts:30-60 | however the bytes are cut the packets are the same |
| `Packets.UpToOneGibibyte` | packages/db-protocol-mysql/src/packets.ts:15-16 | every payload of at most 1 GiB is accepted; the exact limit is 65 full frames |
| `Packets.LengthComesBack` | packages/db-protocol-mysql/src/packets.ts:165-218 | every length up to 2^53 - 1 is read back, whatever follows |
| `Packets.FramesAre` | packages/db-protocol-mysql/src/packets.ts:82-101 | a payload is sent as frames with three bytes of length, lowest first, and a number that wraps at 256; each but the last holds 16,777,215 bytes and the last fewer |
| `Packets.LengthRead` | packages/db-protocol-mysql/src/packets.ts:165-174 | a length below 251 is its own byte, and otherwise the two, three or eight bytes behind 0xfc, 0xfd or 0xfe |
| `PacketReader.PacketReader.Push` | packages/db-protocol-mysql/src/packets.ts:30-60 | the loop over whole frames in the chunks |
| `PacketReader.PacketReader.OneFrame` | packages/db-protocol-mysql/src/packets.ts:38-57 | one frame is kept, completes a packet, or is too much |
| `PacketReader.PacketReader.Peek` | packages/db-protocol-mysql/src/packets.ts:62-65 | the first bytes, across chunks |
| `PacketReader.PacketReader.Take` | packages/db-protocol-mysql/src/packets.ts:67-78 | the first bytes are taken, across chunks |
| `PacketReader.FramePacket` | packages/db-protocol-mysql/src/packets.ts:82-101 | the loop that cuts a payload into frames |
| `PacketReader.PayloadReader.LenEnc` | packages/db-protocol-mysql/src/packets.ts:165-174 | a length-encoded integer at the cursor |
| `MysqlStream.RunKeeps` | packages/db-protocol-mysql/src/connection.ts:143-362 | over every run: the row count of the queue is right, a paused socket has more than 5,000 rows queued, events are delivered in order and none is lost until the consumer stops, pages hold 1 to `pageRows` rows, every end counts the rows since its columns, a consumer waits only when there is nothing |
| `MysqlStream.NeverStalls` | packages/db-protocol-mysql/src/connection.ts:180-202 | a consumer never waits on a paused socket |
| `MysqlStream.NoRowLeftBehind` | packages/db-protocol-mysql/src/connection.ts:176-352 | in every run, when the response ends, every row read is in a page exactly when the page was empty or the packet that ends it is an error packet or the end of the rows |
| `MysqlStream.AbortLeavesRow` | packages/db-protocol-mysql/src/connection.ts:176-178 | a connection that closes while a page fills leaves a row behind |
| `MysqlStream.MalformedRowLeavesRow` | packages/db-protocol-mysql/src/connection.ts:345-352 | a row that cannot be read leaves the row before it behind |
| `MysqlResponse.ResponseIsRead` | packages/db-protocol-mysql/src/connection.ts:254-355 | a response of well-formed result sets, each but the last marked as followed by more, gives exactly their columns, their rows in pages, and their ends, and the statement finishes with the last packet and not before, whatever the consumer does in between |
| `MysqlResponse.EndIsRecognised` | packages/db-protocol-mysql/src/connection.ts:266-343 | when the packet that ends the rows, or an OK packet at the start, is handled the statement becomes finished if and only if its status cannot be read or says that nothing follows; otherwise it is at the start again |
| `MysqlResponse.RunTurns` | packages/db-protocol-mysql/src/connection.ts:143-362 | for each event of each run: the phase, counts, page, queue, pause, consumer and end, from those before and what the packet is |
| `MysqlResponse.StepTurns` | packages/db-protocol-mysql/src/connection.ts:143-362 | the same for each event in any state that keeps the rules |
| `MysqlResponse.OneReading` | packages/db-protocol-mysql/src/connection.ts:254-355 | in each phase a packet is one thing only, by its first byte, its length and its contents |
| `MysqlQuery.MysqlQuery.Handle` | packages/db-protocol-mysql/src/connection.ts:254-355 | one packet takes one step |
| `MysqlQuery.MysqlQuery.HandleStart` | packages/db-protocol-mysql/src/connection.ts:259-287 | an error, an OK, a refused file request, or a column count |
| `MysqlQuery.MysqlQuery.HandleColumn` | packages/db-protocol-mysql/src/connection.ts:288-298 | one column; after the last the rows begin |
| `MysqlQuery.MysqlQuery.HandleRow` | packages/db-protocol-mysql/src/connection.ts:303-353 | an error, the end, or a row |
| `MysqlQuery.MysqlQuery.HandleTerminator` | packages/db-protocol-mysql/src/connection.ts:313-343 | the last page, the end with its count, and then the next result set or the end of the statement (`MysqlResponse.EndIsRecognised`) |
| `MysqlQuery.MysqlQuery.Next` | packages/db-protocol-mysql/src/connection.ts:182-202 | an event, an error, the end, or a wait |
| `MysqlQuery.MysqlQuery.Return` | packages/db-protocol-mysql/src/connection.ts:203-213 | the queue is dropped and the socket runs on |
| `MysqlQuery.MysqlQuery.Emit` | packages/db-protocol-mysql/src/connection.ts:217-226 | an event is queued, the consumer woken, the socket paused when the queue is long |
| `MysqlQuery.MysqlQuery.FlushPage` | packages/db-protocol-mysql/src/connection.ts:247-252 | a page that is not empty is queued |
| `MysqlQuery.MysqlQuery.Abort` | packages/db-protocol-mysql/src/connection.ts:176-178 | a closed connection fails a statement that is not finished |

## Left out

- PostgreSQL: the other branch of `alterTableSql` is not modelled.
- SQL spelling: statements are values; quoting, literals and type text are kept only as far as they decide whether two columns are equal.
- ReusedNameRefused: the schema machine refuses to drop a column that a key names; MySQL takes the column out of its indexes. Either way the new design is not reached.
- Index filters: a design keeps the filter of an index and it decides whether two indexes are equal; the statement of the MySQL dialect does not write it, so the table of the model carries it along.
- Letter case: names of types and words are compared without case for ASCII letters only.
- Server rules beyond names: column names that differ only in letter case are different here; implicit indexes of foreign keys, the key an AUTO_INCREMENT column needs, the columns a self-reference points at, and column names inside check expressions are not part of the schema machine.
- `createTableSql`, `designFromMetadata` and reading server definitions are not modelled.
- ParseUndoesFormat: for a document of several values whose first unreadable bare text opens a comment, a constructor or an object, and behind which the text spells a constructor that could give that value, it is shown that not every value is read from its own text (`ReadInPlace`), and not that the others never make up for it.
- Timestamps and binary subtypes that are not finite numbers: `JSON.stringify` writes them all as null, so `sameNode` takes them for equal; the model keeps them apart.
- Error texts and positions of the document parser: a failed read is a missing result. A `$date` with a bad `$numberLong`, which throws a RangeError in the source, is such a failure.
- Surrogates: texts are sequences of Unicode scalar values, so an escape of half a surrogate pair is a failed read, and UTF-8 is an injection.
- Duplicate field names in the two documents that are compared: `diffDocument` keeps the last of them, the model assumes distinct names.
- Objects whose field names look like array indexes, which JavaScript reorders; the names stay in the order they were set.
- Numbers as arithmetic: a double is eight opaque bytes, and which of them are safe integers is a parameter; a subtype in a tag name beyond 2^53 is read exactly.
- `undefined` fields of documents to be encoded: the model has none.
- detectJsonFormat: the guess of the layout is not modelled; the format is given.
- Saved pieces with a negative line count, which `restore` does not refuse: counts are natural numbers.
- TextDecoder and the time of arrival of event stream pieces: the parser gets decoded text.
- Task info, stages, messages, issue lists, checkpoints, percentages and elapsed times: a snapshot has a state, a progress value, an error count and two times.
- Submitting a task under an id that is in use, a runner that throws before its first await, and listeners that call back into the manager are excluded.
- Events that workers push to subscribers, and messages that are no protocol messages, change nothing that is modelled.
- The gap in `autoLayout` is not negative, and table ids are distinct; with a negative gap boxes may overlap.
- Edge endpoints, bounds and building the diagram's model from metadata are not modelled.
- Field texts of MySQL rows: reading a column, a row, or an OK packet is a parameter that may fail. The rest of the connection, its handshake and authentication are not modelled.
- Two requests for the next event at the same time: the consumer of a statement asks again only when it has got the one before.
- PayloadReader: of the primitive types only the length-encoded integer is modelled.
