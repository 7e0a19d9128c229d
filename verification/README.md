# Verified models of the planner's algorithms

This project models the parts of the planner whose correctness can be stated without its database, its network or its user
interface, and proves what those parts promise. `dafny verify dfyconfig.toml` checks all of it.

- **QR codes** (`Gf256`, `ReedSolomon`, `Bch`, `QrData`, `Interleave`, `Zigzag`, `QrLayout`, `QrGrid`, `QrPlacement`, `QrSymbol`,
  `QrPenalty`, `QrPenaltyLaws`, `QrEncode`, read back by `QrStandard` and `QrReader`). From field arithmetic by tables to a
  finished symbol, and from there, through a strict reader written after ISO/IEC 18004 with tables and figures of its own, to
  exactly the payload.
- **Scheduling** (`Digraph`, `Cascade`, `CascadeLoop`, `CascadeSettling`, `CascadeExample`, `CycleCheck`, `TaskTable`,
  `PlanActions`, `PlanLaws`, `PlanSettling`, `PlanStore`). The forward cascade on any graph, the cycle check, and the
  dependency graph over every run of the task actions.
- **Archives** (`Crc32`, `Zip`, `ZipReader`). The checksum as polynomial division, the store-only writer, and a strict reader that
  goes by the end record and the directory and checks every field.
- **Tables as text** (`JsText`, `CsvReader`, `CsvDocument`, `CsvWriter`, `CsvDetect`, `CsvLaws`). What the lenient parser makes of
  every text, both writers, and the guess of the delimiter.
- **Calendar lines** (`Utf8`, `Ical`, `IcalFold`). Escaping and folding against unescaping and unfolding (RFC 5545).
- **One-time passwords** (`Base32`, `Decimal`, `Totp`). Base32 through an overflowing accumulator, and codes over any keyed hash of
  twenty bytes (RFC 4648, RFC 4226, RFC 6238).
- **Durations** (`Duration`, `DurationText`). The printer and the parser of the command line.
- **Worker pool** (`WorkerPool`). Every interleaving of workers over a shared counter.
- **Billing** (`Plans`, `Subscription`, `BillingState`, `Billing`, `BillingLaws`, `Webhook`). Reconciling an organization with Stripe.
- **Percentiles** (`Percentile`). Interpolated and rounded, in exact arithmetic.

`Arith`, `Bitwise`, `Bits`, `MachineByte`, `Sequences` and `Wrappers` hold what several of these need.

Loops of the programs are methods over the same variables, proved against a function of the inputs; objects and tables that
they update in place are classes and arrays. What the functions mean is then stated by lemmas: a round trip with an independent
reader, an independent definition, or an invariant over every run. The readers of symbols and archives have tables of their own.
Machine words are numbers with the wrap-around written out; `Gf256.BvMul` connects the field arithmetic with machine bytes.

## Where the code differs from what one might expect

- The cascade does not always leave every dependent behind all of its dependencies: a task that is shifted again after it was
  processed is skipped (server/cascade.ts:82). `CascadeExample.DoesNotSettle` is an example, `CascadeSettling.LayeredAbsorbs`
  a condition under which it does not happen, and `Cascade.NeverTooFar` and `Cascade.MovesAreSound` hold regardless.
- `task.set_dependencies` and `task.update` cascade from the edited task but never move that task itself, so that a dependency
  which ends after it starts stays broken. `CascadeSettling.LayeredSettles`, `PlanSettling.SetDependenciesSettles` and
  `PlanSettling.UpdateSettles` say exactly when everything holds; `PlanSettling.EditedTaskStays` is an edit after which it does not.
- Penalty rule 3 counts overlapping lookalikes once (server/auth/qr.ts:363-384), where its comment reads as if every occurrence
  counted. `QrPenalty.CountsAllWhenApart` says exactly when this makes a difference.
- With no error-correction codewords asked for, the shift register still returns one zero for nonempty data
  (`ReedSolomon.NoneAskedFor`).
- A CSV grid whose text begins with a byte order mark loses it, and rows that are empty or one blank cell are dropped;
  `CsvWriter.RoundTrip` says exactly when a grid comes back unchanged, and `CsvWriter.ExportReadsBack` when an export does. With
  one column, a record without a value there is lost (`CsvWriter.EmptyRecordLost`).
- Folding a line longer than 75 octets replaces a lone surrogate; a short line keeps it.
- An organization stored under the first price list's name `hosted` is read as Team, and that name is rewritten only if another
  column changes with it (`Billing.HostedStays`).
- The empty event id, once forgotten, still counts as processed (server/billing/webhook.ts:126): `Webhook.Forgotten` says
  that it is the only such id.
- If Stripe ever reported a Business subscription without a seat item after one had been cached, every update event would post a
  seat quantity again (`Billing.MissingItemPostsAgain`); with an item on the answer it settles after one post
  (`Billing.UpdateSettles`, `BillingLaws.PostSettles`).

## Model

| member | source | states |
|---|---|---|
| `Gf256.BvMul` | server/auth/qr.ts:81-84 | The product on numbers is the shift-and-xor product of machine bytes modulo x^8 + x^4 + x^3 + x^2 + 1 |
| `Gf256.MulAssoc` | server/auth/qr.ts:81-84 | Multiplication of bytes is associative; with `MulComm`, `MulXorRight` and `MulNonzero` the bytes are a field |
| `Gf256.MulComm` | server/auth/qr.ts:81-84 | Multiplication is commutative |
| `Gf256.MulXorRight` | server/auth/qr.ts:81-84 | Multiplication distributes over exclusive-or |
| `Gf256.MulNonzero` | server/auth/qr.ts:81-84 | No product of nonzero bytes is zero |
| `Gf256.AlphaPrimitive` | server/auth/qr.ts:70-79 | Every nonzero byte is one of the first 255 powers of alpha, so that `LOG` is defined on all of them |
| `Gf256.AlphaDistinct` | server/auth/qr.ts:70-79 | Those 255 powers are distinct, so that no entry of `LOG` is overwritten |
| `Gf256.Tables.constructor` | server/auth/qr.ts:68-79 | The filling loops leave `EXP[i] = alpha^i` for all 512 entries and `LOG` its inverse |
| `Gf256.Tables.GfMul` | server/auth/qr.ts:81-84 | The table lookup equals carry-less multiplication modulo 0x11D, for all bytes including zero |
| `ReedSolomon.GeneratorPoly` | server/auth/qr.ts:87-98 | The nested loops build the generator polynomial of that degree |
| `ReedSolomon.GeneratorIsProduct` | server/auth/qr.ts:86-98 | The value of the generator at any x is the product of x - alpha^i |
| `ReedSolomon.EcCodewords` | server/auth/qr.ts:101-113 | The shift register computes the remainder, for any data and any number of codewords |
| `ReedSolomon.NoneAskedFor` | server/auth/qr.ts:101-113 | With no codewords asked for, nonempty data still leave one zero |
| `ReedSolomon.CodewordVanishes` | server/auth/qr.ts:100-113 | Data followed by its codewords vanishes at alpha^0 to alpha^(n-1) (ISO/IEC 18004:2015, section 7.5.2) |
| `ReedSolomon.CodewordUnique` | server/auth/qr.ts:100-113 | The remainder is the only string of n codewords, n up to 255, with that property |
| `Bch.Encode` | server/auth/qr.ts:117-122 | The word is the value followed by check bits, and a multiple of the generator over GF(2) |
| `Bch.BchWordUnique` | server/auth/qr.ts:117-122 | Value and generator leave only one such word |
| `Bch.FormatBits` | server/auth/qr.ts:124-127 | The fifteen format bits of section 7.9 |
| `Bch.FormatReadsBack` | server/auth/qr.ts:124-127 | Level and mask are read back from any format word |
| `Bch.VersionBits` | server/auth/qr.ts:129-132 | The eighteen version bits are a multiple of 0x1f25 |
| `QrData.ChooseVersion` | server/auth/qr.ts:152-158 | The smallest version that holds the payload; fails only if none does |
| `QrData.DataCodewords` | server/auth/qr.ts:161-183 | Fails exactly when the payload does not fit; otherwise exactly as many codewords as the version takes, carrying header, payload, terminator and alternating pads |
| `QrData.TerminatorIsFour` | server/auth/qr.ts:170-176 | The terminator is never cut short in byte mode |
| `QrData.PayloadReadsBack` | server/auth/qr.ts:161-183 | A reader of the byte-mode header gets exactly the payload |
| `Interleave.InterleaveBlocks` | server/auth/qr.ts:196-204 | The loops push the blocks column by column |
| `Interleave.InterleaveCodewords` | server/auth/qr.ts:186-205 | Data cut into blocks, each with its error correction, both interleaved |
| `Interleave.TakesBack` | server/auth/qr.ts:186-205 | De-interleaving undoes interleaving for any block layout, whatever follows |
| `Interleave.SplitJoins` | server/auth/qr.ts:188-195 | The blocks are exactly the data |
| `Interleave.StreamReadsBack` | server/auth/qr.ts:186-205 | A reader that checks every block gets the data back, for any data, layout and amount of error correction |
| `Zigzag.PathMember` | server/auth/qr.ts:333-351 | The zigzag visits exactly the cells outside column 6 |
| `Zigzag.PathDistinct` | server/auth/qr.ts:333-351 | It visits none of them twice |
| `Zigzag.FreeCellsInOrder` | server/auth/qr.ts:333-351 | The free cells come in the order of the standard: strips from the right, every other one upwards, the right-hand column of a row first |
| `Zigzag.OrderDecides` | server/auth/qr.ts:333-351 | That order leaves only one way to list a set of cells |
| `QrPlacement.PlaceData` | server/auth/qr.ts:333-351 | Every free cell, in zigzag order, holds its masked stream bit; no reserved cell changes; for any grid of odd size |
| `QrLayout.DataCellsAre` | server/auth/qr.ts:333-351 | The cells left for data are distinct and exactly the ones with no function pattern |
| `QrLayout.RoomForCodewords` | server/auth/qr.ts:21-46 | In every version there are exactly eight such cells for each codeword, and none or seven left over |
| `QrStandard.MaskIs` | server/auth/qr.ts:319-330 | The mask formulas invert exactly the modules that the standard says, by a table of its own, for all rows and columns |
| `QrStandard.TableAgrees` | server/auth/qr.ts:21-46 | The table of blocks is what dealing the codewords out evenly over the blocks of the standard gives |
| `QrStandard.FitsIs` | server/auth/qr.ts:146-158 | A payload fits exactly up to the number of bytes that the standard lists for version and level |
| `QrStandard.PatternsShown` | server/auth/qr.ts:231-317 | What is painted is what the figures show: finders, timing, alignment, the dark module, and both copies of the protected version |
| `QrGrid.Grid.PlaceFinder` | server/auth/qr.ts:231-242 | Finder and separator, cut off at the edge; nothing else changes |
| `QrGrid.Grid.PlaceAlignment` | server/auth/qr.ts:244-258 | Every alignment pattern but the three under finders; nothing else changes |
| `QrGrid.Grid.PlaceTiming` | server/auth/qr.ts:260-266 | The timing patterns; nothing else changes |
| `QrGrid.Grid.ReserveFormat` | server/auth/qr.ts:268-289 | Exactly the format and version areas are reserved, and the dark module is set |
| `QrGrid.Grid.WriteFormat` | server/auth/qr.ts:291-305 | Both copies of the format bits; no other module changes |
| `QrGrid.Grid.WriteVersion` | server/auth/qr.ts:307-317 | Both copies of the version bits from version 7 on; no other module changes |
| `QrSymbol.AlignmentOnTiming` | server/auth/qr.ts:244-266 | Where alignment and timing patterns cross they agree, so the order of painting does not show |
| `QrSymbol.FindersApart` | server/auth/qr.ts:226-289 | No finder overlaps any other pattern or area |
| `QrSymbol.Build` | server/auth/qr.ts:481-493 | A built grid has every function pattern, the format bits and the data at once |
| `QrReader.FormatCells` | server/auth/qr.ts:291-305 | The reader's table of format cells and the writer's index agree on all fifteen bits of both copies |
| `QrReader.SymbolReadsBack` | server/auth/qr.ts:475-514 | A reader with masks, blocks, figures and count lengths of its own, which rejects a missing pattern, unprotected information, a syndrome or wrong padding, gets the payload |
| `QrPenalty.LineRuns` | server/auth/qr.ts:407-419 | The running counter adds L - 2 for each maximal run of length L of at least five |
| `QrPenalty.CountBlocks` | server/auth/qr.ts:427-432 | Three for each two-by-two block of one colour |
| `QrPenalty.N3Occurrences` | server/auth/qr.ts:371-384 | Forty for each qualifying lookalike that does not overlap one counted before it |
| `QrPenalty.CountsAllWhenApart` | server/auth/qr.ts:371-384 | All qualifying lookalikes are counted exactly when no two of them overlap |
| `QrPenalty.OverlapCountedOnce` | server/auth/qr.ts:363-384 | A line on which two qualifying lookalikes overlap and one is left out |
| `QrPenalty.DarkScore` | server/auth/qr.ts:445-448 | Ten for each full five per cent that the dark share strays from one half |
| `QrPenalty.Scores` | server/auth/qr.ts:402-451 | All four rules on any square matrix |
| `QrPenalty.ScoreUnique` | server/auth/qr.ts:402-451 | The four rules leave no freedom |
| `QrPenaltyLaws.RunsAreWindows` | server/auth/qr.ts:407-419 | Rule 1 counts one for each window of five of one colour, and two more for each run that has one |
| `QrPenaltyLaws.UniformScores` | server/auth/qr.ts:402-451 | The scores of a matrix of one colour, in numbers |
| `QrPenaltyLaws.LightMargin` | server/auth/qr.ts:371-384 | Four light modules on one side make a lookalike count, and three on both do not |
| `QrPenaltyLaws.PenaltyIs` | server/auth/qr.ts:453-457 | What mask selection minimises is the sum of the four scores |
| `QrEncode.SymbolUnique` | server/auth/qr.ts:481-493 | Version, level, mask and stream decide every module |
| `QrEncode.ChooseMask` | server/auth/qr.ts:495-510 | The first of the eight masks with the least penalty |
| `QrEncode.EncodeQr` | server/auth/qr.ts:475-514 | Fails exactly when it must; otherwise either format copy leads that reader to exactly the input bytes, the version is the smallest and the mask the first best unless given |
| `QrEncode.FailsExactly` | server/auth/qr.ts:152-158 | Without a fixed version it fails exactly beyond 271 bytes at level L and 213 at level M |
| `CascadeLoop.CascadeFrom` | server/cascade.ts:59-132 | The queue, guard and overlay compute exactly the changes of the specification `Final`, on any list of tasks, and each change has the deadline that goes with its new start |
| `CascadeLoop.ChangesAre` | server/cascade.ts:112-131 | Every change is later than the stored start, with its deadline recomputed or dropped; no task is reported twice, and what is not reported has not moved |
| `CascadeLoop.BuildDependents` | server/cascade.ts:66-74 | The reverse adjacency, with repetitions and order |
| `Cascade.LatestEndIs` | server/cascade.ts:90-109 | The latest end among scheduled dependencies |
| `Cascade.MovesAreSound` | server/cascade.ts:76-131 | On every graph, cyclic or not: only tasks downstream of the root move, each strictly forward; the deadline goes along by the duration where there are both, and is dropped otherwise |
| `Cascade.NeverTooFar` | server/cascade.ts:76-131 | No start passes that of any feasible schedule |
| `Cascade.SettledIsLeast` | server/cascade.ts:76-131 | The result is feasible exactly when it is settled, and then it is the least feasible schedule |
| `CascadeSettling.LayeredSettles` | server/cascade.ts:59-132 | On layered tasks without cycles, whatever the edit did to the edges of the root, every dependency holds afterwards exactly if those of the root held before |
| `CascadeSettling.LayeredAbsorbs` | server/cascade.ts:59-132 | On layered tasks every task but the root waits for its dependencies afterwards |
| `CascadeSettling.RootWaitsAsBefore` | server/cascade.ts:59-132 | On a graph without cycles the cascade changes nothing about whether the root waits |
| `CascadeSettling.RootEdgesHold` | server/cascade.ts:59-132 | On every acyclic graph whatever depends directly on the root waits for it |
| `CascadeExample.DoesNotSettle` | server/cascade.ts:80-84 | Four tasks, consistent and in order but for the edge that the edit of the root broke, on which a second shift is dropped at the `seen` guard and a dependency stays broken |
| `CycleCheck.Search` | server/cascade.ts:150-161 | The explicit-stack search finds the target exactly if there is a path |
| `CycleCheck.WouldCreateCycle` | server/cascade.ts:138-163 | True exactly when the graph with this task's dependencies replaced has a cycle through it |
| `CycleCheck.PatchedAcyclic` | server/cascade.ts:138-163 | On an acyclic graph the replacement keeps it acyclic exactly if no cycle goes through the edited node |
| `CycleCheck.RefusesExactlyCycles` | server/cascade.ts:134-163 | So the check refuses exactly the lists that would make the graph cyclic |
| `TaskTable.CheckedIs` | server/plan/taskOps.ts:512-530 | Accepted exactly when every entry is a known other task; then the same ids, each once |
| `PlanLaws.InOrderGiven` | server/plan/taskOps.ts:512-530 | Accepted ids stand in the order in which they first came |
| `PlanLaws.FirstFault` | server/plan/taskOps.ts:520-524 | A list is refused for its first faulty entry, with the error that says what is wrong |
| `TaskTable.NewTaskAcyclic` | server/actions/plan.ts:262-306 | A created task cannot close a cycle |
| `PlanActions.DeletedGraph` | server/actions/plan.ts:664-696 | Stripping and deleting leaves the old graph without the deleted node and its edges |
| `PlanActions.ApplyKeeps` | server/actions/plan.ts:204-696 | Every accepted action keeps ids unique and the graph acyclic and free of dangling ids |
| `PlanActions.EveryRunIsConsistent` | server/actions/plan.ts:204-696 | From an empty plan, no sequence of actions produces a cycle or a dangling id |
| `PlanLaws.CreatedRows` | server/actions/plan.ts:262-311 | One more row with the given fields and the accepted list; its cascade moves nothing |
| `PlanLaws.FoundOrCreated` | server/actions/plan.ts:204-231 | Nothing for a known key, otherwise one row without dates and dependencies |
| `PlanLaws.UpdatedRows` | server/actions/plan.ts:354-436 | Each field of the row is that of the patch where it has one and the old one otherwise; the cascade carries other rows only |
| `PlanLaws.DependenciesSet` | server/actions/plan.ts:539-556 | The accepted list and no other field of the row; the cascade carries other rows only |
| `PlanLaws.DeletedRows` | server/actions/plan.ts:659-696 | One row less, and every other row as it was but for this dependency |
| `PlanSettling.SetDependenciesSettles` | server/actions/plan.ts:539-556 | On layered tasks: after the action every dependency holds exactly if the edited task starts behind all of its new ones |
| `PlanSettling.UpdateSettles` | server/actions/plan.ts:354-436 | The same for the start and the dependencies that an update leaves; one that touches neither dates nor dependencies leaves the plan as it is |
| `PlanSettling.EditedTaskStays` | server/actions/plan.ts:545-556 | A consistent, settled table and an accepted edit after which a dependency does not hold |
| `PlanStore.AssertDependencies` | server/plan/taskOps.ts:516-530 | The loop with its two sets returns exactly the specified list or error |
| `PlanStore.PlanBoard.ApplyCascade` | server/plan/taskOps.ts:543-586 | Every change of the cascade is written back and nothing else |
| `PlanStore.PlanBoard.Create` | server/actions/plan.ts:262-311 | The action on the rows, and no change when refused |
| `PlanStore.PlanBoard.FindOrCreate` | server/actions/plan.ts:204-231 | The action on the rows: a known key changes nothing |
| `PlanStore.PlanBoard.Update` | server/actions/plan.ts:354-436 | The action on the rows, and no change when refused |
| `PlanStore.PlanBoard.SetDependencies` | server/actions/plan.ts:539-556 | The action on the rows, and no change when refused |
| `PlanStore.PlanBoard.Delete` | server/actions/plan.ts:659-696 | The strip loop and the deletion, and no change when refused |
| `PlanStore.PlanBoard.Perform` | server/actions/plan.ts:204-696 | Any action keeps the rows consistent |
| `Crc32.TableWorks` | server/export/zip.ts:15-23 | A table step is eight single steps |
| `Crc32.CrcTable.Run` | server/export/zip.ts:15-29 | The table-driven loop equals bit-at-a-time division by the reflected polynomial, for any start and buffer |
| `Crc32.Crc32Of` | server/export/zip.ts:25-29 | The check value of the whole buffer |
| `Crc32.RegisterIs` | server/export/zip.ts:25-29 | The register is what division leaves of the start mixed with the buffer as one number |
| `Crc32.SameCrc` | server/export/zip.ts:25-29 | Buffers of one length share a check value exactly when their difference is divisible by the polynomial |
| `Crc32.BurstDetected` | server/export/zip.ts:25-29 | Buffers that differ only within four consecutive bytes, one byte among them, never share a check value |
| `Crc32.CrcFits` | server/export/zip.ts:25-29 | The register stays within 32 bits |
| `Crc32.PolyTerms` | server/export/zip.ts:19-19 | The constant is the polynomial of ISO 3309, by its exponents |
| `Crc32.OnesAndNothing` | server/export/zip.ts:26-28 | The register starts with ones and is inverted at the end |
| `Zip.DosDateTime` | server/export/zip.ts:37-43 | The packed fields, years before 1980 as 1980 |
| `Zip.StampReadsBack` | server/export/zip.ts:37-43 | Every field reads back, to two seconds, and the date fits its field exactly up to the year 2107 |
| `Zip.WriteUIntLE` | server/export/zip.ts:59-68 | A value is written least significant byte first, or refused exactly when it is too large |
| `Zip.Starts` | server/export/zip.ts:58-69 | The offsets of all fields of the three records are where the widths put them |
| `Zip.ZipStore` | server/export/zip.ts:49-110 | Fails exactly when something does not fit its field; otherwise writes the archive |
| `ZipReader.ArchiveReadsBack` | server/export/zip.ts:49-110 | Extraction through end record, directory and local headers gives every entry in order. The reader checks every field of all three records, the local headers against the directory, and every CRC (ZIP APPNOTE, sections 4.3.7, 4.3.12, 4.3.16) |
| `ZipReader.EntriesComeBack` | server/export/zip.ts:49-110 | Every entry comes out under its name, with its bytes and its time to two seconds |
| `CsvReader.ParseGrid` | server/importers/csv.ts:52-121 | The loop with its flags computes exactly the specified grid |
| `CsvReader.KeepRows` | server/importers/csv.ts:120-120 | Rows of one blank cell are dropped, all others kept in order |
| `CsvLaws.KeptIs` | server/importers/csv.ts:120-120 | Dropped is exactly a row of one cell of white space |
| `CsvDocument.GridIsRows` | server/importers/csv.ts:43-121 | The grid of any document is its fields: plain, quoted, quoted with text behind, or left open; any mix of LF, CR and CR LF; with or without a last line end |
| `CsvDocument.EveryGrid` | server/importers/csv.ts:43-121 | Every text is such a document, so the result of the parser is known for every text |
| `CsvWriter.ReadsBack` | server/importers/csv.ts:243-253 | A written grid comes back without its empty rows and lone blank cells, also behind a byte order mark |
| `CsvWriter.RoundTrip` | server/importers/csv.ts:52-253 | The grid comes back unchanged exactly when no row is empty or one blank cell and the text does not begin with a byte order mark |
| `CsvLaws.QuotedIfNeeded` | server/importers/csv.ts:243-248 | A cell is written as it is exactly if it has no delimiter, quote or line break |
| `CsvLaws.RowsEnd` | server/importers/csv.ts:251-253 | Every row ends in CR LF |
| `CsvLaws.MarkDropped` | server/importers/csv.ts:43-45 | A byte order mark in front makes no difference |
| `CsvLaws.GuardIs` | server/export/csv.ts:10-13 | An apostrophe goes before exactly what begins with one of the six characters of a formula |
| `CsvLaws.ExportedCell` | server/export/csv.ts:20-24 | Columns in the first row, and under each what every record has there |
| `CsvWriter.ExportReadsBack` | server/export/csv.ts:2-24 | The importer reads back exactly the guarded cells of an export if and only if no row is without cells or one blank cell and the text begins with no byte order mark; without the mark the other rows come back in any case, and no cell starts a formula |
| `CsvWriter.EmptyRecordLost` | server/export/csv.ts:16-24 | With one column, a record that has nothing in it is lost |
| `CsvDetect.FirstLogicalLine` | server/importers/csv.ts:143-158 | Up to the first line break behind an even number of quotes |
| `CsvDetect.CountOutsideQuotes` | server/importers/csv.ts:160-176 | The occurrences behind an even number of quotes |
| `CsvDetect.DetectDelimiter` | server/importers/csv.ts:127-140 | The first candidate that occurs most often, the comma if none does |
| `CsvDetect.OwnDelimiter` | server/importers/csv.ts:123-253 | A written file is read with its own delimiter exactly when no other candidate is seen more often in the header, nor as often if preferred, and a one-cell header was written with the comma |
| `CsvLaws.LineIs` | server/importers/csv.ts:143-158 | The header line ends at the first line break behind an even number of quotes |
| `CsvLaws.CountAppend` | server/importers/csv.ts:160-176 | A character counts exactly behind an even number of quotes |
| `CsvLaws.CandidatesAre` | server/importers/csv.ts:23-23 | Comma, semicolon, tab and bar; the guess occurs most often, and is the comma if none occurs |
| `Utf8.TextBack` | server/ical.ts:59-69 | Going through UTF-8 loses nothing exactly when no surrogate stands alone |
| `Utf8.DecodeBack` | server/ical.ts:59-69 | Decoding gives back what was encoded |
| `Ical.UnescapeBack` | server/ical.ts:38-49 | Unescaping restores the value with every line break as LF |
| `Ical.EscapeTells` | server/ical.ts:43-49 | Two values are written alike exactly when they differ in their line breaks only |
| `Ical.OneLine` | server/ical.ts:43-49 | An escaped value has no line break |
| `Ical.StrictlyReadBack` | server/ical.ts:38-49 | A reader that takes only what the grammar of section 3.3.11 allows, every comma and semicolon behind a backslash, gets the value with its line breaks as LF |
| `Ical.NormalisedIs` | server/ical.ts:48-48 | CR LF is one line break, and so is each of the two by itself |
| `IcalFold.WalkBack` | server/ical.ts:66-67 | The inner loop stops at the beginning of a character |
| `IcalFold.FoldLine` | server/ical.ts:58-74 | Terminates, never splits a character and fills each line as far as it goes |
| `IcalFold.LinesShort` | server/ical.ts:51-74 | No physical line is longer than 75 octets |
| `IcalFold.LinesFull` | server/ical.ts:58-74 | A line is folded exactly if it has more than 75 octets, and every physical line but the last has at least 72 |
| `IcalFold.ContentLine` | server/ical.ts:76-79 | Name, parameters, a colon and the escaped value, folded |
| `IcalFold.UnfoldRestores` | server/ical.ts:51-74 | Unfolding restores the line exactly when it was short or has no lone surrogate |
| `IcalFold.ContentReadsBack` | server/ical.ts:76-79 | A reader that unfolds, takes the front off and unescapes has the value, up to its line breaks |
| `Base32.ShiftIn` | server/auth/totp.ts:25-25 | The accumulator may overflow 32 bits, but its low bits are always the pending ones |
| `Base32.Encode` | server/auth/totp.ts:20-34 | The letters of the bits of the buffer, five at a time |
| `Base32.Decode` | server/auth/totp.ts:36-52 | Fails exactly at a character outside the alphabet; otherwise the whole bytes of the bits |
| `Base32.RoundTrip` | server/auth/totp.ts:19-52 | Decoding gives back every buffer, and the text has ceil(8n / 5) letters |
| `Base32.Canonical` | server/auth/totp.ts:19-52 | Encoding what was decoded gives the text back exactly when less than five bits are left over and they are zeros |
| `Base32.AlphabetIs` | server/auth/totp.ts:17-17 | The alphabet, letter by letter |
| `Base32.CleanIs` | server/auth/totp.ts:37-37 | Padding at the very end and then every space is dropped, and small letters count as capitals |
| `Base32.Example` | server/auth/totp.ts:20-34 | The first example of RFC 4648, section 10 |
| `Totp.HighAndLow` | server/auth/totp.ts:61-63 | The two words of the counter are its eight bytes, big-endian |
| `Totp.Hotp` | server/auth/totp.ts:60-69 | The code of a counter; a negative or too large counter is refused |
| `Totp.TruncatedIs` | server/auth/totp.ts:65-67 | The last four bits of the digest say where the number begins: 32 bits without the first |
| `Totp.CounterBits` | server/auth/totp.ts:61-63 | The message is the 64 bits of the counter, highest first |
| `Totp.CodeReads` | server/auth/totp.ts:68-68 | The code read as a decimal number is the truncated value to so many digits |
| `Totp.Example` | server/auth/totp.ts:65-68 | The example of RFC 4226, section 5.4 |
| `Totp.CodesTell` | server/auth/totp.ts:66-68 | A code is that many digits, and two codes are equal exactly when the truncated values are, to that many digits |
| `Totp.AnyMatch` | server/auth/totp.ts:94-101 | Every candidate of the window is compared; true exactly when one matches |
| `Totp.WindowFits` | server/auth/totp.ts:94-95 | Every counter of the window has to fit into eight bytes |
| `Totp.VerifyTotp` | server/auth/totp.ts:84-102 | The whole check, with its early exit and both ways to fail |
| `Totp.AcceptedNearby` | server/auth/totp.ts:71-102 | A code is accepted at any time within the window around its making |
| `Totp.CounterIs` | server/auth/totp.ts:71-73 | The counter is the number of whole steps since the epoch, before it a negative one |
| `Totp.OnlyDigitsAppend` | server/auth/totp.ts:90-90 | What is not a digit is left out of a supplied code |
| `Decimal.PaddedDigits` | server/auth/totp.ts:68-68 | A padded number is exactly its digits |
| `Duration.ParseDuration` | cli/src/args.ts:144-163 | The loop over matches computes the specified result |
| `DurationText.GroupsReadBack` | cli/src/args.ts:140-163 | Any list of numbers with units, spaces and capitals aside, is read as its sum in minutes |
| `DurationText.Accepts` | cli/src/args.ts:140-163 | Exactly a bare number, or numbers with units and nothing else, is a duration |
| `DurationText.PrintedReadBack` | cli/src/table.ts:133-140 | Every printed duration is read back as its number of minutes |
| `DurationText.GroupWorth` | cli/src/args.ts:157-159 | An hour is sixty minutes, sixty seconds are one, by the first letter of the unit |
| `DurationText.HourNames` | cli/src/args.ts:149-149 | The spellings of the hour, with `MinuteNames` and `SecondNames` for the other units |
| `DurationText.BareNumber` | cli/src/args.ts:147-147 | A bare number is that many minutes |
| `DurationText.RoundIs` | cli/src/args.ts:166-166 | The result is the nearest hundredth, halves up |
| `DurationText.PrintedForm` | cli/src/table.ts:134-140 | As many hours as there are, then the minutes, and neither if there are none of it |
| `WorkerPool.AlwaysSafe` | server/ai/concurrency.ts:19-38 | In every interleaving: as many workers as the limit or the items, whichever is less, and at least one; no more calls in flight, no item at two workers, every written result the value of its call, items taken in order |
| `WorkerPool.ClaimsStay` | server/ai/concurrency.ts:29-33 | Each item keeps the one worker that took it |
| `WorkerPool.RunsAreShort` | server/ai/concurrency.ts:28-36 | No run is longer than two steps an item and one a worker |
| `WorkerPool.NoDeadlock` | server/ai/concurrency.ts:28-36 | There is a step to take until every worker is done |
| `WorkerPool.CanFinish` | server/ai/concurrency.ts:28-37 | Every reachable state leads to an end |
| `WorkerPool.Outcome` | server/ai/concurrency.ts:9-38 | At the end the map has resolved with all values in input order exactly when no call is rejected |
| `WorkerPool.Pool.Claim` | server/ai/concurrency.ts:30-32 | The shared counter and the workers after a claim |
| `WorkerPool.Pool.Settle` | server/ai/concurrency.ts:32-32 | The shared results and the workers after a call has settled |
| `Plans.NameReadsBack` | server/billing/plans.ts:66-70 | A plan survives being stored |
| `Plans.KeysTell` | server/billing/plans.ts:326-341 | Every lookup key names one role, whatever is configured |
| `Plans.PriceIdTells` | server/billing/plans.ts:342-353 | A configured price is read back as its plan exactly when no offer tried earlier has the same id |
| `BillingLaws.LookupKeys` | server/billing/plans.ts:231-243 | What each of the eight registered keys stands for |
| `BillingLaws.SoldAsIs` | server/billing/plans.ts:274-279 | A plan is sold under its configured id, and Team by the month under the old variable if it has none |
| `BillingLaws.SeatIdTells` | server/billing/plans.ts:343-354 | An id that sells no plan is a seat of the month, of the year, or a meter, in this order |
| `BillingLaws.StoredNames` | server/billing/plans.ts:57-70 | How the stored names are read, the old one as Team |
| `Subscription.SubscriptionShape` | server/billing/service.ts:241-266 | Each role has its last item, and the interval is the base item's wherever that stands |
| `BillingLaws.ShapeIs` | server/billing/service.ts:241-266 | What the shape says of the last item of each kind |
| `BillingState.WrittenTwice` | server/billing/state.ts:111-141 | Writing the same patch again changes at most the time stamp, and writes nothing if the quantity can be stored |
| `BillingState.ReadsWritten` | server/billing/state.ts:62-141 | A reader finds each field of the patch where it says something, and the old one where not |
| `Billing.Ledger.WriteBillingState` | server/billing/state.ts:116-141 | The merge, and no write when nothing but the time would change |
| `Billing.Ledger.ApplySubscriptionState` | server/billing/service.ts:292-351 | Row and cache after a subscription is applied |
| `Billing.Ledger.SyncSeatQuantity` | server/billing/service.ts:581-645 | What is posted and what the cache is afterwards, on every path |
| `Billing.AppliedTwice` | server/billing/service.ts:284-351 | Applying a subscription again reports no change and leaves row and cache as they are |
| `Billing.PriceIsTheTruth` | server/billing/service.ts:284-308 | The plan follows the base price while the subscription is paid for, and is Free when it is over |
| `BillingLaws.PlanByStatus` | server/billing/service.ts:210-306 | Which plan follows from each status, with a base price and without |
| `BillingLaws.ColumnsAfter` | server/billing/service.ts:310-319 | The customer is never forgotten, and the subscription is kept exactly with a plan that is not free |
| `BillingLaws.CacheAfter` | server/billing/service.ts:335-348 | The cache has everything as the subscription has it, but ids of items that it does not show stay known |
| `Billing.HostedStays` | server/billing/service.ts:292-319 | A row that says `hosted` keeps it exactly as long as the organization stays on Team with the same customer and subscription |
| `Billing.EchoIsQuiet` | server/billing/service.ts:570-606 | An event that carries the due quantity makes no post, whatever was cached |
| `Billing.UpdateSettles` | server/billing/service.ts:570-639 | One post at most; its echo makes none, and the cached quantity is the due one |
| `Billing.QuietExactly` | server/billing/service.ts:599-621 | Exactly which events about a paid Business subscription make no post |
| `Billing.MissingItemPostsAgain` | server/billing/service.ts:604-629 | If Stripe reports no seat item while an id is cached, every such event posts again |
| `BillingLaws.PostIs` | server/billing/service.ts:592-629 | What is posted: people beyond fifty, for the seat item and no other, by id if one is known and else by the seat price of the interval |
| `BillingLaws.PostBillsSeats` | server/billing/service.ts:617-629 | On the items of Stripe a post leaves the item that sells the plan alone and bills exactly the seats that are due |
| `BillingLaws.PostSettles` | server/billing/service.ts:570-639 | With Stripe so, an event makes one post at most, and the event that it brings about makes none |
| `BillingLaws.CacheAfterAnswer` | server/billing/service.ts:631-638 | The cache after an answer, field by field |
| `BillingLaws.ZeroIsRemembered` | server/billing/service.ts:607-611 | Without a seat item and anyone to bill, zero is remembered and nothing else changes |
| `Webhook.ProcessedEvents.MarkProcessed` | server/billing/webhook.ts:118-130 | The bounded first-in-first-out memory after an event |
| `Webhook.Remembered` | server/billing/webhook.ts:118-134 | A newly marked event is remembered over any 999 others |
| `Webhook.Forgotten` | server/billing/webhook.ts:118-134 | A thousand new events push an event out, exactly if its id is not empty |
| `Webhook.HandleEvent` | server/billing/webhook.ts:204-300 | Memory, row, cache and answer after any event about a subscription or invoice |
| `Webhook.RememberedIfHandled` | server/billing/webhook.ts:204-290 | A new event is remembered exactly if it could be handled; otherwise nothing changes |
| `Webhook.DeletedClears` | server/billing/webhook.ts:258-259 | A `deleted` event leaves the organization free, without subscription and cache, whatever its status says |
| `Webhook.AppliedByKind` | server/billing/webhook.ts:248-280 | A `created` event posts nothing, an `updated` one what the head count asks for, and a failed post leaves what was applied |
| `Webhook.RedeliveredIsIgnored` | server/billing/webhook.ts:204-209 | A redelivery with fewer than a thousand events in between changes nothing and posts nothing |
| `Webhook.ForgottenIsHarmless` | server/billing/webhook.ts:248-264 | A forgotten `created` or `deleted` event, delivered again, leaves row and cache as they are |
| `Webhook.ForgottenUpdate` | server/billing/webhook.ts:248-284 | A forgotten `updated` event about a paid Business subscription leaves the row as it is, and posts again exactly if the quantity it carries is not the one due by now |
| `Webhook.EveryRunKeeps` | server/billing/webhook.ts:204-300 | Over every run of events the memory stays bounded, and a free organization has no subscription and nothing cached |
| `Percentile.PercentileIsLine` | server/ai/prompt.ts:64-73 | In every branch the percentile is the rounded height of the broken line through the scores |
| `Percentile.Interpolates` | server/ai/prompt.ts:68-72 | At part of the way between two neighbours stands the number that is this part of the way between them, rounded, halves up |
| `Percentile.Grows` | server/ai/prompt.ts:64-73 | A higher percentile is not a lower score, and both lie within the scores |
| `Percentile.Ends` | server/ai/prompt.ts:64-73 | Percentiles 0 and 100 are the smallest and the largest score |
| `Percentile.QuartilesOrdered` | server/ai/prompt.ts:89-107 | p25, p50 and p75 are in order, for scores in any order |

## Left out

- CascadeSettling.LayeredSettles: for layered tasks. Unlayered ones need not fail: whether they settle depends on the dates, the durations and the order of the rows, not on the graph alone. The exact statement for them is that of `Cascade.SettledIsLeast`, on the result.
- QrEncode.EncodeQr: takes the UTF-8 octets of the text; a version or mask that a caller fixes has to be one that exists (1 to 10, 0 to 7), as for others the program indexes tables it does not have.
- Webhook.ForgottenIsHarmless: not for `updated` events, whose seat sync depends on the head count of the moment; `Webhook.ForgottenUpdate` is about those.
- PlanStore.PlanBoard.Create: streams, apps, assignees, priorities and history rows, which do not touch the dependency graph, and the refusals for unknown ones or for an external key that is taken.
- PlanStore.PlanBoard.FindOrCreate: whether the external key is already known is a parameter.
- PlanStore.PlanBoard.Update: streams, apps, assignees and external keys, and the refusals for them, as in `Create`.
- Totp.Hotp: HMAC-SHA1 is any function with digests of twenty bytes, and the constant-time comparison is equality.
- Base32.Decode: capital letters of characters outside ASCII, some of which `toUpperCase` would turn into letters of the alphabet.
- Duration.ParseDuration: exact rationals in place of floating-point numbers, and letters outside ASCII as they are.
- Percentile.PercentileIsLine: exact rationals in place of floating-point numbers; scores are whole, as their column is, and percentiles lie between 0 and 100.
- WorkerPool.Outcome: a call is a function of its item and index, so that the order of calls does not show in their values. The limit is rounded down beforehand.
- Zip.ZipStore: names and data are octets, and the time of an entry without one is a parameter.
- Utf8.DecodeBack: decoding of malformed octets, which does not arise; the model returns nothing where the program would substitute characters.
- Billing.Ledger.SyncSeatQuantity: Stripe is a function from posts to answers; its replay of idempotency keys is not modelled, nor are two handlers at once.
- BillingState.ReadsWritten: a stored configuration whose fields have other types than the ones written.
- Webhook.HandleEvent: `checkout.session.completed`, an error inside a handler, and how an event is resolved to an organization, which is a parameter.
- Plans.PriceIdTells: ids and environment variables are taken as trimmed.
- `parseCsv`: its renaming of duplicate headers can collide with a literal header, so that it does not keep every value.
- `qrSvg`, calendars and event ranges, recovery codes, plan features and price tables, audit labels, timers: each is settled by reading one branch.
- Routes, queries, sockets, mail and HTTP, cryptographic primitives, the user interface and the schemas.
- Critical path, status and priority derivation of tasks, and the shared history of task events.
