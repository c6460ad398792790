# Verified models of D2's layout, rendering, publication and compilation core

D2 turns diagram text into pictures. This project models the parts of it whose correctness spans many functions or many
steps, and proves what they promise, for all inputs and all runs. `dafny verify dfyconfig.toml` checks everything.

- **Extraction of nested diagrams** (`Lists`, `Forest`, `Extraction*`, `Layouts`, `NestedDiagrams`, `AbsoluteIDs`,
  `EdgeIdentity`, `Reconnection`). Grids, sequence diagrams and objects near a constant are cut out of a board, laid
  out on their own and put back. The class `Arena` holds every parent, child, graph and list pointer involved and its
  methods change them as the code does. The one-pass form equals the sequential form; a rollback after container k
  equals the sequential form stopped there; taking out and putting back is the identity, with the edges across
  diagrams connected again by nothing but the absolute IDs recorded for their ends, which are shown to be distinct.
- **Board publication** (`FileSystem`, `Install`, `Publication`, `BoardOutput`, `BoardPlaces`). A transaction over a
  file system in which every system call may fail. Which calls fail decides exactly whether an error-free rollback
  restores the tree; the manifest stays the old one until all files are done, files go only with the old manifest's
  justification, new directories have their staged modes, and pruning leaves no empty stale directory. Every board of
  a tree gets a path of its own, and claimed paths never get in each other's way.
- **PNG encoding** (`PngFilters`, `PngEncoder`, `PngBands`). Filters with early cut-off, rows that swap, bands that
  arrive one by one: the chosen filter is optimal, any split into bands is encoded as the whole image is, and
  unfiltering as in section 9 of the W3C PNG Specification recovers every pixel.
- **Key paths and absolute IDs** (`KeyPath`, `KeyPathScan`). The fast printer equals the general one, and printed
  paths can be read back by a small scanner, so joining IDs on a dot identifies objects.
- **Watch mode** (`Watch`). Requests, the compile loop, broadcasts and clients as interleaved atomic steps: no change
  is lost, no client is left behind, nothing deadlocks, and the program left alone comes to rest with every page
  showing the board last visited, compiled after the last change.
- **Layout reuse** (`LayoutSignature`, `LayoutInputs`, `LayoutReuse`, `BoardCompile`). The byte signature determines
  every field that is not for rendering only, and compiling any tree of boards with reuse gives what laying out every
  board afresh gives.
- **Intermediate representation** (`EdgeKeys`, `IRIndex`, `IRPaths`, `IRGraph`, `IRExpansion`, `IRCopy`, `IRAliases`,
  `IRMerge`, `IRSpread`, `Globs`, `ImportClone`, `ImportUses`). Indexed lookups equal scans, substitution never closes
  a cycle, copies stay within their budget, overlays are a merge whose grouping matters only across arrays, glob
  matching is exact, and imports cloned from a template never disturb it or each other, whatever is done to them in
  any order.

## Where the code does less than it seems to promise

Each of these is kept as the code has it. Where the condition is exact, a theorem says "if and only if"; where it is
only sufficient, the bullet says so.

- A failed publication whose rollback reports success restores the tree exactly if and only if the installation that
  failed, if one did, leaves no temporary file; which of its calls fail decides that
  (`Publication.Transaction.Publish`, `Install.InstallRun`). A file stays when the cleanup of the temporary file
  fails, and also when none does: if closing the source fails after the temporary file was handed over, nobody removes
  it. `Publication.LeakSurvivesPublish` is such a run.
- Inserting a field keeps a trusted index right if and only if no field behind it has the same key, or one before it
  has (`IRIndex.Map.InsertField`); the one caller looks the key up first, and so always meets the condition
  (`IRIndex.Map.InsertIfAbsent`).
- All outputs of a tree differ if and only if no two written boards lie in one place and both, or neither, have boards
  below them (`BoardPlaces.DistinctIffPlaces`); a place is made of names and kinds, and a board without a name adds
  nothing to it. So they always do with names that differ among siblings (`BoardPlaces.OutputsAreDistinct`), and a
  nameless board with boards below it takes the index of the board above (`BoardPlaces.NamelessBoardCollides`). All
  this needs an extension, or names without dots; `BoardPlaces.NoExtensionCollides` shows what happens otherwise. That
  condition is sufficient only.
- Planned paths that differ can still be refused, when one board's file is where another board needs a directory. With
  an extension and names that differ among siblings, a tree is accepted if and only if no board that needs a directory
  is called what a file beside it is called, a sibling's file or the index of the board above
  (`BoardPlaces.AcceptedIff`); a board "x" beside a board "x.svg" with children is refused
  (`BoardPlaces.SuffixClashes`), and so is a board "index.svg" with children below a root
  (`BoardPlaces.IndexClashes`).
- A saturated charge can fall short of the true cost exactly when the limit is the largest 64-bit number and nothing
  has been used (`IRExpansion.UnderchargedOnlyAtMax`).
- The grouping of three overlaid maps does not matter if and only if, wherever the first and the last hold maps and
  the middle one an array, the first adds nothing to the last (`IRMerge.GroupingMatters`); so never without arrays in
  the middle map (`IRMerge.MergeAssoc`), and it does in `IRMerge.ArraysBreakAssociativity`.
- The indexed and the scanning field lookup agree on every path if and only if no field without a map stands before
  one of the same key whose map has something to find (`IRPaths.TrailsAgreeIff`); they differ in
  `IRPaths.DuplicatesPart`. In both, a path that begins with an unquoted underscore finds nothing.
- Resolving an edge reads past the end of a path if and only if one end is underscores only, fewer than the other end
  has in front, and there are maps enough to get that far (`IRPaths.ResolvePanicsIff`). The edge `_ -> _._.x` inside a
  field does so (`IRPaths.UnderscoresRunOut`). The model shows it as an outcome of its own (`Panics` in
  `IRPaths.Resolve`).

## How the models are built

Objects whose methods update fields are classes; loops are loops, proved against specification functions about which the
lemmas then speak. Pointers are numbers or values in maps where a whole graph of objects changes at once. Strings are
ASCII. Floats are their bits. Compression, checksums, Exif and JSON text are opaque. SHA-256 is a function of the
content, assumed injective where distinct names must get distinct digests.

## Model

| member | source | states |
|---|---|---|
| PngFilters.FilteredRow | d2cli/raster_png_encoder.go:442-467 | the returned buffer is a completely written row whose filter costs no more than any other, ties going to Up, Paeth, None, Sub, Average in that order, whatever was cut off or swapped on the way |
| PngFilters.NoneCost | d2cli/raster_png_encoder.go:469-478 | the exact cost when it is below the cut-off, otherwise a proof that the true cost is not |
| PngFilters.UpFilter | d2cli/raster_png_encoder.go:480-494 | the buffer holds the whole Up row of section 9 of the W3C PNG Specification and the result is its exact cost |
| PngFilters.SubFilter | d2cli/raster_png_encoder.go:496-515 | a result below the cut-off means a complete Sub row and its exact cost; any other result means the true cost is at least the cut-off |
| PngFilters.AverageFilter | d2cli/raster_png_encoder.go:517-537 | below the cut-off a complete Average row and its exact cost, otherwise a bound on the cost, the left edge included |
| PngFilters.PaethFilter | d2cli/raster_png_encoder.go:539-574 | the same for Paeth, the left edge included |
| PngFilters.FastPaeth | d2cli/raster_png_encoder.go:552-566 | the rearranged byte distances pick the PaethPredictor of section 9.4 |
| PngFilters.PaethIsNearest | d2cli/raster_png_encoder.go:552-566 | the predictor is the nearest of left, above and upper left to their gradient, ties going to left, then above |
| PngFilters.MeanRoundsDown | d2cli/raster_png_encoder.go:529-530 | the average is rounded down |
| PngFilters.Settle | d2cli/raster_png_encoder.go:442-467 | comparing candidates in the code's order with its mix of strict and non-strict tests yields the chosen filter |
| PngFilters.ChosenUnique | d2cli/raster_png_encoder.go:442-467 | least cost and tie order leave one filter, so a row's encoding is a function of the row and the one above |
| PngFilters.DecodeEncoded | d2cli/raster_png_encoder.go:442-467 | unfiltering inverts each of the five filters on every row |
| PngFilters.UnfilterAt | d2cli/raster_png_encoder.go:480-574 | unfiltering is, byte by byte, the reconstruction of section 9.2 of the W3C PNG Specification, with zero to the left of the row |
| PngEncoder.RowEncoder.Start | d2cli/raster_png_encoder.go:170-223 | a new stream has a cleared row above, four separate buffers, nothing fed, and the header for its colour type; a failed write leaves no chunk |
| PngEncoder.RowEncoder.WriteRow | d2cli/raster_png_encoder.go:225-257 | succeeds exactly for acceptable pixels and a sink that takes one more write; a row is added to what has been encoded only then, and after the swap the next row is still filtered against this one |
| PngEncoder.RowEncoder.PackInto | d2cli/raster_png_encoder.go:226-249 | drops alpha bytes on a three-channel stream and refuses exactly the rows with a translucent pixel |
| PngEncoder.RowEncoder.PackThree | d2cli/raster_png_encoder.go:229-249 | four pixels at a time and then one at a time gives what one at a time would |
| PngEncoder.RowEncoder.Finish | d2cli/raster_png_encoder.go:259-268 | success appends the compressed rows and the trailer; a failure never appends the trailer |
| PngEncoder.RowEncoder.Emit | d2cli/raster_png_encoder.go:404-420 | a chunk is written whole or an error sticks |
| PngEncoder.NextRow | d2cli/raster_png_encoder.go:250-255 | swapping the rows keeps "prior is the last raw row and all fed rows encode all raw rows" |
| PngEncoder.UnpackPack | d2cli/raster_png_encoder.go:226-249 | every pixel of an accepted row survives packing |
| PngEncoder.PackedColours | d2cli/raster_png_encoder.go:229-249 | a packed row has red, green and blue of each pixel in this order |
| PngEncoder.UnpackedColours | d2cli/raster_png_encoder.go:229-249 | reading a packed row gives each pixel these three bytes and full opacity |
| PngEncoder.EncodesRowsUnique | d2cli/raster_png_encoder.go:225-257 | the rows fed to the compressor are determined by the raw rows alone |
| PngEncoder.DecodeEncodedRows | d2cli/raster_png_encoder.go:225-257 | decoding row by row, each against the one before, gives back all raw rows |
| PngBands.EncodeImage | d2cli/raster_png_encoder.go:155-168 | on success the file is header, all rows filtered in order, trailer; it reports translucency only for a translucent image |
| PngBands.BandEncoder.constructor | d2cli/raster_png_encoder.go:283-291 | a new encoder is idle and without error |
| PngBands.BandEncoder.Start | d2cli/raster_png_encoder.go:293-319 | refuses a started stream and impossible dimensions; otherwise the stream is live with no rows |
| PngBands.BandEncoder.Append | d2cli/raster_png_encoder.go:321-359 | an accepted band continues exactly at the next row and adds exactly its rows; a refused one sticks as the error of every later call |
| PngBands.BandEncoder.AppendRows | d2cli/raster_png_encoder.go:347-358 | the row counter equals the rows in the stream even when a row fails half-way through a band |
| PngBands.BandEncoder.Finish | d2cli/raster_png_encoder.go:361-381 | the trailer is reached only with exactly `height` rows, all encoded |
| PngBands.BandEncoder.Close | d2cli/raster_png_encoder.go:385-388 | closing forgets error and position |
| PngBands.BandRowsOfSplit | d2cli/raster_png_encoder.go:321-359 | however an image is cut into consecutive bands, wherever each band keeps its pixels, they bring exactly its rows in order |
| PngBands.BandsEncodeImage | d2cli/raster_png_encoder.go:277-381 | for every such cut the compressor is fed what the whole-image encoder feeds it, and decoding that recovers every pixel |
| PngBands.WholeIsCut | d2renderers/d2raster/bands.go:76-83 | bands that follow one another, each with storage of its own, are a cut of the image they make up |
| PngBands.SubImageIsBand | d2renderers/d2raster/bands.go:76-83 | a view of some rows that shares the image's storage is a band too |
| PngBands.AppendBands | d2cli/raster_png_output.go:44-62 | the stream starts with the first band; when all bands are accepted it holds exactly their rows |
| PngBands.EncodePNGBands | d2cli/raster_png_output.go:44-68 | a whole run: on success the bands follow one another, the file is header, Exif, data and trailer, decoding the data gives back exactly the rows of the bands, and it is the file of every image they are a cut of, the bands put together among them; no bands is an error; afterwards the encoder is closed |
| PngBands.FileColours | d2cli/raster_png_encoder.go:321-359 | in the file of an image, row y decodes to the red, green and blue of each of its pixels |
| Install.RemoveIfSame | d2cli/board_output_publish.go:798-813 | removes only the very file it was asked about, and fails exactly when one of its two calls does; success means the path is free |
| Install.Prepare | d2cli/board_output_publish.go:723-777 | success leaves a fresh temporary file with the content and mode asked for; failure changes at most that path; whether it succeeds, whether the file is still there and how many calls were made is exactly what the failing calls say, the deferred close of the source included |
| Install.FillTemp | d2cli/board_output_publish.go:733-777 | success leaves the file complete; after a failure it stays exactly if removing it fails |
| Install.CopyExclusive | d2cli/board_output_publish.go:692-721 | never touches an existing destination; a half-written copy is reported as applied; success is exactly what the failing calls say |
| Install.RenameOver | d2cli/board_output_publish.go:642-690 | replaces the old file, by removing it first where renaming over it is refused |
| Install.Place | d2cli/board_output_publish.go:642-690 | "applied" is reported whenever the destination has changed, and the reported file is the one there |
| Install.InstallFile | d2cli/board_output_publish.go:642-690 | success means the staged content and mode at the destination and no temporary file left; whatever fails, only the destination and the temporary file differ, and from the calls that fail it is known exactly whether the installation succeeds and whether the temporary file stays |
| Install.SuccessLeavesNothing | d2cli/board_output_publish.go:642-690 | a successful installation leaves no temporary file |
| Install.OneFaultLeaves | d2cli/board_output_publish.go:642-777 | with a single failing call, a new file leaves its temporary file exactly if that call is the close of the source, the inspection before the cleanup or the cleanup; a replacement exactly if it is the close of the source |
| Publication.Transaction.constructor | d2cli/board_output_publish.go:412-420 | a new transaction has recorded nothing and touched nothing |
| Publication.Transaction.EnsureDirectory | d2cli/board_output_publish.go:555-576 | creates at most this directory, and records it exactly when it did |
| Publication.Transaction.StaleFileChanges | d2cli/board_output_publish.go:474-508 | plans a removal for exactly the files the old manifest lists, the new one does not, and nobody changed |
| Publication.Transaction.PrepareBackups | d2cli/board_output_publish.go:510-553 | records what every path holds before anything changes; a path that is no regular file is refused |
| Publication.Transaction.VerifyState | d2cli/board_output_publish.go:621-640 | success means the path is still what was backed up |
| Publication.Transaction.ApplyChange | d2cli/board_output_publish.go:578-619 | whether it succeeds or fails half-way, the journal still undoes to the starting tree |
| Publication.Transaction.ApplyRemoval | d2cli/board_output_publish.go:588-605 | a file whose digest differs from the manifest's is kept and the removal skipped |
| Publication.Transaction.ApplyInstall | d2cli/board_output_publish.go:608-618 | an install that failed after changing something is recorded like one that succeeded |
| Publication.Transaction.StaleDirectories | d2cli/board_output_publish.go:815-833 | the directories only the old manifest lists, none before a deeper one |
| Publication.Transaction.RemoveStaleDirectories | d2cli/board_output_publish.go:834-874 | takes away only empty stale directories, keeps every file, and leaves no stale directory that is empty |
| Publication.Transaction.RemoveIfEmpty | d2cli/board_output_publish.go:834-872 | one stale directory: removed if empty, else left; afterwards it is gone or has a child |
| Publication.Transaction.ApplyChanges | d2cli/board_output_publish.go:460-464 | after all changes every file is done and a file of the start is missing only because a removal took it |
| Publication.Transaction.ApplyNext | d2cli/board_output_publish.go:460-464 | one more change: if its path is as at the start, its directory is there and no call fails, it goes through and the later ones still can |
| Publication.StaleMore | d2cli/board_output_publish.go:474-508 | one more file of the old manifest: a removal is planned if and only if it is eligible |
| Publication.Transaction.CreateDirectories | d2cli/board_output_publish.go:452-459 | every staged directory exists, with the mode its first entry was staged with if it was not there before and unchanged if it was; only directories of the new manifest were created |
| Publication.FirstMakes | d2cli/board_output_publish.go:452-459 | the first entry of a directory makes it with its own mode, or finds it as it was at the start |
| Publication.NowApplicable | d2cli/board_output_publish.go:452-464 | with the staged directories made, every planned change can go ahead |
| Publication.PlannedFits | d2cli/board_output_publish.go:427-451 | planned changes have paths of their own and replace files only |
| Publication.Transaction.Stage | d2cli/board_output_publish.go:427-451 | the planned changes cover every staged file and every removable stale file, and nothing else; the tree is untouched |
| Publication.Transaction.ApplyOutputs | d2cli/board_output_publish.go:426-464 | staging, directories and changes: every tree along the way lacks a file, or has another in its place, only where one is staged or the old manifest justifies it, failed or not; on success new directories have their staged modes |
| Publication.Transaction.Apply | d2cli/board_output_publish.go:426-472 | on success all files, directories with their staged modes, and the manifest are in place; it does succeed if no call fails and nothing in the tree stands in the way of the staged entries; whether it succeeds or fails, in every tree along the way a file is gone or different only where one is staged or the old manifest justifies it, and the manifest is the old one until all files are done |
| Publication.DoneDecides | d2cli/board_output_publish.go:426-508 | so once all is done, a file nothing is staged at is gone exactly when the old manifest lists it with the digest it has and the new one does not list it, and is untouched otherwise |
| Publication.Transaction.RollbackFile | d2cli/board_output_publish.go:951-980 | undoes one change, or refuses when the path is not as the transaction left it |
| Publication.Transaction.RestoreDirectories | d2cli/board_output_publish.go:919-925 | removed directories come back in reverse order, with their modes |
| Publication.Transaction.RestoreFiles | d2cli/board_output_publish.go:926-931 | files are undone in reverse order |
| Publication.Transaction.RemoveCreated | d2cli/board_output_publish.go:932-944 | created directories go in reverse order; success means all are gone |
| Publication.Transaction.Rollback | d2cli/board_output_publish.go:918-949 | from any point of failure, an error-free rollback restores every file's content and mode and every directory, leaked temporary files aside; and it is error-free if no call fails from then on, every applied change is still as it was left, and nothing leaked into a created directory |
| Publication.RestorableStep | d2cli/board_output_publish.go:919-925 | the directory removed last can be made again first |
| Publication.HomesBack | d2cli/board_output_publish.go:918-931 | once removed directories are back, every file to be put back has its directory |
| Publication.NoChildLeft | d2cli/board_output_publish.go:932-944 | when the turn of a created directory comes, nothing is left in it |
| Publication.Transaction.Publish | d2cli/board_output_publish.go:105-115 | an applied publication has every staged file with its content and mode, every new directory with its staged mode and every old one as it was, and of the other files it removed exactly those that only the old manifest lists and that still have the digest listed, the rest being untouched; a failed publication whose rollback reports no error counts as untouched, and the tree is exactly as before if and only if the installation that failed, if one did, leaves no temporary file, which its failing calls decide; if no call fails and the entries fit the tree it is applied, and if it fails outside an installation and no call fails afterwards it is rolled back |
| Publication.LeakSurvivesPublish | d2cli/board_output_publish.go:105-115 | a whole publication in which one call fails, the close of the source: it counts as untouched and the tree has a new file |
| Publication.RecordMkdir | d2cli/board_output_publish.go:555-576 | recording a created directory keeps the journal an exact inverse |
| Publication.RecordRmdir | d2cli/board_output_publish.go:860-871 | recording a removed directory keeps the journal an exact inverse |
| Publication.RecordFile | d2cli/board_output_publish.go:608-618 | recording a file change, complete or not, keeps the journal an exact inverse |
| Publication.RecordLeak | d2cli/board_output_publish.go:723-777 | a leaked temporary file is the only thing the journal does not undo |
| Publication.UndoDirsCommutes | d2cli/board_output_publish.go:918-931 | restoring directories before files is as good as the strict reverse of what was done |
| Publication.DeepestFirstSorted | d2cli/board_output_publish.go:831-833 | sorting stale directories puts none before a deeper one |
| KeyPath.RawString | d2ast/d2ast.go:1563-1601 | a key stays bare exactly when it is not empty, has no special character but hyphens before something else, and no white space at its ends; it is single-quoted exactly when it has such a character, a double quote and no newline; and the node holds the string as it is |
| KeyPath.EscapeSingleQuotedValue | d2format/escape.go:9-24 | the builder loop writes each character's escape in order |
| KeyPath.EscapeDoubleQuotedValue | d2format/escape.go:26-43 | the same for double quotes in a key |
| KeyPath.EscapeUnquotedValue | d2format/escape.go:45-88 | the same for bare keys, with the code's special cases for the first character, hyphens and `null` |
| KeyPath.PlainKey | d2format/keypath.go:38-50 | true exactly for non-empty strings of ASCII letters, digits and underscores |
| KeyPath.Printer.Node | d2format/format.go:37-65 | appends the node's text in key mode, reserved keywords in lower case |
| KeyPath.Printer.Path | d2format/format.go:208-215 | joins the elements' texts with dots |
| KeyPath.FormatGeneral | d2ast/d2ast.go:1083-1089 | making a key path of strings and printing it gives the joined elements |
| KeyPath.FormatKeyPath | d2format/keypath.go:12-36 | the fast path prints exactly what the general printer prints, for every list of strings and any specials and keywords |
| KeyPath.PlainElement | d2format/keypath.go:20-30 | a plain string without specials is what the general printer would print, `null` and keywords included |
| KeyPathScan.StandardReady | d2ast/keywords.go:9-79 | all standard keywords print bare under the standard specials |
| KeyPathScan.ScanPrinted | d2format/keypath.go:12-36 | one printed element, followed by a dot or the end, scans back to its name, by a scanner that trims bare text and ends it before any character with a meaning of its own |
| KeyPathScan.BareFolds | d2ast/d2ast.go:1568-1600 | letter case never decides whether a key needs quotes |
| KeyPathScan.ScanJoined | d2format/keypath.go:12-36 | a printed key path scans back to its elements, whatever dots, quotes, backslashes or newlines they contain |
| KeyPathScan.CanonicalSame | d2format/format.go:129-157 | two elements print alike exactly when they are equal up to the case of `null` and of keywords |
| KeyPathScan.PrintedAlike | d2format/keypath.go:12-36 | two key paths print alike exactly when they are element-wise equal up to that case |
| KeyPathScan.AbsIDIsKeyPath | d2graph/d2graph.go:645-650 | joining printed IDs on a dot along the parents is printing the key path of the names |
| KeyPathScan.AbsIDsIdentify | d2graph/d2graph.go:645-650 | two objects have one absolute ID exactly when their names agree on the whole way |
| Forest.OwnerIs | d2layouts/d2layouts.go:495-511 | with no container inside another, at most one nested diagram can hold an object |
| Forest.FindOwnerIsOwner | d2layouts/d2layouts.go:496-511 | the walk to the nearest container finds that diagram, also for containers extracted without themselves |
| Forest.AncestryKept | d2layouts/d2layouts.go:563-588 | ancestry among what remains does not change while diagrams are out |
| Forest.AbsIDKept | d2layouts/d2layouts.go:555-559 | nor do absolute IDs, so IDs recorded before or between extractions are the same |
| Forest.ExtractedApart | d2layouts/d2layouts.go:563-588 | nothing extracted still lies below anything that remains |
| Extraction.ExtractedOnce | d2layouts/d2layouts.go:453-456 | the state with the first k diagrams out is determined in every field |
| ExtractionSteps.NestedNow | d2layouts/d2layouts.go:637-730 | with earlier diagrams out, membership in the next one is what it was on the whole board |
| ExtractionSteps.DetachStep | d2layouts/d2layouts.go:565-588 | setting one diagram's pointers moves the board from k diagrams detached to k + 1 |
| ExtractionSteps.SequentialStep | d2layouts/d2layouts.go:637-730 | one sequential extraction moves the whole state from k diagrams out to k + 1 |
| ExtractionSteps.CrossingNow | d2layouts/d2layouts.go:637-730 | the external edges of the next diagram, and the absolute IDs of their ends, are those of the whole board, however many diagrams are out |
| ExtractionBatch.DealObject | d2layouts/d2layouts.go:514-523 | dealing one more object keeps every new graph the sub-list of its own objects, in order |
| ExtractionBatch.DealEdge | d2layouts/d2layouts.go:527-560 | dealing one more edge does the same for edges |
| ExtractionBatch.DealExternal | d2layouts/d2layouts.go:550-559 | an external edge is added to its diagram with its source's ID first and its target's second |
| ExtractionRollback.InjectBack | d2layouts/d2layouts.go:599-602 | injecting a diagram and returning its external edges leaves exactly the other diagrams out |
| ExtractionRollback.CanGoBack | d2layouts/d2layouts.go:599-602 | every extracted diagram can go back to where it came from |
| ExtractionOrder.SiblingIDs | d2layouts/d2layouts.go:40-50 | children of one container never share an absolute ID, so a saved order names each of them |
| ExtractionOrder.RestoreList | d2layouts/d2layouts.go:40-50 | sorting the children that are left by their saved places restores their order |
| ExtractionOrder.RolledBackIsSequential | d2layouts/d2layouts.go:593-607 | the rolled-back state is the state of the sequential form stopped there |
| ExtractionOrder.ListingsRestored | d2layouts/d2layouts.go:52-76 | sorting shuffled objects and edges by saved place restores the lists |
| Layouts.Arena.RemoveChild | d2graph/layout.go:30-38 | takes the first occurrence of the child from the list and its key from the index |
| Layouts.Arena.ExtractSubgraph | d2layouts/d2layouts.go:637-730 | one diagram out: the whole new state, the external edges in order, each with exactly one end in the diagram and none at a lifeline, and for each the absolute IDs its source and its target had before |
| Layouts.Arena.SplitEdges | d2layouts/d2layouts.go:658-686 | every edge is inside, outside or crossing, each list in its old order; an edge to a lifeline end goes with its source, so a crossing edge has none; the first ID recorded for a crossing edge is its source's absolute ID and the second its target's |
| Layouts.Arena.SplitObjects | d2layouts/d2layouts.go:688-697 | every object is in exactly one of the two lists, in its old order |
| Layouts.Arena.Detach | d2layouts/d2layouts.go:699-727 | graph, parent and child pointers of a detached diagram, with and without the container |
| Layouts.Arena.SaveChildrenOrder | d2layouts/d2layouts.go:40-44 | remembers the place of every child under its absolute ID |
| Layouts.Arena.Prepare | d2layouts/d2layouts.go:464-493 | one graph for each diagram, and the order of every parent that will lose a child saved once |
| Layouts.Arena.FindOwnerOf | d2layouts/d2layouts.go:496-511 | the memoized walk answers the object's one diagram |
| Layouts.Arena.DealObjects | d2layouts/d2layouts.go:513-524 | one pass deals every object to its diagram or keeps it, in order |
| Layouts.Arena.DealEdges | d2layouts/d2layouts.go:526-561 | one pass deals every edge: nested, external to the first diagram it touches, or kept |
| Layouts.Arena.DetachAll | d2layouts/d2layouts.go:563-588 | all pointers are set after all memberships are known |
| Layouts.Arena.ExtractSubgraphs | d2layouts/d2layouts.go:456-591 | the one-pass form reaches the state with every diagram out, with each diagram's external edges, the absolute IDs their sources and targets had on the board, and the saved orders |
| Layouts.Arena.ExtractInOrder | d2layouts/d2layouts.go:637-730 | calling the sequential form on the first k diagrams reaches the state with k diagrams out, and records the absolute IDs that sources and targets had on the whole board |
| Layouts.Arena.InjectNested | d2layouts/d2layouts.go:732-757 | the whole state after a nested graph is put under a container |
| Layouts.Arena.RollbackAfter | d2layouts/d2layouts.go:597-607 | after container k, exactly the later diagrams are back, and every child list is in its original order |
| Layouts.Arena.SaveOrder | d2layouts/d2layouts.go:52-61 | remembers the places of objects, edges and root children |
| Lists.SortIsStable | d2layouts/d2layouts.go:45-49 | the sort behind every restored order is stable: elements of one rank stay in their order |
| Lists.SortStableSorts | d2layouts/d2layouts.go:45-49 | its result is ascending by rank and has the same elements |
| ExtractionRuns.BatchIsSequential | d2layouts/d2layouts.go:453-591 | for all containers none of which is inside another, the one-pass form and the sequential form give equal states, nested graphs, external edges and IDs, the latter being those of each edge's source and target before |
| ExtractionRuns.RollbackIsSequential | d2layouts/d2layouts.go:593-607 | one-pass extraction followed by a rollback after k equals the sequential form stopped after container k, object and edge lists up to order |
| ExtractionRuns.OutAndBack | d2layouts/d2layouts.go:52-76 | taking a container out, putting it back with its external edges and restoring the saved order is the identity on objects, edges, all pointers and list orders |
| Reconnection.ObjectsByID | d2layouts/d2layouts.go:308-311 | the map holds exactly the IDs of the listed objects, and under each the last object that has it |
| Reconnection.Reconnect | d2layouts/d2layouts.go:331-347 | succeeds exactly when every recorded ID belongs to an object of the graph; then each edge is appended with its ends at the objects so found, and is otherwise as it was |
| Reconnection.FindHomes | d2layouts/d2layouts.go:312-322 | after all diagrams are out, looking a container up by its ID finds that container |
| Reconnection.InjectAll | d2layouts/d2layouts.go:312-323 | with every diagram back in its home, exactly the external edges are missing, and the recorded IDs are those of their ends |
| Reconnection.IDLeadsBack | d2layouts/d2layouts.go:325-347 | among objects with distinct IDs the ID recorded for an end leads back to that end |
| Reconnection.AllReconnected | d2layouts/d2layouts.go:331-347 | the edges connected by the recorded IDs are the edges that were taken off the board, source and target where they were |
| Reconnection.AllOutAndBack | d2layouts/d2layouts.go:84-347 | a whole board laid out by engines that move nothing: all diagrams out, all back where their containers are found by ID, every edge across diagrams connected by the recorded IDs, the order restored; no ID is missing and the board is what it was |
| NestedDiagrams.CollectNestedExtractions | d2layouts/d2layouts.go:429-451 | the search collects exactly the topmost nested diagrams, each once and in breadth-first order: level by level, on one level by the order of the parents, under one parent as listed; and they can be extracted together |
| NestedDiagrams.EarlierOneWay | d2layouts/d2layouts.go:429-451 | of two containers at most one comes first in that order |
| NestedDiagrams.OrderedMore | d2layouts/d2layouts.go:430-448 | the queue holds at most two levels, in order, and all that was visited comes before it |
| NestedDiagrams.CollectedFits | d2layouts/d2layouts.go:429-451 | no collected container lies in another |
| NestedDiagrams.AllVisited | d2layouts/d2layouts.go:433-449 | every object without a diagram above it is visited |
| AbsoluteIDs.PrintedIdentifies | d2graph/d2graph.go:704-734 | on a board whose IDs are printed names all absolute IDs differ, which is what saving and restoring by ID relies on |
| EdgeIdentity.ElementCancels | d2graph/d2graph.go:1295-1315 | whatever follows in an edge's ID, two equal texts have the same printed element in front |
| EdgeIdentity.PathCancels | d2graph/d2graph.go:1295-1315 | a joined path followed by an arrow or a parenthesis tells its elements and where it ends |
| EdgeIdentity.ShapeDecodes | d2graph/d2graph.go:1295-1315 | an edge's absolute ID tells the source's path, the target's up to letter case, the arrow and the index, though shared containers are written only once |
| EdgeIdentity.SameFolded | d2graph/d2graph.go:704-734 | objects of one board whose IDs agree up to letter case on the whole way are the same |
| EdgeIdentity.InitIndex | d2graph/d2graph.go:1383-1408 | the loop counts the edges with the same ends and arrowheads, read in either direction |
| EdgeIdentity.Connect | d2graph/d2graph.go:1317-1343 | a new edge gets the next index of its kind and changes no other edge |
| EdgeIdentity.SameIndexDiffers | d2graph/d2graph.go:1383-1408 | two edges alike in ends, arrow and index cannot both have been connected |
| EdgeIdentity.NumberedIdentifies | d2graph/d2graph.go:1295-1315 | on a board of printed names whose edges were connected one by one all absolute edge IDs differ, which is what restoring edges by ID relies on |
| Watch.MutexStep | d2cli/watch.go:433-488 | the board-path mutex is held by exactly the compile or the handler that took it |
| Watch.ChangeStep | d2cli/watch.go:343-348 | every step keeps "a newer change has a token, or someone about to post one" |
| Watch.NewestStep | d2cli/watch.go:451-457 | every step keeps "with nothing changed since, the newest compile is of the present board path" |
| Watch.ClientsStep | d2cli/watch.go:674-718 | every step keeps "a client that waits has the newest result, a token, or a broadcast on its way" |
| Watch.StepInv | d2cli/watch.go:433-488 | all of these together survive every atomic step |
| Watch.RunInv | d2cli/watch.go:433-488 | and every interleaving |
| Watch.BlockedClientIsCurrent | d2cli/watch.go:674-691 | a registered client blocked on an empty channel last wrote the current result, unless a broadcast is between setting the result and notifying that client |
| Watch.WritesNeverGoBack | d2cli/watch.go:674-698 | the results a client writes never go back and were all broadcast |
| Watch.NoChangeIsLost | d2cli/watch.go:343-348 | a change newer than the last started compile has a token waiting, a compile about to start, or a handler about to post |
| Watch.BoardIsLastVisited | d2cli/watch.go:607-611 | over every run the board path is the path carried by the visit whose handler was last to update it, and empty if none did |
| Watch.PathsStep | d2cli/watch.go:595-616 | every step keeps the paths: each handler's own until it is used, and the last one used |
| Watch.ChangesCompiled | d2cli/watch.go:451-457 | with no change left to compile, every save and every change of the path was followed by the start of a compile |
| Watch.QuietIsIdle | d2cli/watch.go:433-488 | when no internal step is enabled the compile loop is idle and no token is left: the mutexes never block one another |
| Watch.QuietIsFresh | d2cli/watch.go:433-488 | and then every registered client has written the last result, which is of the board last visited: the path carried by the visit whose handler was last to update the path, or the index if there was none; its compile started after every save and every change of the path |
| Watch.InternalStepShrinks | d2cli/watch.go:433-488 | every internal step decreases a well-founded measure |
| Watch.Settles | d2cli/watch.go:433-488 | so from every reachable state the program left alone comes to rest |
| LayoutSignature.LittleInjective | d2lib/layout_reuse.go:201-204 | the eight bytes of a word determine it |
| LayoutSignature.Decodable | d2lib/layout_reuse.go:173-285 | an encoded value can be read back from the front of any bytes, whatever follows |
| LayoutSignature.SignatureDetermines | d2lib/layout_reuse.go:28-51 | equal signatures come from equal inputs |
| LayoutReuse.Builder.WriteWord | d2lib/layout_reuse.go:201-204 | appends the word, lowest byte first |
| LayoutReuse.Builder.WriteText | d2lib/layout_reuse.go:173-180 | appends length and bytes |
| LayoutReuse.Builder.WriteTexts | d2lib/layout_reuse.go:182-187 | appends count and strings in order |
| LayoutReuse.Builder.WriteBox | d2lib/layout_reuse.go:238-246 | appends presence and, when present, corner and size |
| LayoutReuse.Builder.WritePoints | d2lib/layout_reuse.go:256-267 | appends presence, count and points, missing points included |
| LayoutReuse.Builder.WriteAttributes | d2lib/layout_reuse.go:136-162 | appends all attribute fields, so that they can be read back one by one |
| LayoutReuse.Builder.WriteObject | d2lib/layout_reuse.go:76-108 | appends all object fields the signature covers |
| LayoutReuse.Builder.WriteEdge | d2lib/layout_reuse.go:110-134 | appends all edge fields the signature covers |
| LayoutReuse.NewLayoutInputSignature | d2lib/layout_reuse.go:28-74 | supported exactly for the two engines and boards without sequence, grid or constant-near objects; then the buffer is the encoding of the whole input, which determines every field of the board that is not for rendering only |
| LayoutInputs.InputFits | d2lib/layout_reuse.go:28-51 | every board's input has the one shape that makes its signature decodable |
| LayoutInputs.SameSignature | d2lib/layout_reuse.go:28-51 | boards share a signature only if they have one engine and agree in every field of graph, objects, edges and attributes but those only rendering uses |
| LayoutInputs.AttributesDetermine | d2lib/layout_reuse.go:136-162 | what is written for attributes determines every one of them, label width and height included |
| LayoutInputs.ObjectDetermines | d2lib/layout_reuse.go:76-108 | what is written for an object determines all of it that is not for rendering only |
| LayoutInputs.EdgeDetermines | d2lib/layout_reuse.go:110-134 | the same for an edge |
| LayoutReuse.CaptureLayoutGeometry | d2lib/layout_reuse.go:287-320 | captures box, routes and label positions of every object and edge under its absolute ID |
| LayoutReuse.LiveGraph.Apply | d2lib/layout_reuse.go:322-346 | true exactly when the signature is equal and every object and edge has captured geometry; false changes nothing |
| LayoutReuse.LiveGraph.Replay | d2lib/layout_reuse.go:336-359 | writes the captured geometry to every object and edge and nothing else |
| BoardCompile.LayOut | d2lib/d2.go:180-220 | with or without reuse the board comes out as if laid out from scratch, and what is captured can be trusted; of the engine only this is taken for granted, that it places things and that the built-in ones ignore what is for rendering only |
| BoardCompile.CompileBoard | d2lib/d2.go:173-253 | for every tree of layers, scenarios and chained steps, the diagrams equal those of laying out every board afresh, failures included, for any layout that places things and nothing else and, where reuse is supported, ignores what is for rendering only |
| BoardCompile.ReplayIsLayout | d2lib/d2.go:201-219 | replaying geometry captured under an equal signature gives the very board the layout would give |
| BoardCompile.PlacementRestored | d2lib/layout_reuse.go:287-359 | geometry captured from one board and put on another that agrees with it makes that board what its own layout would have made it, duplicate IDs being refused |
| EdgeKeys.ItoaInjective | d2ir/d2ir.go:273-282 | decimal lengths determine their numbers |
| EdgeKeys.SideKeysAgree | d2ir/d2ir.go:273-311 | an end's key tells its path up to letter case, and its arrowhead |
| EdgeKeys.KeyIffMatch | d2ir/d2ir.go:284-311 | two edges have equal keys exactly when they match directly or flipped, indexes aside |
| IRIndex.KeyIffAnswers | d2ir/d2ir.go:239-246 | two names have one field key exactly when the scan takes one for the other |
| IRIndex.PatchIffNoneAfter | d2ir/d2ir.go:350-366 | patching an index after an insertion is right exactly when no later field has the key, or an earlier one has |
| IRIndex.IndexedScan | d2ir/d2ir.go:1584-1590 | scanning the edges under a key gives what scanning all edges gives, in order |
| IRIndex.Map.EnsureFieldIndex | d2ir/d2ir.go:248-263 | afterwards the index is trusted and right, whether it was kept or rebuilt |
| IRIndex.Map.LookupField | d2ir/d2ir.go:265-271 | the indexed lookup answers the first field the scan would find |
| IRIndex.Map.AppendField | d2ir/d2ir.go:334-348 | an index that lookups trust stays right |
| IRIndex.Map.InsertField | d2ir/d2ir.go:350-366 | a trusted index stays right if and only if no field behind the new one has its key or one before it has |
| IRIndex.Map.InsertIfAbsent | d2ir/merge.go:74-84 | the only insertion there is follows a failed lookup, and so always keeps the index right |
| IRIndex.Map.RemoveField | d2ir/d2ir.go:368-376 | an index that lookups trust stays right |
| IRIndex.Map.EnsureEdgeIndex | d2ir/d2ir.go:313-326 | afterwards the edge index is trusted and lists each key's edges in order |
| IRIndex.Map.AppendEdge | d2ir/d2ir.go:378-390 | an edge index that lookups trust stays right |
| IRIndex.Map.RemoveEdge | d2ir/d2ir.go:392-400 | an edge index that lookups trust stays right |
| IRIndex.Map.GetEdgesIndexed | d2ir/d2ir.go:1584-1590 | the indexed edge lookup answers what the scan answers, in the same order |
| IRPaths.TrailsAgree | d2ir/d2ir.go:1119-1168 | on maps with distinct keys the two field lookups agree on every path through nested maps |
| IRPaths.TrailsAgreeIff | d2ir/d2ir.go:1119-1168 | the two field lookups agree on every path exactly when, on every map that can be reached, no field without a map stands before one of its key whose map has something to find |
| IRPaths.DuplicatesPart | d2ir/d2ir.go:1119-1168 | two fields of one key, the first without a map: the two lookups differ |
| IRPaths.ResolveEdge | d2ir/d2ir.go:736-768 | the two loops compute the resolution, errors and reads past an end included |
| IRPaths.ResolveKeepsEnds | d2ir/d2ir.go:734-768 | resolving underscores and shared paths leaves both ends where they were and fails exactly with more underscores than maps around |
| IRPaths.ResolvePanicsIff | d2ir/d2ir.go:734-768 | a path is read past its end exactly when one end is underscores only, fewer than the other end has in front, and there are maps enough to get that far |
| IRPaths.UnderscoresRunOut | d2ir/d2ir.go:734-768 | the edge from one underscore to two underscores and a name, in a map one field below the root, does that |
| IRPaths.EdgeLookupsAgree | d2ir/d2ir.go:1527-1591 | the indexed and the scanning edge lookup find the same edges in the same order, wherever underscores and shared paths lead |
| IRGraph.IR.WalkComposite | d2ir/compile.go:753-796 | the walk ends on every finite graph, cyclic ones included, and visits exactly what is reachable |
| IRGraph.IR.CompositeContainsNode | d2ir/compile.go:747-751 | true exactly when the target is reachable |
| IRGraph.IR.CompositeSpreadNodes | d2ir/compile.go:713-730 | exactly the reachable placeholders |
| IRGraph.IR.SpreadCompositeReferencesNode | d2ir/compile.go:670-711 | true exactly when the target would be reachable with every spread expanded, spreads below spreads included |
| IRGraph.IR.AttachComposite | d2ir/compile.go:447-453 | a composite is attached exactly when that keeps the graph acyclic and suits the node; otherwise nothing changes |
| IRGraph.IR.SpreadArray | d2ir/compile.go:459-478 | an array is spliced in exactly when it does not lead back to the placeholder, even through pending spreads, and the graph stays acyclic |
| IRGraph.AttachIffNotReached | d2ir/compile.go:540-551 | attaching keeps the graph acyclic if and only if the composite does not reach the node |
| IRGraph.SpliceKeepsAcyclic | d2ir/compile.go:473-478 | splicing another array's values in keeps the graph acyclic |
| IRGraph.RelinkKeepsAcyclic | d2ir/compile.go:741-746 | links into what a composite reaches close no cycle if it does not reach the node that gets them |
| IRGraph.SpreadsCloseNoCycle | d2ir/compile.go:664-711 | the guard refuses some spread exactly when expanding all of them would close a cycle |
| IRGraph.AcyclicNoCycle | d2ir/compile.go:741-751 | on an acyclic graph nothing a node holds leads back to it |
| IRExpansion.AddAllIsSum | d2ir/expansion.go:379-396 | saturating additions give the sum, or the largest number once the sum reaches it |
| IRExpansion.UnitsSaturate | d2ir/expansion.go:268-298 | a node's units are exact up to saturation |
| IRExpansion.UnderchargedOnlyAtMax | d2ir/expansion.go:48-54 | a saturated charge that can be paid falls short of the true units exactly when the limit is the largest number and nothing has been used |
| IRExpansion.Budget.Reserve | d2ir/expansion.go:48-54 | pays exactly when the budget suffices, and never goes beyond the limit |
| IRExpansion.ReserveCopy | d2ir/expansion.go:193-266 | without a seen set the walk succeeds exactly when the budget covers the fully unfolded tree, and then charges exactly its cost |
| IRExpansion.SizeWithinCost | d2ir/expansion.go:268-298 | a tree never has more nodes than its cost |
| IRExpansion.CostCounts | d2ir/expansion.go:268-298 | the cost of a tree is its nodes, list elements, references, names and shared values, each as often as it occurs, unless a single node is worth more than the largest number |
| IRExpansion.UnitsCount | d2ir/expansion.go:268-298 | what one node is worth, list by list |
| IRExpansion.HoldsEverything | d2ir/expansion.go:229-265 | the walk goes to everything a node points to and nothing else |
| IRExpansion.AcyclicHasCosts | d2ir/expansion.go:191-193 | every graph that substitution keeps acyclic has such a cost |
| IRAliases.ReserveAliases | d2ir/expansion.go:165-266 | on an acyclic graph the walk with a seen set succeeds exactly when the budget covers the price, the repeated occurrences and re-shared scalar values, and then pays exactly that; a failed walk never takes anything back |
| IRAliases.PaidWithinPrice | d2ir/expansion.go:165-266 | what the walk has paid so far never exceeds the price |
| IRCopy.Store.Copy | d2ir/d2ir.go:427-455 | a copy unfolds to the tree of the original, is made of new nodes only, one for each occurrence, and changes no old node |
| IRCopy.ReserveThenCopy | d2ir/expansion.go:98-109 | a copy is made only if its whole cost was paid |
| IRCopy.CopyInTurn | d2ir/expansion.go:98-109 | over any run of such steps, copies of copies included, the nodes made never exceed the limit |
| IRMerge.MergeKeys | d2ir/merge.go:25-54 | the keys of a merge are the union of the keys |
| IRMerge.OverlayStep | d2ir/merge.go:26-38 | one more overlay entry is laid over the base entry of its key or goes to the end |
| IRMerge.OverlayEntries | d2ir/merge.go:26-53 | the in-place loop computes the right-biased merge of the lists, base order first |
| IRMerge.OverlayEntry | d2ir/merge.go:120-161 | the overlay's primary and composite win, maps merge, references are concatenated |
| IRMerge.OverlayMap | d2ir/merge.go:25-54 | overlaying two maps with distinct keys is the pure merge, at every depth, with under each key what the two maps hold there: primaries, references in order and composites |
| IRMerge.MergeIsOverlay | d2ir/merge.go:25-54 | under each key the overlay's primary counts if it has one, its references come after the base's, two maps are overlaid in turn, any other composite replaces the base's, and entries of one map only are as they were |
| IRMerge.FindMerge | d2ir/merge.go:25-54 | what a merge holds under any key |
| IRMerge.GroupingMatters | d2ir/merge.go:25-161 | three maps may be grouped either way exactly when, wherever the first and last hold maps and the middle an array, the first adds nothing to the last |
| IRMerge.MergeAssoc | d2ir/merge.go:25-54 | with no array in the middle map the merge is associative |
| IRMerge.EmptyIsUnit | d2ir/merge.go:25-54 | the empty map is its unit on both sides |
| IRMerge.ArraysBreakAssociativity | d2ir/merge.go:120-141 | a field that holds a map, then an array, then a map: the grouping matters |
| IRSpread.ExpandSubstitution | d2ir/merge.go:64-105 | fields the map adds go in front of the placeholder in their order, fields both have are overlaid in place, edges are overlaid |
| IRSpread.SpreadMap | d2ir/compile.go:479-498 | and then exactly the placeholder goes |
| IRSpread.SpreadIsOverlay | d2ir/merge.go:64-105 | a spread is the overlay of the map, except that the added fields stand where the placeholder stood |
| Globs.MatchesIffSplits | d2ir/pattern.go:198-234 | some filling of the stars yields the string exactly when it can be split from left to right |
| Globs.EarliestIsEnough | d2ir/pattern.go:198-234 | a literal between stars may be matched where it first occurs: any other match can be exchanged for that one |
| Globs.LastIsSuffix | d2ir/pattern.go:198-234 | a last literal after a star need only be a suffix |
| Globs.MatchPattern | d2ir/pattern.go:198-234 | the greedy loop accepts a non-reserved string exactly when some filling of the stars yields it up to letter case |
| ImportClone.Imports.CopyTree | d2ir/import_cache.go:452-456 | a deep copy has the same shape and new nodes in order |
| ImportClone.Imports.CollectMapCopies | d2ir/import_cache.go:481-508 | pairs every map of the template with its copy and nothing else |
| ImportClone.Imports.CloneContext | d2ir/import_cache.go:458-479 | a context is copied once: the key stays, and a scope map inside the template becomes its copy |
| ImportClone.Imports.CloneNodeReferences | d2ir/import_cache.go:510-548 | every reference below points to the copy of its context |
| ImportClone.Imports.CloneGlob | d2ir/import_cache.go:550-575 | a glob is copied once, with its root and context moved, however globs refer to one another |
| ImportClone.Imports.CloneGlobContexts | d2ir/import_cache.go:550-575 | every glob below is the copy of its original |
| ImportClone.Imports.CloneImportMap | d2ir/import_cache.go:452-479 | the clone is an isomorphic tree of fresh nodes; each copied context has the template's key, and for scope map the map of the clone that stands where the template's stands, or the template's own if that lies outside it; template, contexts and globs are untouched |
| ImportClone.Imports.NilScopeMap | d2ir/import.go:267-291 | forgets the scope maps of exactly the references it descends to |
| ImportClone.MapsOfMaps | d2ir/import_cache.go:481-508 | distinct maps have distinct copies |
| ImportClone.LinkedCopy | d2ir/import_cache.go:510-575 | place by place, every reference and every glob of the clone is the copy of the template's |
| ImportClone.MovedIsLed | d2ir/import_cache.go:470-472 | a scope map that is a map of the template is led to the node of the clone in the same place, any other is left alone |
| ImportClone.MappedStands | d2ir/import_cache.go:481-508 | the copy recorded for a map stands in the clone where the map stands in the template |
| ImportClone.OnlyMapsCopied | d2ir/import_cache.go:481-508 | only maps of the template are ever led anywhere |
| ImportClone.SharedAlike | d2ir/import_cache.go:462-478 | two references of a clone share a context exactly where the template's do |
| ImportUses.NewClone | d2ir/import.go:103-124 | every reference of a new clone, those below arrays included, has a context of the clone's own, with the template's key and its scope map led to the same place in this clone |
| ImportUses.UseInAnyOrder | d2ir/import.go:103-124 | any number of uses of a template and any forgetting of scope maps in its clones, in any order: the template's contexts and globs are untouched; every reference of every clone keeps its key, and its scope map is the map of that very clone in the same place, or the template's own if that lies outside it, unless this very clone was made to forget; no two clones share a node |
| ImportUses.ForgottenScopes | d2ir/import.go:267-291 | after forgetting, exactly the references that are descended to have no scope map |
| ImportUses.ForgetsOutsideArrays | d2ir/import.go:267-291 | the references whose scope maps are forgotten are exactly those one reaches without passing an array |
| ImportUses.AllApart | d2ir/import.go:103-124 | contexts of the template and of any two clones never coincide |
| BoardOutput.ComponentsDiffer | d2cli/board_output.go:29-77 | boards of different names get different path components, none of them a name the directory layout needs |
| BoardOutput.ComponentIsPlain | d2cli/board_output.go:29-77 | every component is one plain name: not empty, at most 200 long, no dot or space at its end, no slash, backslash, colon, other reserved punctuation or control character |
| BoardOutput.AppendStem | d2cli/board_output.go:83-98 | with an extension, or a component without a dot, appending adds exactly that component to the stem and keeps the extension |
| BoardOutput.ExtOf | d2cli/board_output.go:92-98 | the extension put on is the extension read back |
| BoardPlaces.OutputsMatch | d2cli/board_output.go:160-201 | each output is the path that the names and kinds on the way to its board say, a board without a name adding nothing |
| BoardPlaces.DistinctIffPlaces | d2cli/board_output.go:160-201 | all outputs differ exactly when no two written boards lie in one place and both, or neither, have boards below them |
| BoardPlaces.BoardDistinct | d2cli/board_output.go:160-201 | with names that differ among siblings no two written boards lie in one place |
| BoardPlaces.OutputsAreDistinct | d2cli/board_output.go:160-201 | with an extension, or with no dot in any component, and with distinct non-empty sibling names, all boards of the tree have pairwise distinct paths |
| BoardPlaces.NamelessBoardCollides | d2cli/board_output.go:160-201 | a nameless board with boards below it takes the index of a board above that has children of one kind only |
| BoardPlaces.NoExtensionCollides | d2cli/board_output.go:160-201 | without an extension, a board "c" below "a.b" and a board "c.b" below "a" get one path, though all siblings have names of their own |
| BoardOutput.Claims.AddFile | d2cli/board_output.go:221-251 | accepts exactly the paths neither at, above nor below an accepted one, and keeps the directories equal to all proper ancestors |
| BoardOutput.Claims.Validate | d2cli/board_output.go:253-279 | the recursion accepts exactly when every output in turn clashes with none before it |
| BoardOutput.AcceptsIffApart | d2cli/board_output.go:221-251 | a run of paths is accepted exactly when no two are equal or one beneath the other |
| BoardPlaces.PairBlocks | d2cli/board_output.go:160-251 | of two boards in one list, a file of the one is in the way of an output of the other exactly when the one has no children and the other, with something written below it, is called what that file is called |
| BoardPlaces.IndexPair | d2cli/board_output.go:160-251 | a board's index is in the way of one of its children exactly when that child, with something written below it, is called what the index file is called |
| BoardPlaces.BoardBlocks | d2cli/board_output.go:160-251 | so for a whole tree: no file is in the way of an output exactly when the names say so at every board |
| BoardPlaces.AcceptedIff | d2cli/board_output.go:160-279 | with an extension and distinct non-empty sibling names, a whole tree is accepted exactly when no board that needs a directory is called what a file beside it is called, a sibling's or the index above |
| BoardPlaces.SuffixClashes | d2cli/board_output.go:221-251 | a board "x" and a sibling "x.svg" with a board below it are refused: one needs a file where the other needs a directory |
| BoardPlaces.IndexClashes | d2cli/board_output.go:221-251 | so is a root over a layer "index.svg" that has a board below it |

## Left out

- PNG: the zlib stream, chunk checksums, the Exif chunk's bytes and the generic encoder for other image types; the sink is a number of chunks it still accepts.
- PngEncoder.RowEncoder.WriteRow: counts one write to the sink for each row, where the compressor and its buffer may defer a write and report its failure at a later row or at the end; so which call reports a full sink is not modelled, only that an error is never lost.
- PngEncoder.RowEncoder.Emit: a chunk is in the sink whole or not at all, where the code writes length, type, data and checksum one after the other and a failure may leave part of a chunk.
- PngBands.EncodePNGBands: the bands come in as given; what the renderer draws into them is not modelled.
- Publication.Transaction.Apply: the condition under which it succeeds, `Fits` and no failing call, is sufficient only. What is said about every tree along the way covers applying, not the trees during a rollback that itself fails. Several calls on one open file outside an installation, such as reading a backup, count as one call.
- Publication.Transaction.Rollback: the condition under which it reports no error is sufficient only; a failing call it could do without, or a change that was undone by somebody else, is not looked into.
- Publication: writers from outside during a publication, case-insensitive file systems, the effect of the umask on restored directories, symbolic links beyond "neither file nor directory", the first publication that renames the whole staged tree, and the copying of the new manifest into the staging directory. Backups lie outside the published tree. A directory's identity is its path, and a digest is compared without case folding.
- Board outputs: case folding and Unicode normalization of collision keys, the check that a path stays within its root, and the pair of displayed and written paths (only one is modelled). The outputs' order in `BoardOutput.Outputs` is that of the code.
- Key paths: values (only keys are modelled), strings with substitutions, cached raw text of parsed nodes, and letters beyond ASCII. `KeyPathScan` states unique decoding with its own scanner rather than with the whole parser.
- Extraction: pointers are entries of the arena's maps instead of heap references. A graph's configuration data, root level, label and icon positions, and the attributes copied between containers and nested roots are not modelled; neither is what layout does between taking out and putting back. The depth an object carries only makes parent chains finite.
- Reconnection.AllOutAndBack: takes distinct absolute IDs as given, and edges that end at listed objects or lifelines; a container taken along must be a child of the root. All diagrams go back in the order they were taken out, where the code first places those near a constant; edges are routed between two look-ups by ID, and only the first is modelled.
- ExtractionRuns.OutAndBack: takes distinct absolute IDs of objects and edges as given; `AbsoluteIDs.PrintedIdentifies` and `EdgeIdentity.NumberedIdentifies` prove them for boards of printed names whose edges were connected one by one and end at objects. Deleting an edge, which renumbers the others, is not modelled. When the container itself is taken along it must be a child of the root, because the saved order covers the root's children only; without it any container will do.
- Watch: timing and bursts of file-system events, the list of watched files, how a URL becomes a board path, heartbeats, errors that end the loop, and shutting down. A compile is one step that reads the board path when it starts.
- BoardCompile.CompileBoard: takes for granted that a layout changes nothing but boxes, routes, label and icon positions, and that the two built-in engines ignore what is for rendering only; the engines themselves are not modelled.
- Layout reuse: themes and text measuring before a layout, exporting after it, and a context cancelled between two boards of one compilation. Class and table JSON are opaque bytes. Copied pointers are values, so aliasing between captured geometry and boards is not modelled.
- IRIndex.Map: one map at a time, with fields as values that have an identity; glob matching, edge creation, deletion of a field's edges and the structure counters are not modelled. Edges always have an ID.
- IRPaths.EdgeLookupsAgree: maps inside edges are not places, and lookups through a reference context, which also match globs, are not modelled.
- IRGraph: which variable a substitution resolves to is given, as are the composites that pending spreads stand for; resolving the parts of an interpolated string, the substitution of primaries and the walk over a whole map are not modelled. A map spread copies fields, so it adds new nodes only (`IRCopy`, `IRSpread`).
- IRExpansion: the context's cancellation, the units of syntax trees that are copied, and the sizes of numbers and interpolations, which come in as given unit counts.
- IRCopy.Store.Copy: copies of a map for a scenario, which leave out some fields, and the copying of reference lists.
- IRMerge and IRSpread: maps are values, so an overlay that shares nodes with its base is not modelled (copies are the subject of `IRCopy`). Maps have distinct keys, which the index relies on too. A map nested in a base holds no unexpanded placeholders. Structure counters are not modelled.
- Globs: double and triple stars, the lazy worklist and filters. A pattern's literals and stars take turns, as the parser produces them.
- ImportClone: choosing a single field of an import, cloning syntax trees, and the cache itself. Globs are visited in tree order, where the code iterates over a map in no particular order; only the numbers of the copies depend on it.
- Layout engines, sequence, grid and near layout, text measuring, rendering, GIF, PDF and PPTX export, the attribute checks of the compiler and the editing API: plumbing, or not visible here.
- Checks of a single branch, such as grid capacity, expansion limits' setters and keyword tables, which would only add easy members.
