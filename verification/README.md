# Models of the viewer and of the print lifecycle

This project models two parts of the repository and proves what they promise.

*The G-code viewer* (`gcode_viewer/js`). `GcodeViewer` is the streaming parser of `prettygcode.js`: a machine on
values and the parser object that refines it. `ChunkedParsing` shows that the cuts between chunks do not matter,
`ToolPath` that what is drawn is the path of the tool, `ViewerLayers` in which layers, `ViewerSync` what becomes
visible for a file position or a layer, `ArcInterpolation` that the unrolled arc is the exact one. `LayerMap` is the
second layer detector in `bambuddy_adapter.js`; `LayerAgreement` says exactly when the two detectors agree,
`LayerReading` what the map takes from the words, `LineReading` how both take a line apart, `LayerInputs` gives lines
and texts for both cases, and `RelativeMoves` says when the two readers move the same tool under G91. `ObjLoader` is
the state machine of `OBJLoader.js`, with its objects updated in place; `ObjAttribution` and `ObjRecency` say which
material every vertex ends up with, `ObjGeometry` which vertices are emitted. `ColorConversion` and `ColorHex` are the
colour arithmetic of `dat.gui.js`; `Vectors`, `CameraBoundary`, `CameraDamping` and `CameraControls` are the boundary
and the damping of `camera-controls.js`.

*The print lifecycle* (`backend/app/main.py`). `ExpectedPrints`, `ActivePrints` and `PrinterPresence` are classes over
the module's dictionaries, with the same operations on values beside them; `PrintRestart` is a print start against the
archive rows, with restarts that clear the memory; `AmsAssignment` and `FinishPhoto` are step relations in which any
number of callbacks interleave; `AmsTable` says what commits do to the table; `PrintNames` spells out the names that
prints are stored, looked for and shown under; `OfflineTasks` is the offline notification when tasks end in steps of
their own. `Text`, `JsNumber`, `PyText`, `Reals` and `Wrappers` hold the string and number operations both languages
use.

Where the code does something other than its comments or its intent, the model follows the code:

- The layer map says it mirrors the viewer (bambuddy_adapter.js, lines 255-256). On lines that both take for the same
  command it does unless the first move with an E retracts or stands still: the viewer then opens a layer for the
  segment, the map does not. Not all lines are the same command for both: a leading blank hides a command from the
  viewer, a tab joins two words for it, and a comment before a carriage return is stripped by the viewer alone, which
  matters when one of its words is read as a coordinate.
- `layerCmds` and `layerOffsets` are meant to have the same indices (lines 260-261). A recorded move before the first
  layer shifts them by one.
- The viewer drops `relative` after every move, because the new state is built without it (prettygcode.js, line 1461):
  the second move after G91 is absolute for the viewer and relative for the map. While it is relative it compares a
  new E with zero instead of the old one (line 1360).
- `filePositions[filePositions.length]` (line 1111) is always undefined, so the "way before" branch is never taken.
- Dropping the cached frame at a print start is meant to keep it out of the new print's photo (main.py, lines
  2406-2408). A producer of the print before that is still at work can store its frame after that.
- Writing a red, green or blue component of a colour held as a packed one unpacks that component only (dat.gui.js,
  lines 649-651): the two others are what they were before, or missing.
- The display name of a file with another extension loses its last suffix (archive.py, line 70), although the comment
  says that it passes through unchanged (line 61).
- One archive printing on two printers loses the tracking of both when the first completes (main.py, line 4299).
- A cancelled notification task removes its printer's entry even when it is its successor's (main.py, line 1123).
- The comment at main.py, lines 540-542, places the unlink block under the assignment lock; it runs before the lock is
  taken. Slots stay unique all the same.
- "Completely stuck" (camera-controls.js, line 986) is recognised by comparing two lengths, which outside the box also
  holds by coincidence; and the enclosure with friction can end outside the box.

Coordinates, colour components and angles are exact reals. What the code takes from outside is a parameter with the
property used: `parseFloat`, the arc's points for the parser, the angle, length and rotations of an arc, the columns
of the camera's matrix, the damping ratio, the clock, the progress of a printer, the identifiers of new rows.

## Model

| member | source | states |
|---|---|---|
| Text.SplitConcat | gcode_viewer/js/prettygcode.js:1372-1376 | splitting a text that was cut in two gives the pieces of both parts, the last piece of the first run together with the first piece of the second |
| GcodeViewer.GCodeParser.Reset | gcode_viewer/js/prettygcode.js:933-941 | `reset` leaves the initial machine, whatever was loaded before |
| GcodeViewer.GCodeParser.AddCurrentLayer | gcode_viewer/js/prettygcode.js:1219-1242 | the current layer becomes a scene object with its number, line count and positions, unless it has no vertices |
| GcodeViewer.GCodeParser.StartLayer | gcode_viewer/js/prettygcode.js:1244-1253 | a new layer first puts the current one into the scene, then becomes the current one |
| GcodeViewer.GCodeParser.PushSegment | gcode_viewer/js/prettygcode.js:1284-1357 | a segment with a NaN coordinate is dropped but still opens a layer if there is none; any other adds its vertices, mirrored ones included, and one file position; where the vertices are is said over whole loads by `ToolPath.LoadedPath` |
| GcodeViewer.GCodeParser.Run | gcode_viewer/js/prettygcode.js:1435-1523 | the five commands, absolute and relative: the layer rule, segments for moves that carry an E, arcs through their points, `relative` dropped by every move and `G92` without it |
| GcodeViewer.GCodeParser.Parse | gcode_viewer/js/prettygcode.js:1367-1525 | one call processes exactly the lines completed by the chunk, in order, each advancing the file position by its length and one, and keeps the rest for the next call |
| GcodeViewer.GCodeParser.FinishLoading | gcode_viewer/js/prettygcode.js:1179-1182 | the last layer is put into the scene |
| ChunkedParsing.FeedTwice | gcode_viewer/js/prettygcode.js:1367-1525 | from any state, two calls leave the machine that one call on the joined text leaves: layers, colours, positions, tool and leftover piece |
| ChunkedParsing.ChunkIndependence | gcode_viewer/js/prettygcode.js:1367-1525 | the same for any list of chunks, empty ones and cuts inside a line included |
| ChunkedParsing.UnreadSuffix | gcode_viewer/js/prettygcode.js:1374-1382 | at every chunk boundary the leftover piece is the text from the file position on, and the two lengths add up to what was received |
| ChunkedParsing.LoadGcode | gcode_viewer/js/prettygcode.js:1141-1182 | a load gives the same machine however the reader cuts the file |
| ToolPath.PathIsDrawn | gcode_viewer/js/prettygcode.js:1284-1523 | after any lines the unmirrored strokes of all layers, in order, are exactly the legs of an account that follows the words only: from the head before to the head after every move that carries E, and between neighbouring points of every arc, without legs that hold a NaN; each with its colour and the end of its line, and with the mirror on followed by itself with both heights negated |
| ToolPath.LoadedPath | gcode_viewer/js/prettygcode.js:1141-1182 | so after any load, however the text is cut: nothing of its complete lines is missing, added or displaced |
| ToolPath.KeywordsColor | gcode_viewer/js/prettygcode.js:1384-1412 | the colour follows the first of seven keywords, in their order of precedence, in a line with a semicolon |
| ToolPath.ArgumentsAreGiven | gcode_viewer/js/prettygcode.js:1421-1432 | the argument object holds for every letter the number behind the last word that begins with it, in either case |
| ViewerLayers.LayersAreOpened | gcode_viewer/js/prettygcode.js:1359-1468 | after any lines the layers have the heights and the numbers of lines of an account of its own: a straight move that extrudes opens one unless its height is the same number as the last layer's, and so does what is drawn while there is none |
| ViewerLayers.LoadedLayers | gcode_viewer/js/prettygcode.js:1141-1182 | so after any load |
| LineReading.CommentGoes | gcode_viewer/js/prettygcode.js:1419-1419 | for the viewer a semicolon with something behind it goes with all that follows up to the next terminator, where reading goes on |
| LineReading.BareSemicolonStays | gcode_viewer/js/prettygcode.js:1419-1419 | and a semicolon with nothing behind it stays |
| LineReading.FirstCommentGoes | gcode_viewer/js/bambuddy_adapter.js:273-273 | for the layer map only a comment that reaches the end of the line goes, from its first semicolon on |
| LineReading.WordsAround | gcode_viewer/js/bambuddy_adapter.js:273-276 | a blank separates the words before it from those after it, whichever of the 25 blanks of JavaScript it is |
| ViewerSync.SyncToFilePos | gcode_viewer/js/prettygcode.js:1105-1139 | hides every object that starts after the position, shows of every other the recorded lines before it, and returns the number of the last object shown |
| ViewerSync.SyncObject | gcode_viewer/js/prettygcode.js:1107-1137 | one object of the traversal: the comparison with the position past the end is with undefined, so its branch, which would show everything, is never taken |
| ViewerSync.CountLines | gcode_viewer/js/prettygcode.js:1124-1132 | the inner scan stops at the first position not below the given one; doubled for the mirror, capped at the line count |
| ViewerSync.LoadedRecord | gcode_viewer/js/prettygcode.js:1219-1297 | after any load positions never decrease within a layer or from layer to layer, strokes and positions match in number, and the scene holds the non-empty layers, numbered |
| ViewerSync.SyncShowsRecordedSegments | gcode_viewer/js/prettygcode.js:1105-1139 | after any load the lines on screen are exactly those of the segments recorded at positions below the given one (twice as many with the mirror) |
| ViewerSync.SyncReportsLastStartedLayer | gcode_viewer/js/prettygcode.js:1105-1139 | the returned number separates the objects whose first position is at most the given one from the others; 0 when there is none |
| ViewerSync.SyncIsMonotone | gcode_viewer/js/prettygcode.js:1105-1139 | as the position advances no object disappears or loses a line, no line disappears and the returned layer never goes back |
| ViewerSync.SyncToLayer | gcode_viewer/js/prettygcode.js:1049-1082 | shows the layers below whole, of the given one at most the limit, twice that with the mirror, and all its lines when the limit covers them or there is none, hides the rest, and asks for an update exactly when something else is drawn than before |
| ViewerSync.LayerSyncShowsSameObjects | gcode_viewer/js/prettygcode.js:1049-1139 | syncing to the layer a file position reports shows the same objects as syncing to the position, each with at least as many lines |
| LayerMap.ParseGcodeLayerMap | gcode_viewer/js/bambuddy_adapter.js:258-337 | the loop computes the map of its specification, which the rows on `LayerReading` below tie to the words of the text |
| LayerReading.ModesFollowWords | gcode_viewer/js/bambuddy_adapter.js:279-282 | for every text X, Y and Z are added if and only if the last line that says G90 or G91 says G91, and E if and only if the last one that says G90, G91, M82 or M83 says G91 or M83 |
| LayerReading.ShownExactly | gcode_viewer/js/bambuddy_adapter.js:288-323 | a line is recorded exactly when it says G0 or G1 and carries an E with a number or changes the height |
| LayerReading.LayerBeginsExactly | gcode_viewer/js/bambuddy_adapter.js:288-316 | a layer begins at a line exactly when it says G0 or G1 and carries an E with a number that raises E, at another height than the last layer's; then its offset is the start of that line |
| LayerMap.CommandsFollowLayers | gcode_viewer/js/bambuddy_adapter.js:309-330 | `layerCmds` is the moves before the first layer, if any, then for every layer its first 500 recorded moves; never an empty list (the gap branch is unreachable); neighbouring layers differ in height |
| LayerMap.OffsetsFollowLines | gcode_viewer/js/bambuddy_adapter.js:262-271 | offsets are strictly increasing starts of lines; `totalBytes` is the length of the text plus one |
| LayerMap.AlignedExactlyWithoutLead | gcode_viewer/js/bambuddy_adapter.js:260-261 | entry i of `layerCmds` belongs to entry i of `layerOffsets`, as the comment on the two lists says, if and only if no recorded move precedes the first layer |
| LayerMap.ScanStaysInStep | gcode_viewer/js/bambuddy_adapter.js:309-323 | after every line the commands collected are those of the layers begun so far |
| LayerAgreement.SameWords | gcode_viewer/js/prettygcode.js:1418-1433 | on a plain line the viewer's tokens are the words the layer map reads, so both see the same command and arguments |
| LayerAgreement.DetectorsAgree | gcode_viewer/js/bambuddy_adapter.js:255-316 | for complete lines that both readers take for the same command, they find the same number of layers, each layer's first recorded position being its offset plus that line's length and one, if and only if the first move that carries an E extrudes; otherwise they differ |
| LayerAgreement.ToolsAgree | gcode_viewer/js/bambuddy_adapter.js:279-325 | on every such text, agreeing layers or not, both readers end with the tool at the same place |
| LayerAgreement.PlainIsReadAlike | gcode_viewer/js/bambuddy_adapter.js:273-307 | such are all lines of absolute positioning whose blanks are spaces, whose command comes first and whose numbers parse |
| LayerInputs.ReturnIsReadAlike | gcode_viewer/js/bambuddy_adapter.js:269-276 | and such lines with a carriage return at the end, when they have no comment and are not a bare G0, G1 or G92 |
| LayerInputs.CommentBeforeReturn | gcode_viewer/js/bambuddy_adapter.js:273-273 | not so with a comment before the carriage return: `G1 X5 ; E5` ended by one carries an E for the layer map only |
| LayerInputs.MoveWithBlank | gcode_viewer/js/prettygcode.js:1418-1433 | ` G1 X1`: behind a leading blank the viewer finds no command, the layer map a move |
| LayerInputs.MoveWithTab | gcode_viewer/js/prettygcode.js:1418-1433 | `G1` and `X1` with a tab between them: two words for the layer map, one unknown command for the viewer |
| LayerInputs.RetractionDisagrees | gcode_viewer/js/bambuddy_adapter.js:309-310 | the text `G1 E-1`: the viewer finds a layer, the layer map none |
| LayerInputs.LeadShiftsCommands | gcode_viewer/js/bambuddy_adapter.js:318-330 | the text `G1 Z1`: its command belongs to no layer, so the two lists do not line up |
| RelativeMoves.PlainMovesAlike | gcode_viewer/js/bambuddy_adapter.js:279-307 | plain lines, G90, G91, M82 and M83 among them, are the same move or reset for both readers, and the same G90 or G91 |
| RelativeMoves.ToolsAgreeExactly | gcode_viewer/js/prettygcode.js:1363-1512 | for any lines that are the same moves and resets for both, whatever modes are set between them: both have the tool at the same place after every line if and only if every coordinate of every move is added by both or by neither, or added to zero |
| RelativeMoves.ModesOfText | gcode_viewer/js/prettygcode.js:1461-1512 | without M82 and M83: the map adds after the last G91, the viewer until the next move has used it up |
| RelativeMoves.OneMoveEachAgrees | gcode_viewer/js/prettygcode.js:1461-1512 | so with at most one move after each G91 both tools stay together |
| RelativeMoves.SecondRelativeMoveParts | gcode_viewer/js/prettygcode.js:1461-1512 | with `G91` and two moves `G1 X1` the viewer ends at 1, the map at 2 |
| RelativeMoves.RelativeMoveOpensAlike | gcode_viewer/js/prettygcode.js:1359-1361 | at a relative move the viewer compares the new E with zero: to another height, both open a layer or neither does if and only if the new E is positive just when the move carries E and raises it |
| ObjLoader.ObjObject.RemoveEmptyGroups | gcode_viewer/js/OBJLoader.js:128-138 | the backward loop drops exactly the materials whose group is empty, keeping the order |
| ObjLoader.ObjObject.Finalize | gcode_viewer/js/OBJLoader.js:118-157 | closes the last group; at the end of an object also drops empty groups and adds a placeholder when there is no material |
| ObjLoader.ObjObject.StartMaterial | gcode_viewer/js/OBJLoader.js:60-100 | a new material starts where the previous one ends and replaces an inherited or empty one |
| ObjLoader.ParserState.StartObject | gcode_viewer/js/OBJLoader.js:27-175 | the first declaration renames the initial object; any other finalises the current object and inherits a named material |
| ObjLoader.ParserState.AddVertices | gcode_viewer/js/OBJLoader.js:187-192 | a face becomes the fan of triangles at its first corner, lines and points emit their vertices; negative indices count from the end |
| ObjLoader.ParserState.Read | gcode_viewer/js/OBJLoader.js:435-628 | what each kind of line does to the parser state |
| ObjLoader.Parse | gcode_viewer/js/OBJLoader.js:355-630 | the state after the line loop and the final `finalize` |
| ObjGeometry.ObjectsAreSketched | gcode_viewer/js/OBJLoader.js:27-192 | for any lines every object has the name and lists the file vertices that an account by the format gives: it counts `v` lines, follows the indices and fans the faces |
| ObjGeometry.LineIsEmitted | gcode_viewer/js/OBJLoader.js:187-345 | what a line emits stands in one piece in its object behind what came before |
| ObjGeometry.IndicesNameVertices | gcode_viewer/js/OBJLoader.js:187-345 | over any run: indices in 1..count or -count..-1 emit vertices 0 to count - 1, 1 the first and -1 the last one read, i the same as i - count - 1; triangle k of a face has corners 0, k + 1, k + 2 |
| ObjGeometry.MaterialsAreDeclared | gcode_viewer/js/OBJLoader.js:60-100 | every material of every object was named by some `usemtl` line, with the library named last before that line |
| ObjGeometry.PlaceholderIsSmoothed | gcode_viewer/js/OBJLoader.js:140-148 | an object that ends without any material gets a placeholder with the smoothing in force |
| ObjAttribution.LineKeepsMatch | gcode_viewer/js/OBJLoader.js:27-175 | every line keeps the invariant: all groups closed, contiguous and non-empty but the last, which is open from where they end, each over the vertices painted with its name |
| ObjAttribution.GroupsTileGeometry | gcode_viewer/js/OBJLoader.js:60-157 | for any lines, an object with more than one material has groups that start at 0, meet end to start, are not empty and end at the vertex count |
| ObjAttribution.MaterialAttribution | gcode_viewer/js/OBJLoader.js:27-175 | for any lines, every vertex of every object is drawn with the material that an account without groups, inheritance copies or splices paints it with |
| ObjRecency.AttributedExactlyWithoutRepaint | gcode_viewer/js/OBJLoader.js:27-175 | every vertex emitted after some `usemtl` carries the most recent name if and only if no named `usemtl` finds vertices of the current object left without material after an earlier one |
| ObjRecency.NamedMaterialsAreAttributed | gcode_viewer/js/OBJLoader.js:27-175 | so it does for every file whose `usemtl` names are not empty, across objects, inheritance and dropped groups |
| ObjRecency.UnnamedMaterialIsRepainted | gcode_viewer/js/OBJLoader.js:159-171 | five lines with an empty name for which it does not: the empty name is not inherited, the next name takes the vertices |
| AmsAssignment.StepKeepsInv | backend/app/main.py:1684-1725 | every step of every callback keeps the invariant of table, locks, holders and open sessions |
| AmsAssignment.SlotsStayUnique | backend/app/main.py:1684-1725 | in every interleaving of any number of callbacks, unlink deletes outside the lock and rollbacks included, the table never holds two rows for one slot |
| AmsAssignment.InsertsNeverConflict | backend/app/main.py:1849-1887 | no insert under the lock meets a committed or pending row of its slot, so the unique constraint is never violated |
| AmsAssignment.ReleasedWithNothingPending | backend/app/main.py:1684-1725 | when a callback gives up the lock no other callback of the printer is in the block, and nobody has an uncommitted row for any of the printer's slots |
| AmsAssignment.LockExcludes | backend/app/main.py:546-552 | two callbacks of one printer are never inside the block together, although locks are created on first use |
| AmsAssignment.RaceWithoutLock | backend/app/main.py:526-539 | what the lock is for: without it two callbacks that reach the block with a slot free can both find it free, and the second insert meets the first one's row |
| AmsTable.CommittedUnlinkRemoves | backend/app/main.py:1652-1660 | over any run: a committed unlink takes out of the table exactly the rows that its session deleted, all of its own printer, and none of them ever comes back |
| AmsTable.FailedUnlinkRemovesNothing | backend/app/main.py:1674-1675 | one that fails takes out nothing |
| AmsTable.CommittedInsertOccupies | backend/app/main.py:1849-1887 | a committed assignment puts a row under a new number into the slot that was checked |
| AmsTable.OtherPrintersKeepRows | backend/app/main.py:1684-1725 | no step of a callback changes, adds or removes a row of another printer |
| AmsTable.EntersExactlyWhenEmpty | backend/app/main.py:546-552 | in every reachable state a callback at the lock can enter the block if and only if no callback of its printer is inside |
| ExpectedPrints.PrintRegistry.RegisterExpectedPrint | backend/app/main.py:703-740 | registers the file name, and for a `.3mf` its base and `.gcode` aliases, all with the same time; mapping and plate only when given |
| ExpectedPrints.PrintRegistry.TakeExpected | backend/app/main.py:2654-2678 | the first probed key that holds an archive wins and all probed keys are dropped; without a match they are dropped as well |
| ExpectedPrints.PrintRegistry.EvictStale | backend/app/main.py:6024-6055 | the sweep over the dictionaries in place |
| ExpectedPrints.KeysEvolveAlone | backend/app/main.py:703-740 | after any run of registrations, starts and sweeps both dictionaries hold for every key exactly what its own history says |
| ExpectedPrints.DomainsAgree | backend/app/main.py:392-402 | in every reachable state the two dictionaries have the same keys |
| ExpectedPrints.HeldSinceRegistration | backend/app/main.py:703-740 | a key that is held was registered for that archive and has neither been probed by a start nor expired since |
| ExpectedPrints.StartPicksUpRegistration | backend/app/main.py:2669-2678 | a start only picks up an archive registered for one of the keys it probes |
| ExpectedPrints.MatchIsFirst | backend/app/main.py:2669-2678 | the archive is that of the first probed key that holds one |
| ExpectedPrints.StartFindsExactly | backend/app/main.py:2654-2678 | when nothing else is expected under the names a start asks for, it finds a registration if and only if that is for its printer and known under one of them: by the subtask with and without extensions, or by the last part of the path |
| ExpectedPrints.CubeIsFound | backend/app/main.py:2658-2667 | a start with subtask "Cube", or with the path "/data/Cube.gcode.3mf", finds what was registered as "Cube.gcode.3mf" |
| PrintNames.ProbedInOrder | backend/app/main.py:2657-2667 | which names a start asks for, and in which order |
| ExpectedPrints.PlateIsKeptExactly | backend/app/main.py:725-740 | over any run a plate is stored for an archive if and only if some registration named it and since then none has named another, the print has not completed and no sweep has taken the archive's last key |
| ExpectedPrints.MappingIsKeptExactly | backend/app/main.py:725-740 | and so is a mapping of filaments |
| ExpectedPrints.StartLeavesNoProbedKey | backend/app/main.py:2669-2678 | after a start none of the keys it probes is left, and all others are as they were |
| ExpectedPrints.SweepIsExact | backend/app/main.py:6035-6055 | a sweep keeps exactly the keys not older than the time to live, and drops an archive's mapping and plate exactly when it evicted that archive's last key |
| ExpectedPrints.GcodeAliasStaysExactlyWhenNotProbed | backend/app/main.py:715-718 | after a registration of `base.3mf` and any start, for any names, the `.gcode` alias is left, naming the archive, if and only if the start does not probe it |
| ExpectedPrints.GcodeAliasOutlivesStart | backend/app/main.py:715-718 | for every base name without dots and slashes, registering `base.3mf` and starting it under that name leaves it |
| ActivePrints.ActiveRegistry.TrackStart | backend/app/main.py:2756-2759 | the keys a start stores, on the expected path and on the archive-creating paths |
| PrintNames.StoredExactly | backend/app/main.py:2755-2759 | after a start a name leads to its archive exactly when it is the subtask with `.3mf`, or on its path the archive's, the downloaded, the reported or the fallback name; all other keys are as they were |
| PrintNames.TriedForThreeMf | backend/app/main.py:4258-4280 | for a 3MF in any folder a completion tries the three names of the subtask, the file name and the path, in this order |
| PrintNames.TriedForGcode | backend/app/main.py:4258-4288 | for G-code it tries both 3MF names as well, and for the path the shorter one |
| PrintNames.TriedForOther | backend/app/main.py:4258-4291 | and so for a name with neither extension |
| ActivePrints.ActiveRegistry.FindArchive | backend/app/main.py:4253-4302 | probes the keys in order, removes them up to the match and all keys of the archive found |
| ActivePrints.FindableKey | backend/app/main.py:4253-4288 | a start with a file name, or on the expected path with a subtask name, stores a key that its completion probes |
| ActivePrints.FindsExactlyWhenNotLost | backend/app/main.py:4293-4302 | in any run in which starts and completions alternate per printer, archives shared or not, a completion finds the archive of its own start if and only if no other printer's completion has taken it since, and else nothing |
| ActivePrints.CompletionsPairExactlyWithoutSharing | backend/app/main.py:4293-4302 | in any such run that ends with all printers idle, every completion finds the archive of its own start if and only if none comes while another printer is printing the same archive |
| ActivePrints.CompletionsPairWithStarts | backend/app/main.py:4253-4302 | without such completions each one pops the archive of its own start, leaves no key of its printer and changes nothing for the others |
| ActivePrints.CompletionRemovesOneArchive | backend/app/main.py:4293-4302 | from any state a completion that finds an archive removes all its keys and no key of another |
| ActivePrints.CompletionDropsExactly | backend/app/main.py:4293-4302 | and from any state whatever a completion drops the keys it tried in vain and every key of the archive that the first other one holds |
| ActivePrints.OthersUntouchedExactlyWhenNotShared | backend/app/main.py:4299-4301 | in any such run a completion leaves the other printers' keys alone if and only if its own archive is lost already or no other printer is on it |
| ActivePrints.SharedArchiveIsLost | backend/app/main.py:4299-4301 | one archive started on two printers: the first completion removes the keys of both, the second finds nothing |
| PrintRestart.Backend.OnPrintStart | backend/app/main.py:2669-2958 | one start event: expected print, match by subtask id, match by name, revival, stale cancellation, or a new row |
| PrintRestart.Backend.Restart | backend/app/main.py:344-392 | a restart forgets the dictionaries and keeps the rows |
| PrintRestart.IgnoredExactly | backend/app/main.py:2639-2653 | a start of a file under /usr/, of nothing, or not expected with archiving off changes nothing; any other uses up what was expected for it |
| PrintRestart.ExpectedRowPrints | backend/app/main.py:2690-2753 | a handled start that matches an archive with a row sets that row to printing on the job's printer, started now, under the job's id or else the dispatch id; nothing else in it and no other row changes, and the job then has its archive |
| PrintRestart.ExpectedPrintAddsNoRowExactly | backend/app/main.py:2741-2753 | over any restarts and repeated starts after such a start no row is added if and only if the job leads to a live row by its id, or by its name to one with its id; it does when no newer row of the printer carries the id |
| PrintRestart.LedToRowPrints | backend/app/main.py:2843-2912 | an unexpected start whose id leads to a row, printing or given up, with no later unfinished row under the id, leaves all rows as they are, but for that one printing again without its reason |
| PrintRestart.LeadsNowhereExactly | backend/app/main.py:2849-2861 | the id leads nowhere, and the lookup by name begins, if and only if there is no such row |
| PrintRestart.NamedRowIsTakenUp | backend/app/main.py:2869-2958 | an unexpected start whose id leads nowhere gives the newest row under its name its id; only a row over 7200 seconds old, with the printer below one percent and another id, is cancelled with its reason, and one new row follows |
| PrintRestart.NewRowIsMade | backend/app/main.py:2960-2990 | a start that leads to no row adds one at the end, with its names, id, printer and both times, if an archive can be made |
| PrintRestart.ArchiveWithoutRow | backend/app/main.py:2680-2690 | an expected archive that has no row any more is taken off the list and no row changes |
| PrintRestart.LiveExactly | backend/app/main.py:2853-2867 | a row leads to its job by the id while it prints or when its failure reason begins with "Stale", as the reason of a row given up does |
| PrintNames.RowsAreSought | backend/app/main.py:2872-2872 | rows are looked up by the subtask as it is, or else by the file name without folder and extensions |
| PrintNames.CandidatesOfFile | backend/app/main.py:2960-2994 | which names a 3MF is looked for under, and in which order |
| PrintNames.CandidatesExactly | backend/app/main.py:2996-3006 | each of these names is tried as it is and with underscores for spaces |
| PrintNames.ListedExactly | backend/app/main.py:3110-3133 | a listed file is taken exactly when it ends with `.3mf` and contains the name without extension, whatever the case of letters and spaces or underscores |
| PrintNames.DisplayedExactly | backend/app/services/archive.py:47-70 | the display name is the file name without `.gcode.3mf`, `.3mf` or `.gcode`, in any case, the longest that fits |
| PrintNames.OthersLoseSuffix | backend/app/services/archive.py:66-70 | and any other name loses its last suffix |
| PrintNames.DownloadIsNamed | backend/app/services/archive.py:1176-1295 | a new archive from a 3MF has the last part of its path as file name, and the title inside or else the display name as print name |
| PrintNames.UntracedIsNamed | backend/app/main.py:3284-3325 | one without a 3MF has the reported file as file name and is called after the subtask, or else the file, without folder and extensions |
| PrintRestart.RestartsAddAtMostOneRow | backend/app/main.py:2843-2918 | for a job with a subtask id, from any rows whatever, any number of start events with restarts in between adds at most one row |
| PrintRestart.RestartsKeepTheArchive | backend/app/main.py:2891-2918 | when the id is carried by no other row, nothing after the first start that leaves it an archive changes any row: the archive keeps its status and `started_at` |
| PrintRestart.StaleRowStaysRevived | backend/app/main.py:2864-2918 | after a row was cancelled as stale, whatever starts and restarts follow: from the first handled start on that row prints again with its `started_at`, and no row is added or changed besides; before it nothing changes |
| PrintRestart.AtMostOneRowExactlyWithId | backend/app/main.py:2625-2635 | from every state, with archives made only from where the code gets them, at most one row is added if and only if the job has a subtask id |
| PrintRestart.WithoutIdRowsRepeat | backend/app/main.py:2869-2958 | without an id two starts with a restart between them leave one row if and only if the lookup by name finds the archive and does not take it for stale, whatever the archive was made from; otherwise two |
| PrintRestart.UnderscoredFileRepeats | backend/app/main.py:2996-3001 | a print "My Print" found as `My_Print.3mf` with another title in it gets two rows |
| PrintRestart.IdleRowRepeats | backend/app/main.py:2930-2944 | every job without an id can get two: its first row is given up after two hours at no progress |
| PrinterPresence.PresenceMonitor.OnStatusChange | backend/app/main.py:1155-1192 | the two edges of one status update on the dictionaries, other printers untouched |
| PrinterPresence.PresenceMonitor.WakeOfflineTask | backend/app/main.py:1091-1123 | a task whose sleep is over notifies if its printer is offline and removes its entry |
| PrinterPresence.NotifiesExactlyLastingEdges | backend/app/main.py:1166-1192 | for any timed updates, exactly the connected-to-disconnected edges followed by 60 seconds without a connected update are notified, each once and 60 seconds after the edge |
| PrinterPresence.ReconcilesOncePerConnection | backend/app/main.py:1155-1164 | reconciliation is spawned with the first update of every connected period whose state is neither empty nor the seven letters of "unknown" in any case, and at no other update; a period with only such states spawns none |
| PrinterPresence.FreshConnectionWaits | backend/app/main.py:1150-1164 | with "unknown" and then "RUNNING" it is spawned at the second update |
| OfflineTasks.NotifiedExactly | backend/app/main.py:1091-1123 | in any run a step notifies exactly when a task ends whose sleep is over and was not cut short, and the printer was last reported offline or never |
| OfflineTasks.CleanRunsAreTimely | backend/app/main.py:1173-1192 | when cancelled tasks end in steps of their own: in any run in which the printer never disconnects while a cancelled task is still to clean up, every notification comes at least 60 seconds after the last disconnect, with no connected update between |
| OfflineTasks.CleanRunsNotifyLastingEdges | backend/app/main.py:1173-1192 | if due tasks also wake on time, such a run notifies exactly what atomic cancellation notifies |
| OfflineTasks.UncleanDisconnectCanNotifyEarly | backend/app/main.py:1122-1123 | from every reachable state a disconnect while a cancelled task is still to clean up has a continuation with a notification less than 60 seconds after the last disconnect |
| OfflineTasks.DisconnectIsSafeExactlyWhenClean | backend/app/main.py:1122-1192 | after any clean run a disconnect leads to no early notification in any clean continuation if and only if no cancelled task is still to clean up |
| OfflineTasks.LateCleanupNotifiesEarly | backend/app/main.py:1122-1123 | a run in which a printer is reported offline two seconds after going offline |
| FinishPhoto.RunKeepsInv | backend/app/main.py:4064-4164 | every reachable state: signals are exactly the exited producers, consumers past the wait have waited, frames come from producers and are used once |
| FinishPhoto.ConsumerWaitsForProducer | backend/app/main.py:5050-5059 | a consumer that takes a producer's entry neither reads the cache nor grabs a frame until the producer has signalled or 20 seconds have passed, and a signal means the producer has exited |
| FinishPhoto.WaitEndsExactly | backend/app/main.py:5050-5059 | the wait can end if and only if the producer has exited or 20 seconds are over since the entry was taken |
| FinishPhoto.EntryIsLastRegistered | backend/app/main.py:4064-4070 | in any run the entry is that of a producer if and only if it registered last and nobody has taken the entry since |
| FinishPhoto.RegisteredFirstIsWaitedFor | backend/app/main.py:4064-4070 | so in any run, whatever earlier prints left behind, a consumer that takes the entry after a producer registered, with no other registration or take between, waits for that producer |
| FinishPhoto.AlwaysWaitsExactlyWithEntry | backend/app/main.py:5050-5059 | in any run, when a consumer takes the entry, no continuation lets it past its waiting beside a given working producer within 20 seconds if and only if the entry is that producer's, or it has begun and is done |
| FinishPhoto.FrameIsUsedOnce | backend/app/main.py:5059-5066 | no frame is used by two consumers, and a used one is out of the cache |
| FinishPhoto.ConsumerUsesStoredFrame | backend/app/main.py:5059-5121 | in any run reading the cache gives a producer's frame if and only if it stored one and nobody has stored, read or dropped a frame since; a consumer that gets none grabs its own |
| FinishPhoto.NewPrintUsesNewFramesExactly | backend/app/main.py:2406-2408 | when a print start drops the cache, no continuation uses a frame of an earlier print's producer if and only if none of them is still on its way to storing one |
| FinishPhoto.FrameOfEarlierPrint | backend/app/main.py:2406-2408 | a run in which a producer stores after the next print has begun, and that print's consumer uses its frame |
| FinishPhoto.UnregisteredProducerIsNotWaitedFor | backend/app/main.py:5050-5059 | a run in which the consumer comes first and grabs beside a working producer at the same time |
| ColorConversion.RgbSurvivesHsv | gcode_viewer/js/dat.gui.js:422-466 | every colour in [0, 255]^3 comes back from HSV; black and greys, which have no hue, with any hue kept from before |
| ColorConversion.HsvSurvivesRgb | gcode_viewer/js/dat.gui.js:422-466 | every hue in [0, 360) with saturation and value in (0, 1] comes back from RGB, in all six sectors |
| ColorConversion.GreyHasNoHue | gcode_viewer/js/dat.gui.js:435-466 | a grey has no hue and no saturation, and comes back with any hue |
| ColorConversion.HueIsMissingExactlyForGreys | gcode_viewer/js/dat.gui.js:435-466 | the hue is missing (NaN) if and only if the three components are equal |
| ColorConversion.SectorIsMissingExactly | gcode_viewer/js/dat.gui.js:422-434 | a hue has no sector if and only if it is negative and not in the first sixth of a turn |
| ColorConversion.TurnsChangeNothing | gcode_viewer/js/dat.gui.js:422-434 | whole turns added to a hue that is not negative do not change the colour |
| ColorConversion.WordWrapsAround | gcode_viewer/js/dat.gui.js:476-478 | a component is cut off towards zero and taken modulo 2^32, negative ones as well, before it is shifted |
| ColorConversion.Color.RecalculateHsv | gcode_viewer/js/dat.gui.js:658-669 | hue, saturation and value of the colour in whatever space it is held; a missing hue leaves the kept one, or 0 when there is none |
| ColorConversion.Color.RecalculateRgb | gcode_viewer/js/dat.gui.js:649-657 | from HSV all three components follow; of a packed colour only the component asked for is unpacked |
| ColorConversion.Color.SetComponent | gcode_viewer/js/dat.gui.js:613-630 | writing one component gives the old colour with that component if and only if the colour was not packed or its two other fields were up to date |
| ColorConversion.WriteIntoPacked | gcode_viewer/js/dat.gui.js:613-630 | writing any component of a colour made from any packed one leaves it without the two others |
| ColorConversion.Color.GetHex | gcode_viewer/js/dat.gui.js:685-697 | reading the packed colour brings all fields up to date, packs them and switches the space |
| ColorConversion.PackedExactlyKeepsBytes | gcode_viewer/js/dat.gui.js:467-478 | a colour comes back from being packed if and only if its components are whole numbers from 0 to 255 |
| ColorConversion.Color.SetSaturation | gcode_viewer/js/dat.gui.js:631-648 | writing a component brings the other HSV fields up to date before it switches the space |
| ColorConversion.TouchSaturation | gcode_viewer/js/dat.gui.js:631-648 | writing a colour's own saturation back switches its space and keeps its components, packed or not |
| ColorHex.WriteThenRead | gcode_viewer/js/dat.gui.js:473-478 | writing one byte is read back at its place and leaves the two others alone |
| ColorHex.PackedComponents | gcode_viewer/js/dat.gui.js:467-478 | packing three bytes and reading them gives the three bytes |
| ColorHex.ComponentsPackBack | gcode_viewer/js/dat.gui.js:467-478 | every value below 2^24 is the packing of its components |
| ColorHex.ColorToString | gcode_viewer/js/dat.gui.js:46-51 | the padding loop gives `#`, zeros up to six digits, and the digits |
| ColorHex.WrittenReadsBackExactly | gcode_viewer/js/dat.gui.js:208-222 | what is written reads back as itself if and only if it is below 2^24 |
| ColorHex.ThreeDigitsAreRead | gcode_viewer/js/dat.gui.js:197-209 | a three-digit text is read as the six-digit text with every digit twice, and written back as that in lower case |
| ColorHex.ReadWritesBack | gcode_viewer/js/dat.gui.js:210-222 | any six-digit text, read and written again, is itself in lower case |
| ArcInterpolation.InterpolateArc | gcode_viewer/js/prettygcode.js:46-221 | the loop of incremental rotations with a periodic correction gives exactly the points of the arc, the start before them and the target after them |
| ArcInterpolation.IncrementIsDirect | gcode_viewer/js/prettygcode.js:167-183 | one more rotation by a segment is the direct formula for one segment more: in exact arithmetic the correction changes nothing |
| ArcInterpolation.PolylineEnds | gcode_viewer/js/prettygcode.js:58-220 | max(n, 1) + 1 points, the first the start and the last the target, the arc between |
| ArcInterpolation.InteriorKeepsRadius | gcode_viewer/js/prettygcode.js:170-191 | every interior point is as far from (x + i, y + j) as the start, turned by its share of the travel in the direction of the arc |
| ArcInterpolation.HeightIsLinear | gcode_viewer/js/prettygcode.js:144-207 | height and extrusion go up by equal steps that arrive at the target |
| ArcInterpolation.SegmentsAreShortEnough | gcode_viewer/js/prettygcode.js:104-139 | the part of the helix that a segment stands for is no longer than the segment length, which lies in [0.1, 1.0]; one segment fewer would not do |
| ArcInterpolation.TravelRange | gcode_viewer/js/prettygcode.js:96-133 | the angle is the `atan2` angle up to whole turns, with the sign of the direction and at most one turn; an arc back to its start is a full turn |
| ArcInterpolation.ArcClosesExactlyOnCircle | gcode_viewer/js/prettygcode.js:84-220 | continued by its last segment the arc arrives at the target if and only if the target is on the circle |
| CameraControls.Controls.EncloseToBoundary | gcode_viewer/js/camera-controls.js:963-994 | in the shared scratch vectors the method computes what the specification says, and says when the friction is divided by zero; without friction and from inside the box the result is the clamped point |
| CameraControls.Controls.Truck | gcode_viewer/js/camera-controls.js:605-626 | the target's end position moves along the camera's axes and stays in the box |
| CameraControls.Controls.Forward | gcode_viewer/js/camera-controls.js:628-643 | the same for a horizontal move |
| CameraControls.Controls.SetBoundary | gcode_viewer/js/camera-controls.js:753-769 | a new box pulls the end position into it |
| CameraBoundary.EnclosedIsProjection | gcode_viewer/js/camera-controls.js:963-994 | without friction and from inside the box every branch, "completely stuck" included, ends at the clamped point |
| CameraBoundary.ClampIsNearest | gcode_viewer/js/camera-controls.js:974-976 | which is the point of the box nearest to the wanted one |
| CameraBoundary.MovesStayInside | gcode_viewer/js/camera-controls.js:605-643 | any sequence of moves stays in the box |
| CameraBoundary.ProjectsExactlyUnlessStuckOutside | gcode_viewer/js/camera-controls.js:982-990 | from anywhere, without friction: the clamped point is reached if and only if the position was inside, or there is an offset and the push is not as long as it |
| CameraBoundary.StuckOutside | gcode_viewer/js/camera-controls.js:985-988 | a position outside the box that does not move |
| CameraBoundary.FrictionStaysInsideExactlyWithEqualShares | gcode_viewer/js/camera-controls.js:989-992 | with friction in (0, 1] the division is defined, and the result is in the box if and only if all axes that hit it are pushed back by the same share of their offset |
| CameraBoundary.FrictionLeavesTheBox | gcode_viewer/js/camera-controls.js:888-890 | with the full friction of the camera's own enclosure a corner hit ends outside the box |
| CameraControls.Controls.RotateTo | gcode_viewer/js/camera-controls.js:552-571 | the azimuth within its limits, the polar angle off the poles, and within its own limits as well when these leave room off the poles |
| CameraControls.AnglesKeepLimitsExactlyWithRoom | gcode_viewer/js/camera-controls.js:552-571 | taking clamped polar angles off the poles keeps all of them within the limits if and only if these leave such room |
| CameraControls.Controls.DollyTo | gcode_viewer/js/camera-controls.js:582-597 | the end radius within its limits |
| CameraControls.Controls.Update | gcode_viewer/js/camera-controls.js:835-898 | one call in place: follow or snap, keep the polar angle safe, report and clear the change flag |
| CameraDamping.GapsShrink | gcode_viewer/js/camera-controls.js:845-850 | while anything is left to go every gap shrinks by exactly one minus the ratio |
| CameraDamping.NearExactly | gcode_viewer/js/camera-controls.js:846-851 | what is left to go is negligible exactly when none of the six differences exceeds a thousandth |
| CameraDamping.SafeIsOffThePoles | gcode_viewer/js/camera-controls.js:882-882 | the polar angle ends at least a millionth off the poles, and stays when it is there already |
| CameraDamping.GapsAfterCalls | gcode_viewer/js/camera-controls.js:845-855 | after n calls with ratios of at least r every gap is at most the first bound divided by 1 + n r |
| CameraDamping.Settles | gcode_viewer/js/camera-controls.js:835-898 | after a number of calls computed from the largest gap and r the view is exactly its end state and nothing is reported any more |
| CameraDamping.StaysSettled | gcode_viewer/js/camera-controls.js:835-898 | from then on nothing changes or is reported, whatever the ratios |
| CameraDamping.QuietAfterCalls | gcode_viewer/js/camera-controls.js:892-897 | reports stop by that number of calls |
| CameraDamping.UnreportedMeansArrived | gcode_viewer/js/camera-controls.js:851-855 | a call that reports nothing has arrived exactly, whatever its ratio: the snap itself goes unreported |
| CameraDamping.ArrivesExactlyAtSafeEnd | gcode_viewer/js/camera-controls.js:882-882 | the snap reaches the end state if and only if its polar angle is off the poles |

## Left out

- Floating point: rounding, overflow and infinities do not occur in the reals; `sin`, `cos`, `atan2`, `hypot` and `exp` are parameters with their equations.
- The print head simulator of prettygcode.js, whose arc path passes a state without coordinates.
- `syncGcodeObjTo` of prettygcode.js, which compares heights instead of layer numbers and has no caller.
- The scene: bounds, shading of the line colours, fat lines, materials, rendering.
- The feed rate argument `f`, which no result depends on.
- LayerAgreement.DetectorsAgree: speaks of lines of absolute positioning that both readers take for the same command; a line whose only semicolon is its last character need not be one, because the viewer keeps that semicolon in its last token and the map drops it.
- LayerAgreement.ToolsAgree: speaks of the same lines; `RelativeMoves.ToolsAgreeExactly` speaks of those that set relative modes as well.
- GcodeViewer.GCodeParser.PushSegment: the shade of a line, which depends on its direction, and the scene bounds are left out; a stroke keeps its colour, its layer's parity and whether it is mirrored.
- LayerMap.ParseGcodeLayerMap: a recorded move is kept as its three coordinates, because its text is only a print of them with three decimals.
- ObjLoader.ParserState.AddVertices: texture coordinates, normals and vertex colours, whose index variables the code reuses, are not part of the state.
- ObjLoader.ParserState.Read: a line is a datatype value; reading its words is left out.
- ObjLoader.Parse: takes line values and stops before the meshes are built.
- The identity of OBJ material objects created from the groups, and material libraries beyond their names.
- ColorConversion.Color.SetComponent: components that are missing are only reported as such; the numbers computed from them are NaN in the source, as are hue, saturation and value.
- CSS and object notations of dat.gui colours, and opacity.
- CameraControls.Controls.Update: without the dolly towards the cursor and without placing the camera itself, which need the projection and the trigonometry of the view.
- CameraControls.Controls.EncloseToBoundary: when the friction is divided by zero, which happens only from outside the box, the coordinates are infinite or no numbers in the source; the method only reports it.
- Orthographic cameras, touch and mouse events, viewports, saving and restoring of camera states.
- `_expected_print_creators`, which the code does not keep in step with the other two dictionaries.
- In ExpectedPrints, the exits of a print start before the registry is looked at: calibration files, events without a name, archiving switched off without an expected print.
- ActivePrints.CompletionsPairWithStarts: starts that resume an existing row are not part of the runs, because they store only the archive's own file name and rely on a database lookup at completion.
- PrintRestart.Backend.OnPrintStart: file transfer, parsing of the archive and energy readings are left out; a created row has a fresh identifier from outside. A 3MF from the printer's cache may carry another name than the candidates, and the check of the plate number, which may replace the subtask name, is left out.
- Manual assignment of spools over the web interface, which does not take the lock.
- PrinterPresence.NotifiesExactlyLastingEdges: takes the cancellation of a task as atomic; `OfflineTasks` does not.
- In OfflineTasks a cancelled task has begun its sleep: one cancelled in the very step that created it has no `finally` to run.
- PrinterPresence.PresenceMonitor.WakeOfflineTask: the printer is offline when its last update said so, and the notification itself does not fail.
- In FinishPhoto the timelapse frame, the external camera and the buffered stream are one fallback grab, and a frame is named by the producer that took it.
- In AmsAssignment the choice of the spool, weights and colours, and the broadcast after a commit are not part of a step.
- A line of no known kind, which makes the OBJ parser throw.
- Authentication, routes, database sessions, MQTT, FTP and notifications.
