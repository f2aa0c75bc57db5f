# Verified models of the SMAUG server's search, grid, text and bookkeeping routines

This project models the routines of a C# port of the SMAUG MUD server that carry real algorithms, and proves what
they are for. Code that changes things step by step (classes, arrays, loops) is written as classes and methods; each
method is proved to compute a function of its inputs and old state, and lemmas prove what that function means.
`dafny verify dfyconfig.toml` checks everything.

| files | what they model |
|---|---|
| `RoomGraph.dfy`, `ExitOrder.dfy`, `Tracking.dfy` | breadth-first search for the first step towards a room, with marks on rooms, a work queue and a list of touched rooms |
| `TrackingAsWritten.dfy` | the same search with its statements exactly as they stand, what calls leave to one another in the static queue, and when an answer is right all the same |
| `Splicing.dfy` | rewriting a formula at regular-expression matches with a running length offset |
| `LineOfSight.dfy`, `SightDrawn.dfy`, `Mapper.dfy`, `OpenWays.dfy` | the recursive line-of-sight fill of the map around a player, and what the map means in terms of the exits |
| `WeatherSweep.dfy`, `WeatherFlow.dfy`, `WeatherMap.dfy`, `WeatherLaws.dfy` | the weather grid: one sweep over all cells and their neighbours, what each cell gains by it, the application of the deltas, and the rules for one cell in plain numbers |
| `ObjectListing.dfy` | the inventory listing with merged and imaginary objects |
| `WordWrap.dfy`, `SentencePicker.dfy`, `Syllables.dfy`, `Language.dfy` | word wrapping, distinct random sentence numbers, mystic syllables, garbled speech |
| `ExtendedBitvector.dfy` | the 128-bit flag vector |
| `SkillTable.dfy` | the keyed store, id generation and skill lookup |
| `AreaEconomy.dfy` | the gold of an area in two 32-bit integers |
| `MachinePool.dfy` | the round-robin pool of virtual machines |
| `Wrappers.dfy`, `Basics.dfy` | results, exceptions and small functions that the others share |

Conventions. Random draws are oracles: a draw is either named by the place that asks for it and answered by an
arbitrary function, or taken from an arbitrary stream, so every statement holds for all dice. Exceptions are the
value `Thrown`. Object identity matters only where a class is used; elsewhere entities are values.

## Where the code and its purpose part

* `find_first_step` (`track.cs`) cannot work as written. The flag `BfsMark` is 2 to the 32nd, and its conversion to
  32 bits in the initialiser of the class is an exception, so every call ends in an exception
  (`TrackingAsWritten.MarkDoesNotFit`). Even with a mark that fits, `MARK` only tests the flag, `UNMARK` computes flags
  it does not store, the queue head is read once before the loop, `clean_room_queue` does not unmark, and a destination
  number is compared with null. `Tracking` models the search these statements set out to perform; the C original in
  `Source/SmaugCS/CCode/Source/track.c` performs it, although compiled so that it also goes through closed exits, which
  `track.cs` and the model do not. `TrackingAsWritten` models the statements as they are, for any number of the mark and
  any contents of the static queue: a reachable target is answered rightly exactly when the mark fits into 32 bits, no
  exit of the source leads to a missing room, the target is the head of the queue, at least one room may be examined,
  and the head's direction, if the entry is left over from an earlier call, happens to start a shortest walk. On an
  empty queue the head is the room behind the source's first exit that is neither closed nor leads to a room loaded
  with the mark. With a mark that fits, only a search that ends in an exception over an exit to a missing room leaves
  entries behind (`OnlyThrowsLeave`, `QuietRun`, `SoundLand`); `StaleHead` is a call so spoilt, and `TwoStepsAway` a
  corridor of three rooms that is not crossed.
* An expression with both a replacement function and a replacement reference, or with neither, spoils the formula:
  splicing is substitution exactly when there is no match, or each match is given one text, or the first match is the
  whole formula and is given no text, or two texts that are empty for all matches but the last (`Splicing.SpliceIff`;
  `BothAreUsed` is a spoilt sum).
* The mapper allows map sizes up to 100, but its array is large enough only up to 95 (`Mapper.SizesThatFit`).
* `WeatherMap` keeps its grids as arrays of arrays and asks them for a second extent whenever it looks up a cell, which
  is an exception: as written no sweep of a map with cells gets past its first lookup, and nothing can be said of what
  the lookups are for. The model takes the grids as rectangular, so that lookups succeed; `WeatherSweep.SweepCompletes`
  covers both. On rectangular grids the sweep, which divides by the number of neighbours less one, still ends in a
  division by zero on every map with a single row or column except the single cell (`OneByTwo` is the smallest). Nine
  equal pressures are divided by seven, and half the pressure or a die is added or taken off: an inner cell among equal
  pressures keeps its own exactly when that lies between -1 and 1, or, where the change is left to the dice, when these
  make up for the quotient (`WeatherSweep.CalmCellDrifts`, `CalmMapDrifts`; in `DriftsAtThree` dry air at pressure 3
  drifts). `ClearWeatherDeltas` leaves the deltas as they are and the deltas are never created; the model starts from
  one delta object for each cell and clears them.
* The inventory listing provides for hidden objects, but its offset is never negative
  (`ObjectListing.OffCountRange`).
* `EconomyHas` can answer wrongly in debt or beyond two billions; `AreaEconomy.HasRightIff` says exactly when, and
  `TwoBillionsTooFew` is a case. Boosting is undone by lowering for every 32-bit sum, but lowering by boosting only
  as long as the small change stays in the 32-bit range (`AreaEconomy.LowerUndoneIff`).
* Word wrapping ends for width 0 exactly when every character of the text is a separator (`WordWrap.LoopEndsIff`; `" a"`
  never ends, `WordWrap.SpaceThenLetter`). A negative width always ends in an exception.

## Model

| member | source | states |
|---|---|---|
| Tracking.Tracker.FindFirstStep | Source/SmaugCS/track.cs:73-130 | always ends with both queues empty and no room marked; error, same-room and other-area answers; otherwise the answer is a function of the graph alone, a direction is that of the first exit in the list that starts a shortest walk of open exits, and with a budget of at least the number of rooms "no path" is answered exactly when the target is unreachable |
| RoomGraph.SearchCorrect | Source/SmaugCS/track.cs:87-129 | the same for the search as a function: shortest first step, and completeness when the budget covers all rooms |
| RoomGraph.StepIs | Source/SmaugCS/track.cs:39-46 | a step of a walk is one exit that is not closed between two known rooms |
| RoomGraph.SearchThreshold | Source/SmaugCS/track.cs:99-109 | for every reachable pair one number, at most the number of rooms, decides: below it every budget gives up, from it on every budget gives the same direction |
| ExitOrder.SearchSettled | Source/SmaugCS/track.cs:87-129 | with a budget for all rooms the answer is a direction if and only if it is that of the first exit in the source's list that starts a shortest walk |
| ExitOrder.HeadStarts | Source/SmaugCS/track.cs:118-125 | a room found from the head of the queue shares the head's first-level exit, and no earlier exit of the source starts a walk as short to it |
| ExitOrder.SmallBudgets | Source/SmaugCS/track.cs:99-116 | a budget of none finds nothing, a budget of one just the room behind the first exit that is followed |
| RoomGraph.BudgetOnlyHides | Source/SmaugCS/track.cs:104-109 | from any queue and any marks, a larger budget never changes an answer that names a direction |
| RoomGraph.NextState | Source/SmaugCS/track.cs:118-125 | one round of the loop keeps the search state: every queued room carries the first direction of a walk of its depth, the queue is ordered by depth over at most two levels, and dequeued rooms have only marked neighbours no deeper than one more |
| RoomGraph.HeadIsNearest | Source/SmaugCS/track.cs:101-126 | in any search state no walk to a room that was not examined is shorter than the head is deep |
| RoomGraph.ExploreCorrect | Source/SmaugCS/track.cs:102-129 | from any search state, not only the first, the loop's answer is right |
| Tracking.Tracker.Scan | Source/SmaugCS/track.cs:91-97 | marks, lists and queues each unmarked neighbour behind an open exit once, in exit order |
| Tracking.Tracker.ValidEdge | Source/SmaugCS/track.cs:39-46 | an exit is followed exactly when it is open, leads to a known room, and that room is unmarked |
| Tracking.Tracker.CleanRoomQueue | Source/SmaugCS/track.cs:68-71 | empties the list of touched rooms and leaves no room marked |
| TrackingAsWritten.MarkDoesNotFit | Source/SmaugCS/track.cs:19 | with the program's own number of the mark every call ends in an exception, leaves the queue as it was, and answers no search rightly |
| TrackingAsWritten.Tracker.FindFirstStep | Source/SmaugCS/track.cs:73-130 | the statements as they stand, for any number of the mark, any contents of the static queue and any marked rooms, end in the answer and the queue of a closed form: an exception when the mark does not fit into 32 bits; else the head's direction when the head is the target, else "no path" or an exception |
| TrackingAsWritten.Tracker.Scan | Source/SmaugCS/track.cs:91-97 | queues the unmarked room behind each exit that is not closed, and stops with an exception, keeping what it has queued, at the first such exit that leads to no known room, or at the very first when the mark does not fit |
| TrackingAsWritten.RightWhenReachable | Source/SmaugCS/track.cs:19-116 | for any queue found at the call, exactly when a reachable target is answered rightly: the mark fits into 32 bits, no exit of the source dangles, the target is the head of the queue, the budget is positive, and a left-over head names the start of a shortest walk |
| TrackingAsWritten.RightWhenUnreachable | Source/SmaugCS/track.cs:19-129 | for any queue found at the call, exactly when an unreachable target is answered with "no path" rather than with a left-over direction or an exception; the mark must fit into 32 bits |
| TrackingAsWritten.OnlyThrowsLeave | Source/SmaugCS/track.cs:91-126 | a search leaves entries in the static queue only when it ends in an exception, because the mark does not fit or over a dangling exit of the source or of the head |
| TrackingAsWritten.QuietRun | Source/SmaugCS/track.cs:73-130 | in any run of calls, as long as none has ended in an exception every call finds the queue empty |
| TrackingAsWritten.SoundLand | Source/SmaugCS/track.cs:73-130 | where testing an exit never ends in an exception every call of every run finds the queue empty |
| TrackingAsWritten.StaleHead | Source/SmaugCS/track.cs:91-116 | for every mark that fits, two calls of which the first leaves an entry that turns the second, right from an empty queue, into an exception |
| TrackingAsWritten.TwoStepsAway | Source/SmaugCS/track.cs:101-126 | for every mark that fits, a target two open exits away that is answered with "no path" |
| Splicing.ReplaceExpressionMatches | Source/Libaries/Library.NCalc/ExpressionParser.cs:77-102 | the two nested loops compute the pass over all expressions; when each expression gives each match one text the result is substitution, expression after expression, and with functions alone each match is replaced by what the function makes of it |
| Splicing.FunctionReplaces | Source/Libaries/Library.NCalc/ExpressionParser.cs:113-117 | an expression with a function alone substitutes the function's text for each match |
| Splicing.MemberReplaces | Source/Libaries/Library.NCalc/ExpressionParser.cs:119-139 | an expression with a method or a property of the target alone substitutes that member's text |
| Splicing.LevelTimesTwo | Source/Libaries/Library.NCalc/ExpressionParser.cs:86-117 | "L*2" becomes "Level()*2" |
| Splicing.SpliceIsSubstitute | Source/Libaries/Library.NCalc/ExpressionParser.cs:86-141 | with one text for each match the running offset is right, no slice leaves the working string, gaps are kept and every match is replaced once, for any ordered matches and replacement lengths |
| Splicing.SpliceIff | Source/Libaries/Library.NCalc/ExpressionParser.cs:104-142 | for any ordered matches, exactly when splicing is substitution: no match, one text for each, or a first match that is the whole formula with no text, or with two that are empty for all matches but the last |
| Splicing.SpliceIffOneText | Source/Libaries/Library.NCalc/ExpressionParser.cs:104-142 | while some character lies outside the matches, splicing is substitution if and only if each match is given exactly one text |
| Splicing.BothAreUsed | Source/Libaries/Library.NCalc/ExpressionParser.cs:112-141 | a sum that an expression with both a function and a property turns into 1+21+2 |
| Splicing.TwoTextsTooLong | Source/Libaries/Library.NCalc/ExpressionParser.cs:112-141 | with two texts nothing is thrown and the result is longer than the substitution |
| Splicing.NoTextLeavesNothing | Source/Libaries/Library.NCalc/ExpressionParser.cs:112-117 | with no text the formula is lost: the empty string or an exception |
| Splicing.SubstituteLength | Source/Libaries/Library.NCalc/ExpressionParser.cs:104-142 | the substitution is as long as the original less what the matches cover plus their texts |
| Mapper.MapArray.MapArea | doc/mods/ackmapper.c:624-710 | the recursion on the 100 by 100 array terminates on any room graph, keeps every index inside the array for a window two cells clear of the edge, and draws exactly the picture of the unbounded fill |
| Mapper.MapArray.DrawMap | doc/mods/ackmapper.c:888-903 | for sizes 3 to 95 the array ends up holding the finished map around the middle |
| Mapper.SizesThatFit | doc/mods/ackmapper.c:879-903 | all cells written lie inside the array, for every world, if and only if the size is at most 95 |
| Mapper.RoomsOnMap | doc/mods/ackmapper.c:632-708 | each cell on the four lines through the centre carries exactly the mark of the room seen there, or is unseen |
| Mapper.RoomsOnAxes | doc/mods/ackmapper.c:632-708 | every cell with a room mark lies on the row or column through the centre at an even distance |
| Mapper.SeenAlongRun | doc/mods/ackmapper.c:684-706 | a room seen n rooms away is joined to the centre by a run of n passable shown exits in one direction |
| Mapper.RunIsSeen | doc/mods/ackmapper.c:648-708 | conversely, a run inside the window is seen to its end when in each room passed every exit leads back and no two point the way of the run |
| Mapper.DoorsOnMap | doc/mods/ackmapper.c:692-694 | every other mark is a door: exactly one offset is odd, and a drawn room next to it faces it with that mark |
| Mapper.EveryDoorShows | doc/mods/ackmapper.c:692-694 | no shown door of a drawn room inside the window is missing or overwritten by a room |
| Mapper.EnteredOnce | doc/mods/ackmapper.c:632-636 | the fill enters no cell twice, and the cells entered are exactly those with a room mark |
| OpenWays.SeenClearly | doc/mods/ackmapper.c:663-706 | every room mark belongs to a room joined to the centre by a straight run of exits that lead back and have no door or one neither locked nor closed |
| OpenWays.ClearRunSeen | doc/mods/ackmapper.c:663-706 | conversely such a run inside the window, through rooms whose exits all lead back and do not repeat its direction, is seen to its end |
| OpenWays.NothingBehindDoors | doc/mods/ackmapper.c:677-706 | where all exits of a drawn room in one direction are closed or locked doors, every room cell beyond is unseen |
| OpenWays.RoomNumbers | doc/mods/ackmapper.c:637-667 | in numbers, what each cell of the four lines carries: 18 unseen, 19 when some compass exit of the room has no way back, else its sector |
| OpenWays.DoorClearly | doc/mods/ackmapper.c:671-694 | every other mark is the number of an exit of a drawn room next to it that is visible: no keyword, and no door, an open one, or a closed one that is not hidden |
| OpenWays.DoorShows | doc/mods/ackmapper.c:671-694 | conversely every visible exit of a drawn room whose exits lead back leaves a mark |
| OpenWays.NorthOfHere | doc/mods/ackmapper.c:632-706 | two rooms: the northern one is drawn at (48, 50) unless the door between is closed |
| SightDrawn.AreaCorrect | doc/mods/ackmapper.c:624-710 | a line of sight over blank cells draws the rooms it shows, each of their doors, and nothing else |
| SightDrawn.ExitsCorrect | doc/mods/ackmapper.c:648-708 | the loop over a room's exits, from any exit on and with any directions already closed off, draws what those exits show |
| WeatherSweep.SweepConserves | Source/SmaugCS.Weather/WeatherMap.cs:404-450 | over the whole sweep the total of the delta temperatures changes only by the day/night adjustments and that of the delta humidities only by the precipitation adjustments, for any size, weather and dice |
| WeatherSweep.ExchangeConserves | Source/SmaugCS.Weather/WeatherMap.cs:480-501 | wind between two neighbours leaves both totals unchanged |
| WeatherSweep.VisitBalance | Source/SmaugCS.Weather/WeatherMap.cs:412-447 | visiting one cell adds exactly its own adjustment to the totals and changes no other cell |
| WeatherSweep.SweepCompletes | Source/SmaugCS.Weather/WeatherMap.cs:108-122 | the sweep ends without an exception exactly on rectangular grids of a single cell or of at least two rows and two columns, so never on arrays of arrays |
| WeatherSweep.VisitPressure | Source/SmaugCS.Weather/WeatherMap.cs:420-454 | the pressure delta is the pressure of the three-by-three block divided by the number of neighbours less one, less the cell's own pressure, plus the rain adjustment |
| WeatherSweep.SweepPressure | Source/SmaugCS.Weather/WeatherMap.cs:404-462 | after the whole sweep every cell's pressure delta is a function of the pressures at the outset and of its own precipitation: no visit disturbs that of another cell |
| WeatherSweep.CalmCellDrifts | Source/SmaugCS.Weather/WeatherMap.cs:420-462 | exactly when the visit of an inner cell among equal pressures leaves its pressure alone: pressures from -1 to 1, or a die that makes up for the quotient |
| WeatherSweep.CalmMapDrifts | Source/SmaugCS.Weather/WeatherMap.cs:404-462 | the same for the whole sweep |
| WeatherSweep.DriftsAtThree | Source/SmaugCS.Weather/WeatherMap.cs:452-462 | a calm cell in dry air at pressure 3 is given a pressure delta of one |
| WeatherSweep.OneByTwo | Source/SmaugCS.Weather/WeatherMap.cs:404-454 | on a map of one by two cells the sweep ends in an exception |
| WeatherFlow.SweepFlow | Source/SmaugCS.Weather/WeatherMap.cs:404-501 | over the whole sweep each cell's delta of heat or moisture grows by the cell's own adjustment and by what its neighbours give it, and shrinks by what it gives them, all read from the cells at the outset and so independent of the order of the visits |
| WeatherFlow.SweepSide | Source/SmaugCS.Weather/WeatherMap.cs:404-518 | over the whole sweep each cell's delta takes up its own change of clouds, judged after its rain, and energy and wind from its neighbours, all read from the cells at the outset |
| WeatherFlow.VisitAmount | Source/SmaugCS.Weather/WeatherMap.cs:412-447 | what one visit adds to the delta of any cell, near or far |
| WeatherLaws.DayAndNight | Source/SmaugCS.Weather/WeatherMap.cs:545-551 | what day and night add to the die, for clear and overcast skies |
| WeatherLaws.RainDries | Source/SmaugCS.Weather/WeatherMap.cs:537-543 | precipitation above 40 takes a twentieth of itself off the humidity; otherwise the die |
| WeatherLaws.PrecipitationFollows | Source/SmaugCS.Weather/WeatherMap.cs:520-535 | how humidity and pressure together change the precipitation |
| WeatherLaws.CloudsFollow | Source/SmaugCS.Weather/WeatherMap.cs:503-518 | how humidity and precipitation together change the clouds |
| WeatherLaws.PressureFollows | Source/SmaugCS.Weather/WeatherMap.cs:452-462 | how precipitation changes the pressure |
| WeatherLaws.WindCarries | Source/SmaugCS.Weather/WeatherMap.cs:480-501 | a wind towards the neighbour carries a sixteenth of the two temperatures together and of the difference in humidity, any other nothing |
| WeatherLaws.WindRises | Source/SmaugCS.Weather/WeatherMap.cs:464-478 | a quarter of the pressure difference becomes wind away from the higher pressure |
| WeatherLaws.OneFieldPicked | Source/SmaugCS.Weather/WeatherMap.cs:366-402 | the die changes one field of the picked cell |
| WeatherLaws.DeltaTakenUp | Source/SmaugCS.Weather/WeatherMap.cs:303-310 | every field becomes the number in its range nearest to the sum of cell and delta |
| WeatherSweep.NeighbourCount | Source/SmaugCS.Weather/WeatherMap.cs:423-445 | the loops meet every neighbour on the map once: their number and the sum of their pressures |
| WeatherGrids.WeatherMap.CalculateCellToCellChanges | Source/SmaugCS.Weather/WeatherMap.cs:404-450 | the nested loops over the cell objects succeed exactly on sweepable maps that are not kept as arrays of arrays, and leave both grids holding the swept readings |
| WeatherGrids.WeatherMap.MeetNeighbours | Source/SmaugCS.Weather/WeatherMap.cs:420-445 | the loops around one cell leave both grids, the pressure sum and the neighbour count as the exchange with each neighbour makes them |
| WeatherGrids.WeatherMap.ApplyDeltaChanges | Source/SmaugCS.Weather/WeatherMap.cs:291-316 | each cell becomes the clamped sum of itself and its delta, every field in its range, and the deltas stay |
| WeatherGrids.WeatherMap.ClearWeatherDeltas | Source/SmaugCS.Weather/WeatherMap.cs:553-556 | the clearing that the call of `Initialize` is meant for: every delta is nothing again and no cell changes |
| ObjectListing.ShowListToChar | Source/SmaugCS/act_info.cs:133-261 | the three arrays are never indexed beyond their size, the item type written ahead of the merge decision included, and the lines shown are the listing on values |
| ObjectListing.ShownAddsUp | Source/SmaugCS/act_info.cs:183-247 | under each description the counts shown are those of the seen objects with it plus the imaginary objects inserted with it, exactly max(offcount, 0) of these in all, combined or not |
| ObjectListing.LinesMerge | Source/SmaugCS/act_info.cs:183-247 | with combining on, of two lines with the same text the later one is imaginary, so without imaginary objects all texts differ; with combining off every seen object has its own line |
| ObjectListing.SightsInOrder | Source/SmaugCS/act_info.cs:183-247 | every seen description has a line; with combining on, the lines that are not imaginary show seen descriptions in the order of first sight |
| ObjectListing.LooksOfLines | Source/SmaugCS/act_info.cs:183-247 | with combining on, a line that is not imaginary has the item type of the first seen object with its description; with combining off these lines carry the descriptions, counts and types of the seen objects in order; imaginary lines carry the texts and types of the imaginary objects in order |
| ObjectListing.SeenObjectsAre | Source/SmaugCS/act_info.cs:196-199 | seen are just the objects not worn, visible, and no traps unless traps are detected |
| ObjectListing.OffCountIs | Source/SmaugCS/act_info.cs:151-168 | the offset in numbers: nothing up to a disorder of 40, then the count in per cent of it, at most twice the count, less a draw below that |
| ObjectListing.OffCountRange | Source/SmaugCS/act_info.cs:151-168 | the offset is never negative and at most twice the number of objects, and is positive exactly for a disordered enough mind and a long enough list |
| ObjectListing.Place | Source/SmaugCS/act_info.cs:214-234 | the search from the end and the merge decision change the last entry with the description, or append one |
| WordWrap.Wordwrap | Source/SmaugCS/act_move.cs:29-49 | for every width and text on which the loop ends it joins the trimmed chunks; cut at its line ends the result of a text without any gives back just these, none longer than width + 1; a negative width is an exception |
| WordWrap.ResultLines | Source/SmaugCS/act_move.cs:45-48 | the same about the joined text as a function |
| WordWrap.LineIsChunk | Source/SmaugCS/act_move.cs:45 | each line is its raw chunk without the characters 9, 10, 13 and 32 at its ends |
| WordWrap.SeparatorsBreak | Source/SmaugCS/act_move.cs:40 | just the eleven separators, by their codes, let a line break after them |
| WordWrap.HelloWorld | Source/SmaugCS/act_move.cs:29-49 | "hello world" in lines of five |
| WordWrap.LoopEndsIff | Source/SmaugCS/act_move.cs:36-46 | the loop ends, within as many rounds as there are characters, exactly when the width is positive or every character is a separator |
| WordWrap.ChunksPartition | Source/SmaugCS/act_move.cs:36-46 | the raw chunks put together are the text |
| WordWrap.InkSurvives | Source/SmaugCS/act_move.cs:29-49 | all characters that are not white space survive in order |
| WordWrap.LinesFit | Source/SmaugCS/act_move.cs:36-46 | every line has at most width + 1 characters, and one of width + 1 ends in a separator that is not white space |
| WordWrap.BreakIsGood | Source/SmaugCS/act_move.cs:38-43 | the only break allowed: the end of the text when the rest fits, else just after the last separator in reach, else after exactly width characters when none is in reach |
| WordWrap.WidthZeroStandsStill | Source/SmaugCS/act_move.cs:38-46 | with width 0 one round makes no progress exactly at a character that is no separator |
| WordWrap.SpaceThenLetter | Source/SmaugCS/act_move.cs:36-46 | with width 0 a text that starts with a separator is never wrapped to its end |
| SentencePicker.PickSentences | Source/SmaugCS/act_move.cs:98-122 | the places filled hold the distinct draws in order, all of them numbers that can be drawn, and all places are filled exactly when the draws show enough different values |
| SentencePicker.UnusedValueLeft | Source/SmaugCS/act_move.cs:103-122 | at every retry some number that can still be drawn is not recorded |
| SentencePicker.AskedWithinRange | Source/SmaugCS/act_move.cs:103 | the number of sentences asked for is at most the number that can be drawn, and at most seven |
| SentencePicker.CompleteIff | Source/SmaugCS/act_move.cs:110-122 | the picks are complete exactly when enough different values were drawn |
| Syllables.ConvertStringSyllables | Source/SmaugCS/tables.cs:72-92 | the bounded loop computes the translation by first fitting entry |
| Syllables.LoopIsTranslate | Source/SmaugCS/tables.cs:77-89 | for every string the length is bound enough on the number of rounds |
| Syllables.TranslateUsed | Source/SmaugCS/tables.cs:72-92 | of letters and spaces all but a trailing blank remainder is translated, and that in full |
| Syllables.WordByWord | Source/SmaugCS/tables.cs:13-92 | the translation of a text is that of its words: what follows a space has no influence on what stands before it |
| Syllables.NeverStuck | Source/SmaugCS/tables.cs:13-65 | on letters and spaces an entry that consumes something always fits |
| Syllables.CaseDoesNotMatter | Source/SmaugCS/tables.cs:77-89 | names that differ in the case of their letters, by character codes, have the same translation |
| Syllables.FirstWords | Source/SmaugCS/tables.cs:16-21 | "ar" to "cu", translated |
| Syllables.MoreWords | Source/SmaugCS/tables.cs:22-29 | "de" to "ning", translated |
| Syllables.LastWords | Source/SmaugCS/tables.cs:30-37 | "per" to "ven", translated |
| Syllables.Letters | Source/SmaugCS/tables.cs:38-63 | every single letter, translated |
| Syllables.WhiteSpaceAfterSpace | Source/SmaugCS/tables.cs:87-88 | white space of any kind after a space is not translated |
| Language.LanguageData.Translate | Source/SmaugCS.Language/LanguageData.cs:40-61 | the loop over the words computes the translation, and for comprehension of 100 or more returns the text with only its outer spaces trimmed |
| Language.FullComprehension | Source/SmaugCS.Language/LanguageData.cs:40-104 | for comprehension of 100 or more and all dice the translation is the trimmed text |
| Language.ComprehensionIff | Source/SmaugCS.Language/LanguageData.cs:80-91 | that guarantee holds if and only if the comprehension is at least 100 |
| Language.SpokenSplit | Source/SmaugCS.Language/LanguageData.cs:43-57 | splitting at spaces and following each word by a space gives the text and one space back |
| Language.LettersOneForOne | Source/SmaugCS.Language/LanguageData.cs:63-78 | letter conversion keeps the length and exempt characters; other characters stay or become their alphabet equivalent |
| Language.EquivalentIs | Source/SmaugCS.Language/LanguageData.cs:106-112 | by character codes, which letter of a foreign alphabet stands for which, capitals staying capitals; anything else is an exception |
| Language.WordGarbled | Source/SmaugCS.Language/LanguageData.cs:45-104 | when every die beats the comprehension, a word becomes what the pre-conversions make of it if they change it, else its foreign letters put through all later conversions |
| Language.WordAtPar | Source/SmaugCS.Language/LanguageData.cs:63-104 | a die equal to the comprehension lets pre-conversions happen and nothing else |
| Language.FirstReplaced | Source/SmaugCS.Language/LanguageData.cs:87 | a conversion replaces the first occurrence and goes on behind it |
| Language.EmptyOldValueThrows | Source/SmaugCS.Language/LanguageData.cs:80-104 | a conversion of the empty string that comes to pass is an exception |
| Language.WordsHoldNoSpace | Source/SmaugCS.Language/LanguageData.cs:43 | the words hold no space |
| Language.ArrayBecomesIrio | Source/SmaugCS.Language/LanguageData.cs:45-104 | one word, through letters and a later conversion |
| Bitvectors.ExtendedBitvector.SetBit | Source/SmaugCS.Common/ExtendedBitvector.cs:76-79 | adds one number to the set, bit 31 of a word included |
| Bitvectors.ExtendedBitvector.RemoveBit | Source/SmaugCS.Common/ExtendedBitvector.cs:95-98 | takes one number out of the set |
| Bitvectors.ExtendedBitvector.ToggleBit | Source/SmaugCS.Common/ExtendedBitvector.cs:114-117 | moves one number into or out of the set |
| Bitvectors.ExtendedBitvector.SetBits | Source/SmaugCS.Common/ExtendedBitvector.cs:85-89 | union, also with the vector itself |
| Bitvectors.ExtendedBitvector.RemoveBits | Source/SmaugCS.Common/ExtendedBitvector.cs:104-108 | difference, also with the vector itself |
| Bitvectors.ExtendedBitvector.ToggleBits | Source/SmaugCS.Common/ExtendedBitvector.cs:123-127 | symmetric difference, also with the vector itself |
| Bitvectors.ExtendedBitvector.HasBits | Source/SmaugCS.Common/ExtendedBitvector.cs:148-157 | the answer is nonzero exactly when the sets meet, and then its bits are the common members in the first word that has any |
| Bitvectors.ExtendedBitvector.SameBits | Source/SmaugCS.Common/ExtendedBitvector.cs:164-172 | true exactly when the sets are equal |
| Bitvectors.ExtendedBitvector.IsEmpty | Source/SmaugCS.Common/ExtendedBitvector.cs:141 | true exactly for the empty set |
| Bitvectors.ExtendedBitvector.IsSet | Source/SmaugCS.Common/ExtendedBitvector.cs:67-71 | membership |
| Bitvectors.ExtendedBitvector.Clone | Source/SmaugCS.Common/ExtendedBitvector.cs:50-55 | the copy is equal and has words of its own |
| Bitvectors.ExtendedBitvector.MultiMeb | Source/SmaugCS.Common/ExtendedBitvector.cs:195-208 | the set of the given numbers, or the empty set when the first is negative |
| Bitvectors.SameMembers | Source/SmaugCS.Common/ExtendedBitvector.cs:164-172 | four words are equal exactly when their sets are |
| Bitvectors.ZeroWord | Source/SmaugCS.Common/ExtendedBitvector.cs:141 | a word is zero exactly when none of its 32 bits is set |
| Bitvectors.SymmetricWords | Source/SmaugCS.Common/ExtendedBitvector.cs:123-127 | word-wise exclusive or is symmetric difference |
| Bitvectors.MeetingWords | Source/SmaugCS.Common/ExtendedBitvector.cs:148-157 | two sets meet exactly when some pair of words has a common bit |
| SkillTable.RepositoryManager.AddSkill | Source/SmaugCS.Repository/RepositoryManagerExtensions.cs:46-54 | refuses a name that some recorded name starts with, else records it under the next id; the table stays well formed |
| SkillTable.RepositoryManager.LookupSkill | Source/SmaugCS.Repository/RepositoryManagerExtensions.cs:30-44 | the id of that very name if recorded, else that of some name that starts with it, else -1 |
| SkillTable.RepositoryManager.GenerateNewId | Source/SmaugCS.Repository/RepositoryManager.cs:56-60 | the highest id plus one is the number of skills plus one |
| SkillTable.RepositoryManager.GetEntityById | Source/SmaugCS.Repository/RepositoryManager.cs:156-161 | scanning the values for an id agrees with the lookup by key |
| SkillTable.RepositoryManager.AddAll | Source/SmaugCS.Repository/RepositoryManagerExtensions.cs:46-54 | a run of calls on an empty table gives the answers and the names of the run |
| SkillTable.RunOfAdds | Source/SmaugCS.Repository/RepositoryManagerExtensions.cs:46-54 | over any run the ids handed out are 1, 2, 3, ... without a gap, and no later name is a case-insensitive prefix of an earlier one |
| SkillTable.LookupKeepsId | Source/SmaugCS.Repository/RepositoryManagerExtensions.cs:30-54 | a name once added is looked up under its own id after any further calls |
| SkillTable.SameNameIs | Source/Libaries/Library.Common/Extensions/StringExtensions.cs:77-80 | names are the same exactly when they differ at most in the case of letters, by character codes |
| SkillTable.FoundInAnyCase | Source/SmaugCS.Repository/RepositoryManagerExtensions.cs:30-44 | whatever a lookup may answer for a name it may answer for every case variant |
| SkillTable.TakenInAnyCase | Source/SmaugCS.Repository/RepositoryManagerExtensions.cs:46-54 | a name is refused exactly when the beginning of a recorded name is a case variant of it |
| SkillTable.Fireball | Source/SmaugCS.Repository/RepositoryManagerExtensions.cs:30-54 | with "Fireball" on record "fireball" is found and "fire" refused |
| SkillTable.Repository.Add | Source/Libaries/Patterns.Repository/Repository.cs:11-17 | adds exactly when the key is new |
| SkillTable.Repository.Delete | Source/Libaries/Patterns.Repository/Repository.cs:19 | deletes exactly the key, if present |
| AreaEconomy.AreaData.BoostEconomy | Source/SmaugCS.Data/AreaData.cs:67-81 | for all 32-bit integers the two loops compute the closed form; from a normal state and for gold that is not negative the gold grows by exactly the amount and the state stays normal |
| AreaEconomy.AreaData.LowerEconomy | Source/SmaugCS.Data/AreaData.cs:83-97 | for all 32-bit integers the two loops compute the closed form; from a normal state and for gold that is not negative the gold shrinks by exactly the amount and the state stays normal |
| AreaEconomy.BoostIsExact | Source/SmaugCS.Data/AreaData.cs:67-81 | boosting keeps the state normal, and is exact exactly as long as the billions fit into 32 bits |
| AreaEconomy.LowerIsExact | Source/SmaugCS.Data/AreaData.cs:83-97 | the same for lowering |
| AreaEconomy.NegativeBoost | Source/SmaugCS.Data/AreaData.cs:67-81 | a negative boost is exact, and keeps the state normal exactly when the small change covers it |
| AreaEconomy.NegativeLower | Source/SmaugCS.Data/AreaData.cs:83-97 | exactly when lowering by a negative sum is exact, and when it keeps the state normal |
| AreaEconomy.BoostUndone | Source/SmaugCS.Data/AreaData.cs:67-97 | lowering by what was boosted restores both integers for every 32-bit sum, even when the billions wrap around |
| AreaEconomy.LowerUndoneIff | Source/SmaugCS.Data/AreaData.cs:67-97 | boosting by what was lowered does so exactly as long as the small change stays in the 32-bit range |
| AreaEconomy.AreaData.BoostThenLower | Source/SmaugCS.Data/AreaData.cs:67-97 | lowering by what was boosted restores both integers |
| AreaEconomy.AreaData.EconomyHas | Source/SmaugCS.Data/AreaData.cs:99-102 | computes the comparison of 32-bit integers for every state; right in a normal state with no billions or one |
| AreaEconomy.HasRightIff | Source/SmaugCS.Data/AreaData.cs:99-102 | exactly when the answer agrees with the gold |
| AreaEconomy.HasWithoutDebt | Source/SmaugCS.Data/AreaData.cs:99-102 | without debt a yes is right, and up to a billion the answer is exact |
| AreaEconomy.TwoBillionsTooFew | Source/SmaugCS.Data/AreaData.cs:99-102 | two billions are said not to cover one and a half |
| MachinePool.LuaVirtualMachineContext.NextVirtualMachine | Source/Libaries/Library.Lua/LuaVirtualMachineContext.cs:48-58 | the k-th request hands out machine (k mod n) + 1, and the queue stays a rotation of 1..n |
| MachinePool.LuaVirtualMachineContext.constructor | Source/Libaries/Library.Lua/LuaVirtualMachineContext.cs:34-36 | the pool starts as 1..n |
| MachinePool.LuaVirtualMachineContext.Serve | Source/Libaries/Library.Lua/LuaVirtualMachineContext.cs:48-58 | in a run of requests no machine is handed out two times more than another, wherever the run starts |
| MachinePool.HandedUses | Source/Libaries/Library.Lua/LuaVirtualMachineContext.cs:48-58 | the machines handed out in a run number exactly as the usage counts say |
| MachinePool.FairUse | Source/Libaries/Library.Lua/LuaVirtualMachineContext.cs:48-58 | over any run the usage counts of two machines grow by amounts that differ by at most one |
| MachinePool.UsesAre | Source/Libaries/Library.Lua/LuaVirtualMachineContext.cs:48-58 | after q rounds and r requests the first r machines have been used q + 1 times, the others q times |

## Left out

- Tracking: rooms' exits are fixed while a search runs and between the searches compared; the marks, the queue and the list of touched rooms are the state that changes.
- Mapper: the digits for people seen in a room (the `contents` array), the choice of the size from the player's attributes, and all drawing and text formatting.
- Mapper.MapArray.MapArea: requires that no exit points in the direction "somewhere", which the offset tables of the original do not cover, and that sector numbers are real sectors.
- WeatherSweep.SweepConserves: the grids are taken as rectangular, here and in all other statements about the weather, because looking up a cell in arrays of arrays, as the program has them, is an exception before anything is changed.
- WeatherGrids.WeatherMap.CalculateCellToCellChanges: integers are unbounded, so 32-bit overflow of unclamped readings is not modelled.
- The climate rules of `EnforceClimateConditions`, random initial cells and saving: they add amounts cell by cell and exchange nothing.
- Weather cells are created outside the model and handed over as two grids of distinct objects.
- Regular-expression matching, formula evaluation and the search of members by reflection: matches and replacement texts are inputs.
- ObjectListing.OffCountRange: integers are unbounded, so overflow of the count times the disorder is not modelled.
- Object descriptions, visibility, imaginary object names, colours and all message output are inputs or absent.
- SentencePicker.PickSentences: watches the loop for a finite stream of draws; that a fair die ends it with probability one is not stated.
- The prose that `decorate_room` builds around the sentence numbers.
- Syllables, SkillTable and Language treat letter case and white space for the plain Latin characters only.
- TrackingAsWritten.Tracker.FindFirstStep: a left-over room that is no longer known is taken to have no exits, where its object would still have them.
- WeatherGrids.WeatherMap.ClearWeatherDeltas: models the clearing that is meant; as written the call changes no delta, and amounts add up from one update to the next.
- `ConcurrentQueue` and `ConcurrentDictionary` are modelled sequentially; a dictionary is enumerated in an arbitrary order.
- `generate_exit`, the auction, ban, board, clan and news repositories, networking, storage and scripting.
