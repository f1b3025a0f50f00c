# Noise simulation of a building, in Dafny

`ProyectoFinal.py` simulates noise in a building made of rooms (`Nodo`). Each room has:
- a category (`tipo`);
- a wall flag (`pared`);
- an intrinsic noise level in dB (`ruido`);
- an integer position, a floor (`piso`) and a source flag (`es_fuente`);
- a list of neighbouring rooms (`conexiones`).

The main window keeps the rooms in a dictionary by name (`habitaciones`) and the positions in a second dictionary (`posiciones_fijas`). On start it links rooms both ways (`conectar`). It then reduces the graph (`aplicar_reduccion_grafo`): it collects every pair of rooms, in name order, of the same category and floor, with noise within 5 dB, standing at most 2 units apart, and merges each pair. A merge hands the second room's neighbours to the first, averages the two noise levels, removes the second room from its neighbours' lists and deletes it from both dictionaries.

A report works in three steps:
1. `recibir_datos` measures every room (`medir_ruido`). A measurement is the room's own noise if it is a source, plus each neighbour's noise divided by a logarithmic attenuation. The attenuation is 1.5 times larger across floors. When the room has walls, a fifth of the propagated part is absorbed; the room's own noise is not.
2. `analizar_datos` takes the mean and the maximum of the readings.
3. `comparar_estandares` classifies each reading against its category's three limits (`get_limite_ruido`) as exceeding, near or adequate.

A repair window offers the rooms whose level exceeds their limit. Fixing one sets its noise to its category's adequate limit and rebuilds the readings and the report (`arreglar`, `actualizar_datos`).

The model has two layers:
- **Value layer.** The modules `Rooms`, `Graphs`, `Propagation`, `Reduction`, `Report` and `Remediation` describe the building as a value `Graph`: the room map, the adjacency by name, the position map and the name insertion order. They define every operation as a function and prove its properties as lemmas. `Graphs.Valid` is the building invariant. It requires the same names in all three maps and positions that agree with the rooms. It also requires a name order that lists each room once, and neighbour lists that are free of repeats, self-links and dangling names, and that are symmetric.
- **Object layer.** The class `Simulation.Building` keeps the same four parts as fields and updates them in place, with the loops of the source. Each method is proved equal to the value layer's function.

On some inputs the reduction pass as the source writes it raises an error or leaves live rooms linked to a deleted one (see "## Findings"). `ReductionAsWritten` models that pass as written. `Reduction.Reduce`, which the class follows, merges a pair only while both of its rooms are still present.

## Model

| member | source | states |
|---|---|---|
| Rooms.SqDist | ProyectoFinal.py:55-58 | the squared distance is zero exactly when the two positions coincide, so it decides the "distance 0" skip and "distance <= 2.0" exactly |
| Rooms.SqDistSymmetric | ProyectoFinal.py:55-58 | the distance from one room to another equals the distance back |
| Rooms.NoiseLimits | ProyectoFinal.py:60-71 | a listed category yields its table triple, any other category (50, 55, 60); every triple rises strictly: adequate < near < exceeded, 5 dB apart |
| Rooms.Read | ProyectoFinal.py:78-79 | a sensor without a fixed reading reads 0, otherwise its fixed reading |
| Graphs.RemoveFirst | ProyectoFinal.py:416-417 | removing an element drops exactly one occurrence: a list without it is unchanged, the length falls by one, every other element stays, and a list without repeats loses the element entirely |
| Graphs.RemoveFirstCuts | ProyectoFinal.py:416-417 | removing an element that occurs cuts out its first occurrence and keeps every other element in its order: the result is the list before that index followed by the list after it |
| Graphs.RemoveFirstAt | ProyectoFinal.py:416-417 | at an index holding the element, with no earlier occurrence, the removal is exactly the list with that index cut out |
| Graphs.ConnectAdj | ProyectoFinal.py:31-38 | connecting keeps the room set, puts the target in the room's list, and touches no list but those two |
| Graphs.ConnectSymmetric | ProyectoFinal.py:31-38 | on a valid adjacency, connecting two distinct rooms links them both ways, adds exactly those two links and keeps the lists free of repeats |
| Graphs.ConnectKeepsValid | ProyectoFinal.py:31-38 | connecting two distinct rooms keeps the building invariant |
| Graphs.ConnectIdempotent | ProyectoFinal.py:31-38 | connecting the same pair again changes nothing |
| Graphs.ConnectConverse | ProyectoFinal.py:31-38 | after connecting a to c, connecting c to a changes nothing |
| Propagation.Attenuation | ProyectoFinal.py:47-49 | the attenuation is positive, and 1.5 times the logarithmic term across floors |
| Propagation.Contribution | ProyectoFinal.py:44-50 | a neighbour at distance 0 contributes nothing; a neighbour of non-negative noise never contributes a negative amount |
| Propagation.Propagated | ProyectoFinal.py:42-50 | the propagated noise is the sum of the neighbours' contributions in list order; neighbours that are all silent propagate 0 |
| Propagation.OwnNoise | ProyectoFinal.py:41 | only a source room has an own share, and a non-negative noise gives a share between 0 and the noise |
| Propagation.Level | ProyectoFinal.py:40-53 | a room measures its own share plus its propagated noise, scaled by 0.8 when it has walls; a room whose neighbours are all silent measures its own share alone |
| Propagation.PropagatedSplit | ProyectoFinal.py:42-50 | the propagated sum splits over any division of the neighbour list |
| Propagation.PropagatedSilent | ProyectoFinal.py:43-46 | neighbours all at the room's own position propagate 0 |
| Propagation.PropagatedNonNegative | ProyectoFinal.py:42-50 | neighbours of non-negative noise propagate a non-negative sum |
| Propagation.PropagatedFrame | ProyectoFinal.py:42-50 | the propagated sum depends only on positions, floors and the neighbours' noise |
| Propagation.LevelOfUnreachedRoom | ProyectoFinal.py:40-53 | a room with no neighbour at non-zero distance measures exactly its noise if it is a source and 0 otherwise, walls or not |
| Propagation.LevelAtLeastOwn | ProyectoFinal.py:40-53 | with neighbours of non-negative noise a room measures at least its own share |
| Propagation.LevelWallAbsorbs | ProyectoFinal.py:51-52 | walls keep the own share and scale the propagated part by 0.8 |
| Reduction.IsCandidate | ProyectoFinal.py:404-406 | two rooms qualify when they have the same category and floor, noise within 5 and squared distance at most 4; the criterion reads the same from either room |
| Reduction.CandidateRow | ProyectoFinal.py:401-407 | the row of name i lists pairs whose first name is name i and whose second name is a room |
| Reduction.CandidateRows | ProyectoFinal.py:400-407 | the rows of the first names, one after the other, list only pairs of rooms |
| Reduction.Candidates | ProyectoFinal.py:398-407 | the candidate list names only rooms, and is empty for a building of at most one room |
| Reduction.CandidateRowExact | ProyectoFinal.py:401-407 | the row of name i holds exactly the later names that meet the merge criterion with it |
| Reduction.CandidateRowsComplete | ProyectoFinal.py:400-407 | every qualifying pair i < k among the first rows is listed |
| Reduction.CandidateRowsSound | ProyectoFinal.py:400-407 | every listed pair is some i < k meeting the criterion |
| Reduction.CandidatesExact | ProyectoFinal.py:398-407 | a pair is a candidate exactly when its first name precedes its second in insertion order and the two rooms have the same category and floor, noise within 5 and squared distance at most 4 |
| Reduction.CandidatesDistinct | ProyectoFinal.py:398-407 | no candidate pairs a room with itself, and every candidate names two existing rooms |
| Reduction.AdoptAll | ProyectoFinal.py:410-412 | adopting keeps the room set and leaves every list other than the adopter's and the adopted rooms' as it was |
| Reduction.Detach | ProyectoFinal.py:415-416 | detaching keeps the room set and changes no list but those of the listed rooms |
| Reduction.Average | ProyectoFinal.py:413 | the merged noise lies between the two levels, at equal distance from both |
| Reduction.MergedRooms | ProyectoFinal.py:413-417 | a merge deletes exactly the second room, lowers the count by one, gives the first room the average noise and leaves every other room as it was |
| Reduction.MergedAdj | ProyectoFinal.py:410-416 | the adjacency after a merge has the old rooms but the second, and a room other than the first that did not neighbour the second keeps its list |
| Reduction.MergeStep | ProyectoFinal.py:409-418 | one merge deletes the second room from the room map, the position map and the name order, which shrinks by one |
| Reduction.AdoptAllLinks | ProyectoFinal.py:410-412 | after adopting, the adjacency is still valid and its links are the old ones plus the adopter linked both ways with each adopted room other than itself |
| Reduction.DetachLinks | ProyectoFinal.py:415-416 | detaching keeps lists free of repeats and removes exactly the links from the listed rooms to the deleted room |
| Reduction.MergedAdjLinks | ProyectoFinal.py:409-418 | after a merge, lists have no repeats, and x lists y exactly when the old link is kept or redirected from the second room to the first |
| Reduction.MergedAdjValid | ProyectoFinal.py:409-418 | a merge leaves no dangling neighbour and keeps the adjacency symmetric |
| Reduction.MergeStepValid | ProyectoFinal.py:409-418 | one merge keeps the building invariant (room and position maps in sync), deletes exactly the second room, averages the first, leaves the other rooms, and redirects links |
| Reduction.MergeKeepsOrder | ProyectoFinal.py:417-418 | a merge keeps the insertion order of the rooms that stay: the name order loses the second room's entry and nothing else moves |
| Reduction.RemoveFirstKeys | ProyectoFinal.py:417 | deleting a room from the insertion order keeps it free of repeats and in step with the remaining room names |
| Reduction.MergedPositions | ProyectoFinal.py:417-418 | the position map loses the same name as the room map and still agrees with the rooms |
| Reduction.MergedRoomsInPlace | ProyectoFinal.py:413-417 | averaging in place and then deleting yields the merged room map |
| Reduction.MergedAdjInPlace | ProyectoFinal.py:410-417 | adopting and detaching in place and then deleting yields the merged adjacency |
| Reduction.MergeIfPresent | ProyectoFinal.py:409-418 | a turn of the corrected pass keeps the building invariant |
| Reduction.Reduce | ProyectoFinal.py:409-418 | the corrected pass keeps the building invariant |
| Reduction.ReduceLast | ProyectoFinal.py:409-418 | the pass is its turns in order: the last pair is merged after all the others |
| Reduction.ReduceStep | ProyectoFinal.py:409-418 | turn k takes the state after the first k pairs to the state after k + 1 |
| Reduction.ReduceProjectsRooms | ProyectoFinal.py:409-418 | the room map after the pass depends on the room map alone |
| Reduction.MergedRoomsIfPresent | ProyectoFinal.py:409-418 | on the room map, a turn of the corrected pass deletes no room other than its second and adds none |
| Reduction.ReduceRooms | ProyectoFinal.py:409-418 | the room map after the corrected pass has no room the building did not have |
| Reduction.ReduceShrinks | ProyectoFinal.py:409-418 | the pass never adds a room |
| Reduction.ReduceLeavesOthers | ProyectoFinal.py:409-418 | a room that is never the first of a pair keeps its attributes if it survives |
| Reduction.ReduceDisjoint | ProyectoFinal.py:409-418 | on pairs sharing no room, exactly the second rooms disappear, the room count falls by the number of pairs, and each first room ends with its pair's average |
| ReductionAsWritten.Turn | ProyectoFinal.py:409-418 | a turn completes exactly when both rooms are present, and then is the corrected merge; otherwise the model stops and reports a deleted second room first, then a deleted first room |
| ReductionAsWritten.ReduceAsWritten | ProyectoFinal.py:409-418 | a pass as written that completes leaves a valid building |
| ReductionAsWritten.AsWrittenLast | ProyectoFinal.py:409-418 | the pass as written stops at its first turn that names a deleted room |
| ReductionAsWritten.FirstFault | ProyectoFinal.py:409-418 | the first pair naming a room an earlier pair deleted; the room it names is absent after the corrected pass |
| ReductionAsWritten.AsWrittenCharacterized | ProyectoFinal.py:398-418 | the pass as written stops exactly at the first pair naming a room an earlier pair deleted, and otherwise ends where the corrected pass ends |
| ReductionAsWritten.NoFaultOnDisjoint | ProyectoFinal.py:409-418 | pairs that share no room never name a deleted room |
| ReductionAsWritten.AsWrittenCompletesOnDisjoint | ProyectoFinal.py:409-418 | on pairs sharing no room the pass as written equals the corrected pass |
| Report.Judge | ProyectoFinal.py:438-454 | a reading of a room of some category exceeds iff it is above the category's exceeded limit, is near iff it lies above the near limit and at most the exceeded one, and is adequate otherwise |
| Report.Classify | ProyectoFinal.py:439-454 | exceeding iff level > exceeded limit, near iff near limit < level <= exceeded limit, adequate iff level <= near limit |
| Report.ClassifyMonotone | ProyectoFinal.py:439-454 | a louder reading never gets a milder state |
| Report.ClassifyBoundaries | ProyectoFinal.py:439-451 | a level equal to a threshold falls to the lower state |
| Report.ValidReadable | ProyectoFinal.py:420-424 | in a valid building every room of the name order can be measured |
| Report.Readings | ProyectoFinal.py:420-424 | one reading per name of the insertion order, in that order, each of an existing room |
| Report.ReadingOfEachRoom | ProyectoFinal.py:420-424 | every room has exactly one reading, which is the level it measures, and there are as many readings as rooms |
| Report.NamesCount | ProyectoFinal.py:422 | the insertion order has as many names as there are rooms |
| Report.Levels | ProyectoFinal.py:431-432 | the levels of the readings, one per reading, in order |
| Report.Sum | ProyectoFinal.py:431 | the sum of the levels in order; a single level sums to itself |
| Report.Mean | ProyectoFinal.py:427-431 | no readings give a mean of 0; otherwise the mean times the count is the sum |
| Report.MaxOf | ProyectoFinal.py:427-432 | no readings give 0; otherwise the maximum is one of the levels and no level exceeds it |
| Report.SumAtMost | ProyectoFinal.py:431 | levels none above m sum to at most their number times m |
| Report.SumAtLeast | ProyectoFinal.py:431 | levels none below m sum to at least their number times m |
| Report.MeanAtMostMax | ProyectoFinal.py:426-432 | the mean never exceeds the maximum |
| Report.ReportOf | ProyectoFinal.py:434-455 | one report line per reading, in order, with the reading's name, level and the state of the level against its room's limits |
| Remediation.FixableOf | ProyectoFinal.py:222-226 | only rooms of the scanned names are offered |
| Remediation.FixableOfExact | ProyectoFinal.py:222-226 | a room is offered exactly when it is scanned and its level exceeds its exceeded limit; scanning names once offers each room once |
| Remediation.Fixable | ProyectoFinal.py:222-226 | only existing rooms are offered |
| Remediation.FixableExact | ProyectoFinal.py:222-226 | the offered rooms are exactly those whose reading is in the exceeding state, each once |
| Remediation.FixRoom | ProyectoFinal.py:236-241 | fixing sets the room's noise to its adequate limit and changes no other room, attribute, link, position or name |
| Remediation.FixQuietsIsolatedSource | ProyectoFinal.py:236-241 | a fixed source room that no neighbour reaches measures its adequate limit and reads adequate |
| Remediation.FixKeepsLevelOfNonSource | ProyectoFinal.py:236-241 | fixing a room that is not a source leaves its own level unchanged |
| Remediation.FixReachesOnlyNeighbours | ProyectoFinal.py:236-241 | fixing a room changes no level of a room that does not list it |
| Findings.SharedSecond | ProyectoFinal.py:409-418 | two pairs with the same second room: the pass as written stops at the second pair, where the source raises; the corrected pass deletes the room once |
| Findings.DeletedFirst | ProyectoFinal.py:409-418 | a pair whose first room an earlier pair deleted: the pass as written stops at it, where the source would merge into the deleted room; the corrected pass skips the pair |
| Findings.ChainCandidates | ProyectoFinal.py:398-407 | the three-office chain yields the candidates (A, C), (B, C) |
| Findings.ChainAsWritten | ProyectoFinal.py:409-418 | on the chain the pass as written stops at the already deleted office C, where the source raises |
| Findings.ChainCorrected | ProyectoFinal.py:409-418 | on the chain the corrected pass keeps offices A and B |
| Findings.RowCandidates | ProyectoFinal.py:398-407 | the classroom row yields the candidates (A, B), (B, C) |
| Findings.RowCandidateRows | ProyectoFinal.py:401-407 | on the classroom row, A pairs with B, B with C, and C and the corridor with nothing |
| Findings.RowAsWritten | ProyectoFinal.py:409-418 | on the row the pass as written stops at pair (B, C) with B already deleted, where the source would link C's corridor to the deleted B |
| Findings.RowCorrected | ProyectoFinal.py:409-418 | on the row the corrected pass keeps classrooms A and C and the corridor |
| Simulation.Building.constructor | ProyectoFinal.py:255-258 | a new building holds the given valid rooms, links and positions; the model also gives the readings, the report and the aggregates initial values (empty, empty, 0 and 0) that the source only creates when a report is first made |
| Simulation.Building.Connect | ProyectoFinal.py:31-38 | the in-place connect leaves the adjacency the connect function describes |
| Simulation.Building.MeasureNoise | ProyectoFinal.py:40-53 | the measuring loop returns the room's level |
| Simulation.Building.CollectCandidates | ProyectoFinal.py:398-407 | the nested loop collects exactly the candidate list, in order, before anything changes |
| Simulation.Building.AdoptNeighbours | ProyectoFinal.py:410-412 | the adoption loop leaves the adjacency of step 1 of a merge |
| Simulation.Building.DetachFrom | ProyectoFinal.py:415-416 | the removal loop leaves the adjacency of step 2 of a merge |
| Simulation.Building.MergeRooms | ProyectoFinal.py:410-418 | the in-place merge leaves the merged room map and adjacency, the position map without the second room and the name order without it |
| Simulation.Building.ReduceGraph | ProyectoFinal.py:396-418 | the pass keeps the building invariant and ends in the corrected reduction of the candidates collected beforehand |
| Simulation.Building.ReceiveData | ProyectoFinal.py:420-424 | the readings become one reading per room in insertion order, each the level the room measures |
| Simulation.Building.AnalyzeData | ProyectoFinal.py:426-432 | the aggregates become the mean and the maximum of the reading levels, 0 and 0 without readings |
| Simulation.Building.CompareStandards | ProyectoFinal.py:434-455 | the report becomes one classified line per reading, in order |
| Simulation.Building.Summarize | ProyectoFinal.py:479-480 | the aggregates and the report are rebuilt from the current readings |
| Simulation.Building.Refresh | ProyectoFinal.py:477-481 | readings, aggregates and report are rebuilt from the current building |
| Simulation.Building.OfferFixes | ProyectoFinal.py:222-226 | the scan offers exactly the rooms of the repair list, in insertion order |
| Simulation.Building.Fix | ProyectoFinal.py:236-242 | an empty choice changes nothing; otherwise only the chosen room's noise changes, to its adequate limit, the building stays valid, and readings, aggregates and report are rebuilt |

## Left out

- The window classes (`ReporteWindow`, `Grafo3DWindow`, the `MainWindow` layout, buttons and message boxes) and the window refresh at the end of `actualizar_datos`: they only display data.
- The recommendation texts of the report: each state carries a fixed text, so the state alone is modelled.
- `ventana`, `puerta` and `frecuencia`: no computation reads them.
- The sensor list of a room and `agregar_sensor`: the sensors are attached but never read by any computation. Only the reading rule of a sensor is modelled.
- The fixed building of `inicializar_nodos` and `conectar_nodos`: it is data. The constructor takes any valid building, and `Findings` uses two small buildings of its own.
- The `reporte_generado` flag and the empty `generar_reporte`: neither affects any data.
- Propagation.Level: the attenuation `log(distancia + 1)` is a parameter `decay` of the squared distance, assumed positive at every non-zero distance. Its exact value and the square root are not modelled.
- Report.Mean and Report.MaxOf: levels are exact reals, so floating-point rounding of the sum and of the division is not modelled.
- Simulation.Building.ReduceGraph: it follows the corrected pass, which merges a pair only while both of its rooms are present. The pass as written is modelled separately in `ReductionAsWritten` and stops at the first stale pair, where the source raises an error or links live rooms to a deleted one.
- ReductionAsWritten.ReduceAsWritten: on a pair whose first room is already deleted, the source goes on with a dangling link. The model stops there and reports the pair, so it does not describe the dangling state or any later turns.
- ReductionAsWritten.Turn: on a pair whose first room is already deleted and whose second is present, the source completes the turn. It links the second room's neighbours to the deleted room, averages into it and deletes the second room. The model reports `FirstAlreadyRemoved` and stops instead.
- ReductionAsWritten.AsWrittenCharacterized: it characterizes where the model stops. After a `FirstAlreadyRemoved` pair the source goes on, and the dangling state and the later turns are not described.
- Findings.RowAsWritten: it proves that the pass as written reaches pair (B, C) with B deleted. It does not prove the dangling link from the corridor to the deleted B that the source then leaves.
- Graphs.RemoveFirst: removing a name that is absent returns the list unchanged, where the source raises an error. In the corrected pass the name is always present, because links are symmetric.
- Simulation.Building.Fix: the chosen name must be a room, because the repair list only holds rooms. Any other name would make the source fail on the lookup.
- Simulation.Building.ReceiveData and Simulation.Building.OfferFixes: they require only that every room of the name order can be measured. That condition follows from the building invariant (`Report.ValidReadable`).

## Findings

| source | as written | input that shows it | evidently intended | confidence | as-written member | corrected member |
|---|---|---|---|---|---|---|
| ProyectoFinal.py:409-418 | the merge loop uses room pairs collected before any merge, so a later pair can name a second room that an earlier pair already deleted; removing it from its old neighbours' lists (line 416) or from the room map (line 417) then raises an error | three offices A at (0,0,0), B at (4,0,0), C at (2,0,0), same floor and noise, C linked to A and B: the candidates are (A, C), (B, C) and the second pair names the deleted C | merge a pair only while both of its rooms are still present | not executed | ReductionAsWritten.ReduceAsWritten, Findings.ChainAsWritten | Reduction.Reduce, Findings.ChainCorrected |
| ProyectoFinal.py:409-418 | a later pair can name a first room that an earlier pair already deleted; the loop links the second room's neighbours to the deleted room, so live rooms list a room that no longer exists | three classrooms A at (0,0,0), B at (2,0,0), C at (4,0,0), A linked to B, C linked to a corridor: the candidates are (A, B), (B, C) and the second pair merges C into the deleted B | skip a pair whose first room is gone | not executed | ReductionAsWritten.ReduceAsWritten, Findings.RowAsWritten | Reduction.Reduce, Findings.RowCorrected |
