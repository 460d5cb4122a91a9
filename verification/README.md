# A verified model of the transit route planner

The project models the planner's logic in Dafny and proves what its parts promise:

* **Router** (`Graph`, `Walks`, `RouteTable`, `RouteProofs`, `RouteChains`, `Router`): the all-pairs table is relaxed in
  place, one vertex after the other. The finished table holds the true shortest distances; a pass in place does the
  same as relaxing all entries at once; and following the last edges back along a row always ends, zero-weight cycles
  or not, in a shortest walk that visits no vertex twice; that it ends holds after every pass. The ranking behind this
  is built pass by pass: a rerouted entry ranks above all older entries, in the order of the row it is routed through.
* **Transport router** (`Itineraries`, `TransitGraph`, `RouteAnswers`, `RouterStorage`, `TransportRouter`): stops and
  buses are compiled into a graph with two vertices per stop and one edge per wait and per ride. `Itineraries` defines
  trips without any graph; the answer to a query is a trip of least total time among all trips, or nothing exactly when
  no trip exists. Saving overwrites the `to` end of every edge; the restored router still answers every query alike.
* **Catalogue** (`CatalogueState`, `CatalogueLengths`, `CatalogueStorage`, `TransportCatalogue`, `BusStatistics`,
  `Strings`): the redundant indexes stay in step over every sequence of calls, hold no information of their own, and
  survive saving and loading; bus statistics and router edges measure the same roads.
* **JSON** (`JsonNode`, `JsonText`, `JsonRoundTrip`, `JsonGrammar`, `JsonScalars`, `JsonLanguage`, `JsonPrinted`,
  `JsonStream`): loaders advance a stream, printers append to one; printed text loads back to the same value, at every
  indentation and depth, and is given character by character. A grammar given independently of the loaders describes
  exactly the texts they accept, and as which value; which literals the library converts to double is a parameter of
  both.
* **JSON builder** (`BuilderLanguage`, `BuilderProofs`, `JsonBuilder`): the calls are a pushdown automaton, and a
  grammar given independently of it describes exactly the call sequences that build a value, and which calls throw.
* **Map projection and SVG text** (`SphereProjector`, `SvgText`).

Values and functions specify; classes and methods with loops follow the program's own statements and are proved equal
to those functions. `Sequences` and `Wrappers` hold shared helpers.

## Where the code is not what one might expect

* `transport_router.cpp:104` stores `edge.from` as the edge's `to`. The graph is not restored (`RestoredEqualIff` says
  exactly when it would be, `CompiledNeverComesBack` that it never is for a catalogue with stops), but routes read only
  the `from` ends, so answers are (`RestoredAnswersAlike`).
* `svg.cpp:137-139` searches from index 1, so the first character is never escaped. The text comes out escaped if and
  only if its first character needs no escaping (`SetDataEscapesIff`), and unescaping restores it if and only if it does
  not begin with an entity of its own (`UnescapeUndoesSetData`).
* `transport_catalogue.cpp:97` and `:114` accumulate into an `int`. The reported route length is the true one exactly
  below 2^31 (`StatisticsAgree`).
* `graph.h:53-55` appends the edge before the vertex is checked, so a failed call leaves the edge behind (`AddEdge`).
  The router never comes across it, so its results ask nothing of edges that leave no vertex (`WalkStays`).
* `map_renderer.h:38-46` treats a positive span below EPSILON as zero; `TinySpanEscapes` shows a point that then
  leaves the canvas. All points land inside the padding if and only if there is room on both axes and, where only one
  span counts, the other one scaled with it fits its room (`ProjectsInsideIff`).
* `json.cpp:22-26` and `:50`: commas may be missing. In a dictionary there may be any number of them before an entry or
  the end (`DictSkips`); in an array one may stand before each item, the first one too, and a trailing or doubled one is
  an error (`ArrayCommaExact`).

## Model

| member | source | states |
|---|---|---|
| Graph.DirectedWeightedGraph.AddEdge | TransportSystem/graph.h:51-57 | the edge is always appended; the call succeeds with the new id exactly when the edge's origin is a vertex; every incidence list still holds exactly the ids of the edges leaving its vertex |
| Graph.IncidencePartition | TransportSystem/graph.h:46-57 | the list of a vertex holds exactly the edges leaving it, each once, in the order of adding |
| Walks.Concat | TransportSystem/router.h:66-74 | walks that meet join into a walk whose weight is the sum |
| Walks.Split | TransportSystem/router.h:66-86 | a walk can be cut before any of its edges |
| Walks.WalkStays | TransportSystem/router.h:49-64 | a walk that starts at a vertex uses only edges that leave vertices, so edges left behind by failed calls do not matter |
| RouteProofs.InitSays | TransportSystem/router.h:49-64 | after initialisation an entry is the zero diagonal, or the lightest of the parallel edges, of equally light ones the first added, and absent when there is none |
| RouteProofs.PassIsLow | TransportSystem/router.h:66-86 | no walk staying below k + 1 is lighter than the entry relaxed through k |
| RouteProofs.PassIsAttained | TransportSystem/router.h:66-86 | some walk staying below k + 1 has exactly the relaxed weight |
| RouteProofs.TablesLeast | TransportSystem/router.h:95-106 | after relaxing through the vertices below k every entry is the least weight over walks staying below k, absent iff there is none, and the diagonal is zero |
| RouteProofs.FinalLeast | TransportSystem/router.h:95-106 | the finished table holds the shortest distance over all walks, and an entry is absent iff there is no walk |
| RouteTable.PassKeepsCross | TransportSystem/router.h:76-86 | a pass through k changes neither row k nor column k, which it reads while writing, nor the zero diagonal unless a cycle through k is negative |
| RouteChains.PassRanked | TransportSystem/router.h:66-86 | a pass keeps every chain of last edges ranked: stepping back loses more weight than the edge has, or exactly that and rank |
| RouteChains.TablesRanked | TransportSystem/router.h:95-106 | every table on the way has such a ranking, on every non-negative graph, with zero-weight cycles too |
| RouteChains.TablesTraceable | TransportSystem/router.h:66-86 | after every pass, following last edges back ends, from every entry: counting the entries lighter, or as light and of smaller rank, orders each row |
| RouteChains.FinalTable | TransportSystem/router.h:95-106 | in the finished table all chains descend, and each last edge accounts exactly for the difference in weight |
| RouteChains.TraceExists | TransportSystem/router.h:115-132 | following the last edges back ends, for every present entry of a ranked table |
| RouteChains.TraceUnique | TransportSystem/router.h:115-132 | the edges found depend on the table and the `from` ends alone |
| RouteChains.TraceIsWalk | TransportSystem/router.h:115-132 | the edges found form a contiguous walk from source to target of exactly the recorded weight, empty iff source is target |
| RouteChains.TraceIsSimple | TransportSystem/router.h:115-132 | the edges found leave pairwise distinct vertices, none of them the target |
| Router.Router.InitializeRoutesInternalData | TransportSystem/router.h:49-64 | fails exactly when some edge that leaves a vertex is negative, and otherwise fills the matrix as initialisation prescribes |
| Router.Router.InitializeRow | TransportSystem/router.h:51-62 | one row: fails exactly when an edge leaving the vertex is negative, touches no other row |
| Router.Router.RelaxRoute | TransportSystem/router.h:66-74 | only the named entry changes, and only when the candidate is strictly lighter or the entry absent |
| Router.Router.RelaxRoutesInternalDataThroughVertex | TransportSystem/router.h:76-86 | the pass in place equals relaxing all entries at once against the old matrix |
| Router.Router.Create | TransportSystem/router.h:94-106 | fails exactly when an edge that leaves a vertex is negative; otherwise the matrix is the finished table and route queries may be put |
| Router.Router.FromData | TransportSystem/router.h:108-112 | the restored router holds the given table |
| Router.Router.BuildRoute | TransportSystem/router.h:114-132 | terminates, and returns nothing for an absent entry, an error for an unknown vertex, and otherwise the recorded weight with the traced edges in order |
| RouteAnswers.RouteIsShortest | TransportSystem/router.h:114-132 | a route is found iff a walk exists; it is a walk of the returned weight, no walk is lighter, it is empty iff source is target, and it repeats no vertex |
| Itineraries.ConnectsChain | TransportSystem/transport_router.cpp:66-85 | a trip starts at its first stop, changes where the ride before ended, and ends at its last stop |
| Itineraries.ItemsAlternate | TransportSystem/transport_router.cpp:78-82 | the items of a trip are, alternately, the wait at the boarding stop and the ride |
| Itineraries.RideTimeReversed | TransportSystem/transport_router.cpp:48-63 | riding onward along the reversed line takes as long as riding backward along the line |
| Itineraries.MinutesMeans | TransportSystem/transport_router.cpp:87-89 | at v km/h, 1000 v metres take sixty minutes |
| Itineraries.RideTimeMeans | TransportSystem/transport_router.cpp:33-64 | a ride takes the minutes for the summed legs between the stops it passes, in the direction in which it passes them |
| Itineraries.ItemsMean | TransportSystem/transport_router.cpp:22-64 | a wait item names the boarding stop and takes the wait time, a ride item names its bus, takes the ride's time and spans as many stops as lie from boarding to leaving |
| Itineraries.TravelTimeMeans | TransportSystem/transport_router.h:49-63 | the time of a trip is the sum of the times of its items |
| TransitGraph.LineTripsExact | TransportSystem/transport_router.cpp:33-47 | the double loop yields n(n - 1) / 2 edge shapes, one for each earlier and later position of the line, ordered by the earlier and then by the later position |
| TransitGraph.LineTripIsRide | TransportSystem/transport_router.cpp:33-63 | each such edge is the edge of a ride, onward or backward, with its summed time and span |
| TransitGraph.GraphTripsExact | TransportSystem/transport_router.cpp:13-64 | edge ids are numbered one-to-one by the stops, which wait, and then by the rides, ordered by bus, onward before backward, and along the line; backward ones only where the bus does not loop; there are no other edges |
| TransitGraph.EdgesMean | TransportSystem/transport_router.cpp:22-64 | ends, weight and item of every wait edge and every ride edge |
| TransitGraph.RidesCounted | TransportSystem/transport_router.cpp:33-64 | a bus with n stops gets n(n - 1) ride edges, half as many if it loops |
| RouteAnswers.GraphIsSound | TransportSystem/transport_router.cpp:13-64 | all weights are non-negative and all ends are vertices, so the router accepts the graph |
| RouteAnswers.WalkIsTrip | TransportSystem/transport_router.cpp:22-64 | every walk between the in-vertices of two stops is a trip of the same time and items |
| RouteAnswers.TripIsWalk | TransportSystem/transport_router.cpp:22-64 | every trip is a walk between the in-vertices of the same time |
| RouteAnswers.CollectIsItems | TransportSystem/transport_router.cpp:78-82 | the items collected along a walk are those of its edges, and the total time is the walk's weight |
| RouteAnswers.AnswerIsBestTrip | TransportSystem/transport_router.cpp:66-85 | unknown names fail; otherwise there is no answer iff no trip connects the stops, and the answer describes a trip, with its time, that no trip beats |
| RouteAnswers.AnswerUnique | TransportSystem/transport_router.cpp:66-85 | equal tables, item maps, vertex maps and `from` ends give equal answers |
| TransportRouter.TransportRouter.AddTrip | TransportSystem/transport_router.cpp:26-30 | the edge is appended and its item stored under the new id |
| TransportRouter.TransportRouter.CreateVertex | TransportSystem/transport_router.cpp:22-31 | a stop gets the next two vertices and a wait edge between them |
| TransportRouter.TransportRouter.CreateEdgesFrom | TransportSystem/transport_router.cpp:34-46 | from one position, an edge to each later one with the time and span summed so far; fails exactly when a leg is unknown |
| TransportRouter.TransportRouter.CreateEdge | TransportSystem/transport_router.cpp:33-64 | the edges of a bus, onward and unless it loops backward, in order |
| TransportRouter.TransportRouter.CreateGraph | TransportSystem/transport_router.cpp:13-20 | waits of all stops, then rides of all buses; fails exactly when two adjacent stops of some bus have no length |
| TransportRouter.TransportRouter.Create | TransportSystem/transport_router.cpp:5-11 | the router is the compiled one of the catalogue it keeps; fails exactly when a length is missing, never for a negative weight |
| TransportRouter.TransportRouter.TimeByName | TransportSystem/transport_router.cpp:87-89 | the time between two stored stops is the leg's length, forward, else backward, else zero for one stop, in minutes |
| TransportRouter.TransportRouter.GetRouteInfo | TransportSystem/transport_router.cpp:66-85 | returns the answer that the fields determine, for every pair of names |
| TransportRouter.TransportRouter.SaveGraphToProto | TransportSystem/transport_router.cpp:98-116 | writes the edges, with `from` in both ends, and the incidence lists |
| TransportRouter.TransportRouter.SaveRouterToProto | TransportSystem/transport_router.cpp:118-141 | writes every entry, absent ones as such |
| TransportRouter.TransportRouter.SaveToProto | TransportSystem/transport_router.cpp:143-178 | writes the whole state, vertices under stop numbers, in whatever order the maps are walked |
| TransportRouter.DeserializeVertexs | TransportSystem/transport_router.cpp:233-237 | restores the vertices under the stops' names; fails exactly on a stop the catalogue lacks |
| TransportRouter.DeserializeInfo | TransportSystem/transport_router.cpp:238-249 | restores the items; fails exactly on a bus or stop the catalogue lacks |
| TransportRouter.DeserializeTransportRouter | TransportSystem/transport_router.cpp:180-251 | restores the state the message determines; fails exactly when a name is missing |
| RouterStorage.RestoreUndoesSave | TransportSystem/transport_router.cpp:98-251 | restoring a saved router gives everything back but the `to` ends of the edges |
| RouterStorage.SavedMeans | TransportSystem/transport_router.cpp:98-178 | what every field of the message holds, numbers modulo 2^32 |
| RouterStorage.RestoredMeans | TransportSystem/transport_router.cpp:180-251 | what every field of the restored router holds, whoever wrote the message |
| RouterStorage.RestoredEqualIff | TransportSystem/transport_router.cpp:98-108 | the whole state comes back if and only if every edge is a self-loop |
| RouterStorage.RestoredAnswersAlike | TransportSystem/transport_router.cpp:98-251 | the restored router has exactly the answers of the original to every query, and its chains still end |
| RouterStorage.SavedNamesFound | TransportSystem/transport_router.cpp:180-251 | a compiled router names only stops and buses of its catalogue, so restoring it never fails |
| RouterStorage.CompiledNeverComesBack | TransportSystem/transport_router.cpp:98-108 | the state of a compiled router with a stop is never restored as it was |
| RouterStorage.RestoredAnswerIsBestTrip | TransportSystem/transport_router.cpp:98-251 | the message of a compiled router is readable, its names are found, and the answers of the restored router are best trips |
| TransportRouter.SaveLoadAndQuery | TransportSystem/transport_router.cpp:66-251 | a compiled router saved and restored against the saved and loaded catalogue answers every query as before |
| TransportRouter.BuildSaveLoadAndQuery | TransportSystem/transport_router.cpp:5-251 | building, saving, loading and querying fails exactly when a length is missing, and otherwise gives a best trip |
| RouterStorage.CompiledFits | TransportSystem/transport_router.cpp:98-178 | a compiled router fits the 32-bit fields as soon as the stops, the rides and the stops per bus of its catalogue can be counted in 32 bits |
| CatalogueState.AddStopKeeps | TransportSystem/transport_catalogue.cpp:28-40 | adding a stop keeps all indexes in step |
| CatalogueState.AddBusKeeps | TransportSystem/transport_catalogue.cpp:5-26 | adding a bus, with stops known or not and names new or repeated, keeps all indexes in step |
| CatalogueState.AddLengthKeeps | TransportSystem/transport_catalogue.cpp:42-49 | adding a length keeps all indexes in step |
| CatalogueState.AddStopMeans | TransportSystem/transport_catalogue.cpp:28-40 | a new stop comes last; a stop known at the origin is placed, one placed before stays, and so does every other stop |
| CatalogueState.AddBusMeans | TransportSystem/transport_catalogue.cpp:5-26 | the new bus comes last and under its name, with the named stops in order; exactly the missing names get stops, at (0, 0), in the order of their first mention; no length changes |
| CatalogueState.AddLengthMeans | TransportSystem/transport_catalogue.cpp:42-49 | fails exactly without the first stop; creates at most the second stop, at (0, 0); records the ordered pair unless it was recorded, and no other pair; changes nothing else |
| CatalogueState.ApplyKeepsHistory | TransportSystem/transport_catalogue.cpp:5-49 | no operation changes a stop's name or place in the list, coordinates once set, an earlier bus, or a recorded length |
| CatalogueState.EveryRunReaches | TransportSystem/transport_catalogue.cpp:5-49 | every sequence of calls reaches a state, and only one |
| CatalogueState.ReachedWellFormed | TransportSystem/transport_catalogue.cpp:5-49 | after every sequence of calls stop names are distinct, bus stops resolve, and each stop lists, once each, exactly the names of the buses serving it |
| CatalogueState.IndexesDetermined | TransportSystem/transport_catalogue.h:113-122 | stops, buses and lengths decide all the indexes |
| CatalogueState.StopInfoIsScan | TransportSystem/transport_catalogue.cpp:81-93 | the answer about a stop lists the names a scan of all buses finds, once each, in lexicographic order |
| Strings.LessMeans | TransportSystem/transport_catalogue.cpp:90 | the order of names: the first difference decides, and a beginning comes before the whole |
| CatalogueLengths.LengthByName | TransportSystem/transport_catalogue.h:73-88 | the look-up by name finds forward, else backward, else zero for a stop itself, else fails |
| CatalogueLengths.LegMeans | TransportSystem/transport_catalogue.h:73-88 | forward counts if recorded, else backward, else zero from a stop to itself |
| CatalogueLengths.SumRecordedMeans | TransportSystem/transport_catalogue.cpp:95-127 | the summed route length is the total of the recorded lengths between adjacent stops, forward where there is one |
| CatalogueLengths.ToInt32Exact | TransportSystem/transport_catalogue.cpp:95-104 | the accumulated int is the true sum exactly below 2^31 |
| TransportCatalogue.TransportCatalogue.AddStop | TransportSystem/transport_catalogue.cpp:28-40 | the fields become what adding the stop makes of them, and validity is kept |
| TransportCatalogue.TransportCatalogue.AddBus | TransportSystem/transport_catalogue.cpp:5-26 | the fields become what adding the bus makes of them, and stay valid |
| TransportCatalogue.TransportCatalogue.AddLengthBetweenStops | TransportSystem/transport_catalogue.cpp:42-49 | fails exactly without the first stop and then changes nothing; otherwise the length is added |
| TransportCatalogue.TransportCatalogue.GetInfoStop | TransportSystem/transport_catalogue.cpp:81-93 | the stop exists iff it is stored, and the names listed are, in lexicographic order, those of the buses serving it |
| TransportCatalogue.TransportCatalogue.SummationLength | TransportSystem/transport_catalogue.cpp:95-127 | the length of the full run, there and back unless the bus loops, in 32-bit arithmetic; fails exactly when an adjacent pair is unrecorded |
| TransportCatalogue.TransportCatalogue.GetInfoBus | TransportSystem/transport_catalogue.cpp:51-79 | absent iff no bus has the name; otherwise length, the number of stops of the full run, and the number of different stops |
| BusStatistics.StatisticsAgree | TransportSystem/transport_catalogue.cpp:51-127 | a full run takes the end-to-end ride onward plus, unless the bus loops, the one backward, and passes n or 2n - 1 stops |
| BusStatistics.StatisticsMatchEdges | TransportSystem/transport_router.cpp:33-64 | the route length in minutes is the weight of the end-to-end edges of the graph |
| TransportCatalogue.TransportCatalogue.SaveToProto | TransportSystem/transport_catalogue.cpp:144-190 | the message mirrors the catalogue, lengths in some order |
| TransportCatalogue.DeserializeTransportCatalogue | TransportSystem/transport_catalogue.cpp:192-211 | the catalogue that the message's calls build, in order |
| CatalogueStorage.LoadUndoesSave | TransportSystem/transport_catalogue.cpp:144-211 | loading accepts a saved catalogue and gives it back whole, whatever order the lengths were written in |
| CatalogueStorage.SavedMeans | TransportSystem/transport_catalogue.cpp:144-190 | what every field of the message holds; exactly the recorded lengths are written |
| CatalogueStorage.Uint32Means | TransportSystem/transport_catalogue.cpp:157-179 | storing in a 32-bit field keeps the value modulo 2^32 |
| CatalogueStorage.LoadedIsRun | TransportSystem/transport_catalogue.cpp:192-211 | loading any message makes the calls for its stops, then its buses, then its lengths, in the message's order |
| CatalogueStorage.LoadedWellFormed | TransportSystem/transport_catalogue.cpp:192-211 | whatever message is loaded, the catalogue is well formed |
| JsonNode.EmplaceSorted | TransportSystem/json.cpp:44 | emplacing keeps the map in order, adds the entry unless the key is there, and loses none |
| JsonRoundTrip.StringReadsBack | TransportSystem/json.cpp:257-279 | an escaped string reads back up to its closing quote |
| JsonRoundTrip.NumberReadsBack | TransportSystem/json.cpp:133-200 | a printed 32-bit integer reads back when the text after it does not continue it |
| JsonRoundTrip.ItemsReadBack | TransportSystem/json.cpp:300-319 | the printed items of an array, all or the later ones, read back in order |
| JsonRoundTrip.EntriesReadBack | TransportSystem/json.cpp:321-342 | the printed entries of a map read back in order, without a duplicate key |
| JsonRoundTrip.NodeReadsBack | TransportSystem/json.cpp:202-350 | every value without doubles, printed at any indentation and in front of any delimiting text, loads as itself and leaves exactly that text |
| JsonRoundTrip.ReadsBackIffDelimited | TransportSystem/json.cpp:202-350 | and it does so if and only if the following text does not run into it |
| JsonRoundTrip.ParsedWellFormed | TransportSystem/json.cpp:19-232 | whatever is loaded has 32-bit integers and ordered maps at every depth |
| JsonRoundTrip.ReprintedReadsBack | TransportSystem/json.cpp:354-360 | printing a loaded value and loading again changes nothing |
| JsonScalars.NumeralReads | TransportSystem/json.cpp:133-200 | every numeral of the grammar, when what follows does not continue it, loads as its int, else as its double if the conversion accepts it, else is an error |
| JsonText.CharacterCodes | TransportSystem/json.cpp:11-17 | white space, digits and letters by their codes |
| JsonGrammar.NumeralMeansIff | TransportSystem/json.cpp:181-200 | a numeral is an int exactly if it has neither fraction nor exponent and fits 32 bits |
| JsonPrinted.NatValueMeans | TransportSystem/json.cpp:181-200 | digits are decimal places |
| JsonScalars.EscapesRead | TransportSystem/json.cpp:60-109 | what each escape stands for, all others being errors |
| JsonScalars.PlainRead | TransportSystem/json.cpp:60-109 | a quote ends a string, a line break is an error, any other character stands for itself |
| JsonLanguage.LayoutReads | TransportSystem/json.cpp:19-232 | every spelling of a value, with any white space, escapes and admissible commas, and numbers that can be converted, loads as the value and leaves what follows |
| JsonLanguage.NodeIsSpelled | TransportSystem/json.cpp:19-232 | whatever loads is white space and a spelling whose numbers can be converted, and nothing in it runs into what follows |
| JsonLanguage.LoadsExactly | TransportSystem/json.cpp:19-232 | for every set of literals that convert to double, a text loads as a value, leaving a rest, if and only if it spells that value, with numbers that can be converted, in front of that rest |
| JsonGrammar.DictSkips | TransportSystem/json.cpp:34-58 | white space and commas before an entry or the end of a dictionary make no difference |
| JsonGrammar.ArrayCommaExact | TransportSystem/json.cpp:19-32 | one comma before an item of an array makes no difference; before the end or another comma it is an error |
| JsonStream.LoadString | TransportSystem/json.cpp:60-109 | reads what parsing the rest of the text prescribes and leaves the stream behind the closing quote, or fails as prescribed |
| JsonStream.LoadNumber | TransportSystem/json.cpp:133-200 | sign, whole part, fraction and exponent are read as parsing prescribes; a number that is no int and cannot be converted to double is an error |
| JsonStream.LoadArray | TransportSystem/json.cpp:19-32 | agrees with parsing, in value, error and text left |
| JsonStream.LoadDict | TransportSystem/json.cpp:34-58 | agrees with parsing, in value, error and text left |
| JsonStream.LoadNode | TransportSystem/json.cpp:202-232 | terminates on every text and agrees with parsing, in value, error and text left |
| JsonStream.Load | TransportSystem/json.cpp:354-356 | loads one value, which is well formed, and leaves the text after it |
| JsonStream.PrintText | TransportSystem/json.cpp:257-279 | appends the quoted, escaped string |
| JsonStream.PrintArray | TransportSystem/json.cpp:300-319 | appends the array's text at the context's indentation |
| JsonStream.PrintDict | TransportSystem/json.cpp:321-342 | appends the map's text at the context's indentation |
| JsonStream.PrintValue | TransportSystem/json.cpp:344-350 | appends the value's text |
| JsonPrinted.PrintedText | TransportSystem/json.cpp:257-350 | the printed text is, character by character, one given spelling: items and entries on lines of their own, indented by blanks, commas at line ends, a blank behind colons |
| JsonPrinted.PrintIntMeans | TransportSystem/json.cpp:253-255 | a minus sign exactly if negative, then the digits of the magnitude without leading zeros |
| JsonPrinted.EscapedCharMeans | TransportSystem/json.cpp:257-279 | the four characters that are escaped, by their codes, and how; all others stay |
| JsonPrinted.EmptyPrinted | TransportSystem/json.cpp:300-342 | between the brackets of an empty container stands an empty line |
| JsonStream.PrintThenLoad | TransportSystem/json.cpp:354-360 | printing a document and loading the output returns the document |
| BuilderLanguage.RunKeepsOrder | TransportSystem/json_builder.cpp:39-166 | over every run keys stand only on dictionaries, containers at the bottom, on arrays or on keys, and a set root means an empty stack |
| BuilderLanguage.CloseIsTaken | TransportSystem/json_builder.cpp:115-124 | the value of a closed container is always taken by what is below it |
| BuilderLanguage.SpellingIsTaken | TransportSystem/json_builder.cpp:39-166 | wherever a value may come, spelling it out has the effect of giving it whole |
| BuilderProofs.Explain | TransportSystem/json_builder.cpp:39-166 | every run without a throw reads as some top-level nulls followed by a value, complete or with its open containers |
| BuilderProofs.BuildsExactly | TransportSystem/json_builder.cpp:39-178 | a call sequence ends in a successful build of n if and only if, after top-level nulls, it spells n once |
| BuilderProofs.ViableIff | TransportSystem/json_builder.cpp:39-166 | no call of a sequence throws if and only if the sequence can be continued to spell a value |
| BuilderProofs.BuildsFromKept | TransportSystem/json_builder.cpp:39-178 | after any calls at all, with throws caught, a build yields n if and only if the calls that the grammar lets through spell n |
| BuilderProofs.SpellingUnambiguous | TransportSystem/json_builder.cpp:39-178 | no call sequence spells two values |
| BuilderProofs.ReplayBuilds | TransportSystem/json_builder.cpp:39-178 | replaying the calls of any non-null value rebuilds it |
| BuilderProofs.ArrayBuilds | TransportSystem/json_builder.cpp:39-127 | an array opened, given values and ended holds them in that order |
| BuilderProofs.DictBuilds | TransportSystem/json_builder.cpp:39-166 | a dictionary opened, given a key and a value and ended maps the key to the value |
| BuilderProofs.FirstKeyCounts | TransportSystem/json_builder.cpp:62-71 | a built dictionary is ordered and maps a repeated key to its first value |
| JsonBuilder.Builder.Value | TransportSystem/json_builder.cpp:39-74 | takes the value where one may stand; a throw changes nothing |
| JsonBuilder.Builder.Key | TransportSystem/json_builder.cpp:76-88 | a key goes on an open dictionary; a throw changes nothing |
| JsonBuilder.Builder.StartArray | TransportSystem/json_builder.cpp:90-103 | an array opens where a value may stand; a throw changes nothing |
| JsonBuilder.Builder.EndArray | TransportSystem/json_builder.cpp:105-127 | closes an array on top; a throw, from within too, changes nothing |
| JsonBuilder.Builder.StartDict | TransportSystem/json_builder.cpp:129-142 | a dictionary opens where a value may stand; a throw changes nothing |
| JsonBuilder.Builder.EndDict | TransportSystem/json_builder.cpp:144-166 | closes a dictionary on top; a throw, from within too, changes nothing |
| JsonBuilder.Builder.Build | TransportSystem/json_builder.cpp:168-178 | yields the root when it is set and nothing is open |
| JsonBuilder.BuildFrom | TransportSystem/json_builder.cpp:39-178 | making any calls on a fresh builder, catching throws, builds n exactly when the calls let through spell n |
| SphereProjector.MinMaxElement | TransportSystem/map_renderer.h:26-38 | the least and the greatest value |
| SphereProjector.SphereProjector.constructor | TransportSystem/map_renderer.h:19-58 | origin and scale come from the least and greatest coordinates of the points; both axes share one scale |
| SphereProjector.SphereProjector.ProjectMeans | TransportSystem/map_renderer.h:60-63 | the north-western corner lands at the padding; x grows eastwards and y southwards by the same scale |
| SphereProjector.IsZeroMeans | TransportSystem/map_renderer.h:10-11 | a value counts as zero exactly within a millionth |
| SphereProjector.SphereProjector.ProjectsInsideIff | TransportSystem/map_renderer.h:18-64 | all points given to the constructor land inside the padding if and only if neither room is negative and a span too small to count still fits when scaled with the other one |
| SphereProjector.SphereProjector.FillsAnAxisIff | TransportSystem/map_renderer.h:18-64 | the points fill an axis edge to edge if and only if some span counts as non-zero or an axis has no room at all |
| SphereProjector.SphereProjector.PointsProjectInside | TransportSystem/map_renderer.h:18-64 | hence with clear spans and room for the padding all points lie inside, and a positive span fills an axis edge to edge |
| SphereProjector.TinySpanEscapes | TransportSystem/map_renderer.h:40-48 | a positive span below EPSILON can carry a point off the canvas |
| SvgText.RunPass | TransportSystem/svg.cpp:135-147 | one pass terminates and replaces every occurrence but one at the first character |
| SvgText.SetData | TransportSystem/svg.cpp:133-152 | the result is that of the five passes in order |
| SvgText.PassesAreOneEscape | TransportSystem/svg.cpp:133-152 | the five passes together escape all characters but the first at once |
| SvgText.SetDataEscapesIff | TransportSystem/svg.cpp:133-152 | the result is the escaped text if and only if the first character needs no escaping |
| SvgText.EscapeCharMeans | TransportSystem/svg.h:295-301 | the five predefined entities by the code of their character |
| SvgText.UnescapeUndoesEscape | TransportSystem/svg.h:295-301 | unescaping undoes escaping |
| SvgText.UnescapeUndoesSetData | TransportSystem/svg.cpp:133-152 | unescaping restores the text if and only if it does not begin with an entity of its own |

## Left out

- JsonText.ConvertNumber: which literals convert to double is a parameter, and a double is kept as the literal it was read from; its value and its printed form are not modelled, so values with doubles are outside the round trip.
- TransportRouter.TransportRouter.Create: requires a positive bus velocity, because the program divides by it without a check; weights are exact reals, so rounding is not modelled.
- TransportRouter.TransportRouter.SaveToProto: requires edge ids and stop numbers below 2^32, because truncated map keys would collide in an order nobody fixes; other numbers are truncated as the program does.
- TransportRouter.DeserializeVertexs: requires stop names without repeats, because of repeated ones an unspecified one counts.
- Router.Router.FromData: requires a table with one row and column per vertex, because the matrix of the model has one size; the program takes any table and fails later.
- JsonStream.LoadNumber: of a double only the literal is kept, see JsonText.ConvertNumber.
- JsonStream.PrintValue: writes a double as its literal, see JsonText.ConvertNumber.
- TransportRouter.DeserializeTransportRouter: requires stop numbers that point into the message's stop list, a list without repeats and a table with one row and column per vertex, because the program reads them unchecked.
- TransportCatalogue.DeserializeTransportCatalogue: requires stop positions that point into the message's stop list, because the program reads them unchecked.
- TransportCatalogue.TransportCatalogue.GetInfoBus: curvature, which needs great-circle distances, is not part of the model, and buses are non-empty, because the program steps past the first stop unchecked.
- Router.Router.Create: stands for the constructor that throws, so it returns a result instead of an object.
- Stream error flags, files, the request reader and the main program: input is a text with a position, output a text that grows.
- The wire format of the messages: they are plain records of their fields.
- Pointers, ownership and hashing: stops and buses are positions in their lists, hash maps are maps walked in any order.
- The compile-time call contexts of the builder: they only forbid some call sequences earlier.
- Drawing, colours and the other SVG elements: formatting and copying of fields.
