# Nashville transit assistant: the verified core

This project models the logic at the centre of a small transit assistant. It proves properties of four pieces:

- **The in-memory store** (`server/storage.ts`, class `MemStorage`).
  - Stops and routes live in two tables keyed by ids, which two counters hand out.
  - The store is seeded with four sample stops and two sample routes.
  - It answers three read-only queries: the routes touching a stop, the routes from one stop to another, and a case-insensitive search over stop names.
- **The live-update simulator** (`server/websocket.ts`).
  - A fleet of six vehicles, one per route, is spawned around the city centre.
  - A movement tick jitters every vehicle, sets a new heading and speed, and broadcasts the fleet.
  - An alert tick raises a numbered service alert with probability 0.3 and broadcasts it.
  - A new connection receives an INIT snapshot.
  - A broadcast sends a message to exactly the open sockets.
- **The client's live state** (`client/src/hooks/use-real-time-transit.ts`).
  - Three state cells (vehicles, alerts, connected) are overwritten by the socket's open, message and close handlers.
- **The command parser** (`client/src/lib/commands.ts`, `processCommand`).
  - A command such as "bus to downtown" is lower-cased and trimmed and must contain "to".
  - The text after the first "to", up to the next one, is searched for as a stop.
  - The routes of the first stop found are then fetched.

Modules:

- `Storage` (class `MemStorage`), `Simulator` (class `LiveUpdates`), `LiveTransit` (class `TransitFeed`) and `Commands`: one module per source file.
- `Schema`: the `Stop`/`Route` records.
- `Protocol`: the vehicle, alert and message records both ends share.
- `OrderedTable`: a JavaScript `Map`, that is, entries plus insertion order, so that `Array.from(map.values())` is modelled exactly.
- `Seqs`: filter and sub-sequence.
- `Text`: `toLowerCase`, `trim`, `includes`, `split`.
- `Wrappers`: `Option`.

Modelling choices:

- Random draws (`Math.random()`) are parameters in [0, 1), one per call in the source's order.
- Clock readings (`new Date()`, `Date.now()`) are integer parameters, one per reading in the source. The movement tick and the init loop read the clock once per vehicle, so they take one reading per vehicle (`nows`). Seeding the store reads it once per sample route (`Storage.SeedTimes`). An alert reads it once (`now`).
- Coordinates, headings and speeds are mathematical reals.
- The two HTTP lookups of `processCommand` are oracle functions. The reply records which lookups were made, so "no lookup is made" can be stated.
- The simulator and the client are tied together. The simulator's invariant says every open socket, replayed through the client's own message handler, shows exactly the server's current vehicles and alerts.

## Model

| member | source | states |
|---|---|---|
| Storage.MemStorage.constructor | server/storage.ts:17-23 | A new store holds exactly the four sample stops under ids 1..4 in seed order and the two sample routes under ids 1..2 (route 1 runs 1→2, route 2 runs 1→3); the counters stand at 5 and 3; route 1 departs 15 minutes after the first clock reading and route 2 5 minutes after the second; the store invariant holds |
| Storage.MemStorage.InitializeMockData | server/storage.ts:25-65 | Stores the sample stops under the next four stop ids, then the sample routes under the next two route ids; the routes' ends are the ids just given to the first three stops; each route's departure is its own clock reading plus 15 or 5 minutes; the counters advance by 4 and 2 |
| Storage.MemStorage.StoreStops | server/storage.ts:34-39 | The `map` over the sample stops stores the i-th stop under counter+i, advances the counter by the number of stops and returns the stops with their ids, in order |
| Storage.MemStorage.AddStop | server/storage.ts:35-37 | One callback: the stop takes the current counter as its id, the counter moves on by one, and the stop is set in the table under that id |
| Storage.MemStorage.StoreRoutes | server/storage.ts:61-64 | The `forEach` over the sample routes stores the i-th route under counter+i and advances the counter by the number of routes |
| Storage.MemStorage.AddRoute | server/storage.ts:62-63 | One callback: the route takes the current counter as its id, the counter moves on, and the route is set under that id |
| Storage.StoredEntries | server/storage.ts:34-39 | Storing n items from id `next` on adds exactly the keys next..next+n-1, puts the i-th item (with id next+i) under next+i, and keeps every other entry |
| Storage.StoredAppends | server/storage.ts:34-39 | When every existing key is below the counter, the new ids join the insertion order at the end, in increasing order |
| Storage.StoredKeepsValid | server/storage.ts:37 | Storing keeps a table's order and entries in agreement with no key repeated |
| Storage.SeedingGivesSeedStops | server/storage.ts:27-39 | Storing the four sample stops into an empty table from id 1 gives stop ids exactly 1..4 in seed order, each key equal to the stored stop's id |
| Storage.SeedingGivesSeedRoutes | server/storage.ts:42-64 | Storing the two sample routes from id 1 gives route ids exactly 1..2, route 1 from stop 1 to stop 2 and route 2 from stop 1 to stop 3 |
| Storage.SeedIsConsistent | server/storage.ts:20-21 | The seeded tables satisfy the store invariant: every key is its record's id and below its counter, and both ends of every route are stored stops |
| Storage.MemStorage.RouteEndsAreStops | server/storage.ts:46-47 | In a valid store both ends of every route returned by `getRoutes` are stored stop ids |
| Storage.MemStorage.GetStops | server/storage.ts:67-69 | All stops, one per key, in insertion order |
| Storage.MemStorage.GetRoutes | server/storage.ts:71-73 | All routes, one per key, in insertion order |
| Storage.MemStorage.StopsDistinct | server/storage.ts:68 | No stop is listed twice |
| Storage.MemStorage.RoutesDistinct | server/storage.ts:72 | No route is listed twice |
| Storage.MemStorage.GetRoutesByStop | server/storage.ts:75-79 | A route is in the result iff it is stored and starts or ends at the stop; the result keeps insertion order; an unknown stop gives the empty list |
| Storage.MemStorage.ByStopIsUnique | server/storage.ts:75-79 | Any in-order selection of the routes holding exactly the touching routes is the result, so the result is fully determined |
| Storage.MemStorage.FindRoutesBetweenStops | server/storage.ts:81-85 | A route is in the result iff it is stored and starts at the first stop and ends at the second; the result keeps insertion order |
| Storage.MemStorage.BetweenIsUnique | server/storage.ts:81-85 | Any in-order selection holding exactly the routes from start to end is the result |
| Storage.MemStorage.BetweenWithinByStop | server/storage.ts:76-84 | The routes between two stops are a sub-sequence of the routes touching the first stop |
| Storage.MemStorage.BetweenWithinByEndStop | server/storage.ts:76-84 | The routes between two stops are a sub-sequence of the routes touching the second stop |
| Storage.MemStorage.SeedRouteQueries | server/storage.ts:81-85 | On the seed data the query is directional: (1, 2) finds route 1 and (2, 1) finds nothing; stop 1 is on both routes, stop 4 on none |
| Storage.MemStorage.SearchStops | server/storage.ts:87-92 | A stop is in the result iff it is stored and its lower-cased name contains the lower-cased query; the result keeps insertion order |
| Storage.MemStorage.SearchIsUnique | server/storage.ts:87-92 | Any in-order selection holding exactly the matching stops is the result |
| Storage.MemStorage.SearchIgnoresQueryCase | server/storage.ts:88 | A query and its lower-cased form find the same stops |
| Storage.MemStorage.EmptyQueryFindsAll | server/storage.ts:87-92 | The empty query returns every stop |
| Simulator.LiveUpdates.constructor | server/websocket.ts:23-25 | Initial module state plus the init loop: no alerts, counter 1, no clients, exactly one vehicle for each key 1..6 in key order, vehicle k spawned from its own draws and its own clock reading, with route id k |
| Simulator.SpawnFleet | server/websocket.ts:86-95 | The init loop sets keys 1..n in order, key i holding the vehicle spawned for route i from the i-th draws and the i-th clock reading |
| Simulator.FilledGrows | server/websocket.ts:87 | One turn of the init loop sets the next key at the end of the order |
| Simulator.FleetSpawned | server/websocket.ts:86-95 | After the loop every key 1..6 is present, its vehicle's route id equals its key, and it is the vehicle its draws give |
| Simulator.InitialFleet | server/websocket.ts:86-95 | Route j+1's vehicle comes from the j-th draws and the j-th clock reading, one vehicle per draw |
| Simulator.Spawned | server/websocket.ts:87-94 | A spawned vehicle carries its route id and the clock reading taken for it, lies within 0.01 of the centre, heads in [0, 360) and moves at [20, 30) |
| Simulator.Moved | server/websocket.ts:57-64 | A step keeps the route id, moves each coordinate by a step in [-0.0005, 0.0005), sets heading in [0, 360), speed in [20, 30) and the vehicle's clock reading |
| Simulator.LiveUpdates.MovementTick | server/websocket.ts:56-67 | Keeps the invariant and the keys with their order; every vehicle, in table order, is replaced by its step with its own draws and its own clock reading; then exactly the open clients are sent all vehicles |
| Simulator.LiveUpdates.MovementKeepsValid | server/websocket.ts:66 | After the move, the VEHICLE_UPDATES broadcast brings every open client back in step with the server |
| Simulator.Pick | server/websocket.ts:74-76 | `Math.floor(r * n)` for a draw r is an index below n, the whole part of r·n |
| Simulator.GenerateRandomAlert | server/websocket.ts:107-117 | The text chosen is one of the six catalogue texts |
| Simulator.NewAlert | server/websocket.ts:72-79 | The alert takes the given id and time, a route in 1..6, a type and severity picked by their draws, and a catalogue text |
| Simulator.LiveUpdates.AlertTick | server/websocket.ts:70-83 | Below 0.3, the alert takes the counter's id, the counter grows by exactly one, the alert is stored under its id at the end of the table, and exactly the open clients are sent it. Otherwise alerts, counter and clients are unchanged. Ids stay unique and increasing |
| Simulator.LiveUpdates.AlertKeepsValid | server/websocket.ts:80-81 | After the alert is stored, the SERVICE_ALERT broadcast brings every open client back in step |
| Simulator.Fanout | server/websocket.ts:98-105 | The client list keeps its length and states; an open client gets the message appended once, any other client is untouched |
| Simulator.LiveUpdates.Broadcast | server/websocket.ts:98-105 | The loop over the clients leaves them as `Fanout` says |
| Simulator.LiveUpdates.Connect | server/websocket.ts:33-43 | A new connection is open and has been sent one INIT holding every current vehicle and every current alert; the invariant is kept |
| Simulator.LiveUpdates.Advance | server/websocket.ts:45-47 | A socket moving on to a later ready state changes nothing else and keeps the invariant |
| LiveTransit.Initial | client/src/hooks/use-real-time-transit.ts:22-24 | No vehicles, no alerts, not connected |
| LiveTransit.Receive | client/src/hooks/use-real-time-transit.ts:35-50 | INIT replaces both lists with the payload's; VEHICLE_UPDATES replaces the vehicles and keeps the alerts; SERVICE_ALERT appends one alert and keeps the vehicles; any other type changes nothing; `connected` never changes |
| LiveTransit.Replay | client/src/hooks/use-real-time-transit.ts:35-50 | Handling messages never changes `connected` |
| LiveTransit.ReplayAppend | client/src/hooks/use-real-time-transit.ts:35-50 | Handling `ms` then `ns` is handling `ms + ns` |
| LiveTransit.ReplayAlerts | client/src/hooks/use-real-time-transit.ts:46-48 | A run of SERVICE_ALERT messages appends their alerts in order and keeps the vehicles |
| LiveTransit.InitThenAlerts | client/src/hooks/use-real-time-transit.ts:39-48 | Whatever came before, INIT followed by alert messages leaves the INIT's vehicles and the INIT's alerts followed by the new ones |
| LiveTransit.LastVehicleUpdateWins | client/src/hooks/use-real-time-transit.ts:43-45 | After a VEHICLE_UPDATES message the vehicles are its payload, whatever came before |
| LiveTransit.TransitFeed.constructor | client/src/hooks/use-real-time-transit.ts:22-24 | The three state cells start as the initial state |
| LiveTransit.TransitFeed.OnOpen | client/src/hooks/use-real-time-transit.ts:30-33 | Sets `connected` and keeps vehicles and alerts |
| LiveTransit.TransitFeed.OnClose | client/src/hooks/use-real-time-transit.ts:52-55 | Clears `connected` and keeps vehicles and alerts |
| LiveTransit.TransitFeed.OnMessage | client/src/hooks/use-real-time-transit.ts:35-50 | The switch on the message type leaves the state `Receive` gives |
| Text.Lower | client/src/lib/commands.ts:9 | Same length, each character lower-cased, no upper-case letter left |
| Text.LowerIdempotent | client/src/lib/commands.ts:9 | Lower-casing twice is lower-casing once |
| Text.Trim | client/src/lib/commands.ts:9 | No longer than the input and no whitespace at either end |
| Text.TrimKeepsCore | client/src/lib/commands.ts:9 | The trimmed text is a slice of the input with only whitespace cut off before and after it |
| Text.TrimUnpadded | client/src/lib/commands.ts:9 | A string with no whitespace at either end is its own trim |
| Text.TrimIgnoresPadding | client/src/lib/commands.ts:9 | Whitespace padding on either side does not change the trimmed text |
| Text.IndexOfFromIsFirst | client/src/lib/commands.ts:12 | The occurrence found is the first at or after the start; when none is found there is none |
| Text.IncludesIff | client/src/lib/commands.ts:12 | `includes` holds iff the separator occurs somewhere |
| Text.Split | client/src/lib/commands.ts:13 | At least one piece; exactly one iff the separator does not occur |
| Text.SplitPiecesExcludeSeparator | client/src/lib/commands.ts:13 | No piece contains the separator |
| Text.JoinSplit | client/src/lib/commands.ts:13 | Joining the pieces with the separator gives back the input |
| Text.SecondPieceStopsAtNext | client/src/lib/commands.ts:13 | With a second occurrence, piece 1 is the text between the first and the second |
| Text.SecondPieceRunsToEnd | client/src/lib/commands.ts:13 | With one occurrence only, piece 1 is the rest after it |
| Commands.Normalize | client/src/lib/commands.ts:9 | The normalised command has no whitespace at either end |
| Commands.PaddingAndCaseIgnored | client/src/lib/commands.ts:9 | A command padded with whitespace on either side behaves as its lower-cased core |
| Commands.Parse | client/src/lib/commands.ts:12-13 | A destination is found iff the normalised command contains "to"; it is shorter than the command |
| Commands.Destination | client/src/lib/commands.ts:13 | The destination is strictly shorter than the command |
| Commands.DestinationBetweenKeywords | client/src/lib/commands.ts:13 | With a second "to", the destination is the trimmed text between the first and the second |
| Commands.DestinationAfterOnlyKeyword | client/src/lib/commands.ts:13 | With only one "to", the destination is the trimmed rest after it |
| Commands.Answer | client/src/lib/commands.ts:14-30 | No destination: not understood, no lookup. Empty search: "No stops found…", one lookup. Found: routes of the first stop only, with all stops. Any failed lookup: "Failed to process command". Never both an error and a result (details below) |
| Commands.ProcessCommand | client/src/lib/commands.ts:4-31 | "I don't understand that command" iff the normalised command lacks "to"; otherwise the first lookup is the search for the destination |
| Commands.AnsweredByStore | server/routes.ts:16-32 | With the store behind the two lookups, found stops are stored stops whose names contain the destination, found routes start or end at the first of them, and the command fails iff the destination is empty |
| Commands.ProcessCommandByWord | client/src/lib/commands.ts:12-13 | The corrected command: not understood iff "to" does not stand as a word; otherwise the first lookup searches for the destination |
| Commands.ParseByWordFindsKeyword | client/src/lib/commands.ts:12 | The corrected parse finds a destination iff "to" stands somewhere as a word |
| Commands.ByWordTakesTheRest | client/src/lib/commands.ts:13 | After a lead-in without "to", the corrected destination is the whole trimmed rest, even when it contains the letters "to" |
| Commands.FirstWordDestination | client/src/lib/commands.ts:12-13 | The corrected destination is the trimmed text after the first word "to", wherever the letters "to" occur before it |
| Commands.DestinationCutAtInnerKeyword | client/src/lib/commands.ts:13 | On "go to downtown" the code as written searches for "down", and the corrected parse for "downtown" |
| Commands.DestinationMissesTheStop | client/src/lib/commands.ts:12-13 | On "from downtown to tsu campus" the code as written searches for "wn", and the corrected parse for "tsu campus" |

`Commands.Answer` states:

- With no destination, the reply is "I don't understand that command" and no lookup is made.
- Otherwise the first lookup is the stop search for the destination.
- An empty search result gives "No stops found matching your destination", and no second lookup is made.
- Routes are looked up for the first stop only, and a found result carries the whole stop list and those routes.
- A failed lookup gives "Failed to process command".
- Every result is either an error or the stops-and-routes pair, and each error is one of the three messages.

The query methods of `MemStorage` are functions that read the store and cannot change it. So "the queries change neither the tables nor the counters" holds by construction.

## Findings

| source | as written | input that shows it | evidently intended | confidence | as-written member | corrected member |
|---|---|---|---|---|---|---|
| client/src/lib/commands.ts:12-13 | The keyword is the letters "to" anywhere, and the destination is the text between the first and the second occurrence | "go to downtown" searches for "down", because "downtown" contains "to" | The word "to" is the keyword and everything after it is the destination: "downtown" | not executed | Commands.DestinationCutAtInnerKeyword | Commands.ByWordTakesTheRest |
| client/src/lib/commands.ts:12-13 | The first "to" may sit inside a word before the destination | "from downtown to tsu campus" searches for "wn", the text between the "to" inside "downtown" and the next "to" | The word "to" is the keyword: "tsu campus" | not executed | Commands.DestinationMissesTheStop | Commands.FirstWordDestination |

The model keeps both readings:

- `Commands.ProcessCommand`, `Parse` and `Destination` follow the code as written.
- `Commands.ProcessCommandByWord` and `ParseByWord` follow the evidently intended reading.
- `DestinationCutAtInnerKeyword` shows the two differ on "go to downtown", and `DestinationMissesTheStop` on "from downtown to tsu campus".
- `ByWordTakesTheRest` proves the corrected destination is the whole rest.
- The rest of the model (`AnsweredByStore` and the properties of `Answer`) holds for either reading, because `Answer` takes the parsed destination as its input.

## Left out

- Text.Lower: lower-cases ASCII letters only. JavaScript's `toLowerCase` also maps other Unicode letters and some expand to several characters; the store's search and the command parser are modelled for ASCII.
- Text.Split: is defined only for a non-empty separator, the only kind `processCommand` uses ("to").
- Commands.ProcessCommandByWord: a word boundary is a space or an end of the command. The corrected reading is given as an alternative, not as the source's behaviour.
- `apiRequest` is not part of this model. The two lookups are oracle functions returning a parsed body or a failure. A non-OK status, a network error and a malformed body are all the one failure that the `catch` turns into "Failed to process command".
- `encodeURIComponent` and the URL construction are left out; the search oracle receives the destination itself.
- The HTTP handlers in `server/routes.ts` appear only through `Commands.SearchServedBy` and `Commands.RoutesServedBy`: the empty query fails (status 400) and the by-stop lookup returns the store's answer. `parseInt`/`isNaN` on path text are not modelled, since the client passes an integer id. `/api/routes/between` and the plain listings are served by `GetRoutes`/`FindRoutesBetweenStops` directly.
- JSON serialisation (`JSON.stringify` on send, `JSON.parse` on receipt) is left out. Messages are values of `Protocol.Message`, and the client receives what the server sends. A `Date` arrives at the client as a string; both ends are modelled with the same integer timestamp.
- Timers (`setInterval`), `new Date()`, `Date.now()` and `Math.random()` are inputs: each tick is a method call, each draw a parameter in [0, 1), each clock reading an integer parameter of its own.
- Coordinates, headings and speeds are mathematical reals, not IEEE doubles, so rounding in the jitter arithmetic is not modelled.
- The WebSocket server itself is left out: the `ws` library's handshake, how it adds and removes sockets in `wss.clients`, and the sockets' own state changes. A socket's ready state changes only through `Simulator.LiveUpdates.Advance`, and closed sockets stay in the client list.
- Console logging in the connection and close handlers is left out.
- Simulator.LiveUpdates.MovementTick: the source mutates the vehicle objects in place (the same objects the INIT snapshot was built from). The model replaces each table entry by a new value, which has the same observable effect because every message is serialised when sent.
- The hook's effect cleanup (`ws.close()` on unmount, use-real-time-transit.ts:57-60) and the socket URL construction (27-28) are left out; the feed is modelled from open to close.
- Storage: the `async`/`Promise` wrappers of the storage methods are dropped; each query is a function of the store's state.
- Storage: a route's `nextDeparture` is the integer `now` plus the offset in milliseconds rather than a `Date`.
- The React pages and components, the wallet screens and the router are presentation only and are not part of this model.
