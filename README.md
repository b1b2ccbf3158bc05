# Bus station booking core, modelled in Dafny

This project models the booking and inventory logic of the Buses repository.
A route manager enforces the business rules and sits on a route store.
The store keeps two tables and their id counters:

- a `route` table: id → points id, start, cost, free seats, all seats;
- a `points` table: id → (start point, end point).

The repository has two generations of this logic, and both are modelled:

- the newer `RouteManager` (src/routemanager) over the newer `DBManager` (src/dbmanager);
- the older `RouteManager` (src/controller) over the older `DBManager` (src/db).

Timestamps are whole seconds. The clock is a parameter: `now` for the creation check, `today` (the start of the current day) for the current-routes query.

Modules:

- `Domain`: `Route`, `Points` and `Ticket`; the closed `Error` type; `Result`/`Option`; `RouteRef`, the route a caller holds by pointer; `AssignId`, which writes a storage-assigned id into a route.
- `Tables`: the two tables as a value `Db`. `Joined` is the SQL join of a route row and its points row. `Rows` is a query's result in ascending id. `Insert` is the insert-or-reuse effect of AddRoute. It also holds the row loop `Scan` and the points lookup `FindPoints`.
- `Schedule`: the 24-hour window `[date, date + 24h)`, the filter loop `FilterWindow`, and `NarrowToDay`, the part of a search that runs after the storage has answered.
- `Store` and `LegacyStore`: the two `DBManager` classes. Each has map fields, counters and methods that update them. Each method's contract ties the new tables to a specification function over `Db`.
- `Booking` and `Controller`: the two `RouteManager` classes over their stores.

Storage errors other than those the in-memory tables produce are handled generically. `AssignId` and `NarrowToDay` take any storage answer, including the opaque `StoreError(msg)`.

Points of the code's behaviour that the model keeps as written:

- The seat number is `AllSeats - FreeSeats + 1`, with the counts read before the decrement (src/dbmanager/dbmanager.go:318).
- Creation rejects only `start < now`, because Go's `Before` is strict. A route starting exactly at `now` is accepted.
- `SearchRoutes` does not reject an empty endpoint. That check exists only in the HTTP handler, which is not part of this model.
- The route manager has no current-routes operation. Only the newer store has `GetCurrentData`.
- The seat decrement is a read followed by a separate unconditional UPDATE, not one atomic conditional update.

## Model

| member | source | states |
|---|---|---|
| Domain.AssignId | src/routemanager/routemanager.go:46-52 | For any storage answer: an error is returned unchanged and the route is untouched; an id is written into the route's ID and no other field changes |
| Tables.SelectMembership | src/dbmanager/dbmanager.go:86-98 | A row is in the scan of ids [lo, hi) exactly when its id is in range, it is the joined row for that id, and it matches the query |
| Tables.SelectIncreasing | src/dbmanager/dbmanager.go:86-98 | The scan produces rows in strictly ascending id |
| Tables.SelectAgree | src/dbmanager/dbmanager.go:86-98 | Two table states whose joined rows agree on an id range give the same scan over that range |
| Tables.RowsExact | src/dbmanager/dbmanager.go:110-116 | A query returns exactly the stored joined routes that satisfy its WHERE clause |
| Tables.RowsIncreasing | src/dbmanager/dbmanager.go:110-116 | A query's rows come in ascending id, so no route appears twice |
| Tables.RowsEmpty | src/dbmanager/dbmanager.go:100-102 | A query's result is empty exactly when no stored route matches it |
| Tables.Scan | src/dbmanager/dbmanager.go:86-98 | The rows.Next loop appends exactly the query's rows, in id order |
| Tables.FindPairCorrect | src/dbmanager/dbmanager.go:252-270 | The points lookup finds an id holding the pair, or proves that no id in range holds it |
| Tables.FindPoints | src/dbmanager/dbmanager.go:252-270 | The SELECT id_points loop returns the first points id holding the (startPoint, endPoint) pair, or none |
| Tables.InsertReuses | src/dbmanager/dbmanager.go:265-270 | When the pair is already stored, AddRoute leaves the points table unchanged and the new route references that pair's id |
| Tables.InsertAddsPair | src/dbmanager/dbmanager.go:260-264 | When the pair is new, AddRoute adds exactly one points row under a fresh id, and the new route references it |
| Tables.InsertWellFormed | src/dbmanager/dbmanager.go:252-277 | AddRoute keeps the table invariant: no pair stored twice, ids below their counters, every route referencing an existing points row |
| Tables.InsertRoundTrip | src/dbmanager/dbmanager.go:271-282 | AddRoute returns a fresh route id, keeps every existing route row, reads back as the given route with that id, and changes no other joined route |
| Tables.InsertRows | src/db/dbmanager.go:220-257 | After AddRoute every query returns its earlier rows, followed by the new route if it matches |
| Tables.RemoveWellFormed | src/dbmanager/dbmanager.go:154-170 | Deleting a route keeps the table invariant, makes that route unreadable, and leaves every other route as before |
| Tables.RemoveEffect | src/dbmanager/dbmanager.go:154-170 | Deleting a route removes exactly it from every query's rows |
| Schedule.WindowMembership | src/routemanager/routemanager.go:69-75 | A route survives the date filter exactly when it was in the input and `0 <= start - date < 24h` |
| Schedule.WindowConcat | src/routemanager/routemanager.go:70-74 | The filter keeps the input order: filtering a concatenation concatenates the filtered parts |
| Schedule.WindowShorter | src/routemanager/routemanager.go:69-75 | The filter never returns more routes than it was given |
| Schedule.WindowIncreasing | src/routemanager/routemanager.go:70-74 | Filtering a list in ascending id keeps it in ascending id |
| Schedule.FilterWindow | src/routemanager/routemanager.go:69-75 | The append loop computes exactly the window filter of its input |
| Schedule.NarrowToDay | src/routemanager/routemanager.go:64-79 | After the storage has answered, a search returns exactly the outcome `OnDay` describes |
| Schedule.OnDayOutcomes | src/routemanager/routemanager.go:64-79 | A storage error is propagated unchanged; an empty window gives the "nothing today" error; otherwise exactly the storage routes in the window, in order; and a storage success with any route in the window is `Ok` of the window |
| Store.Take | src/dbmanager/dbmanager.go:286-322 | An unknown id gives ErrNoRoutes and a full route gives ErrNoFreeSeats, both with no change. Any other existing route, whatever its counts, is sold: only its free seats drop by one, and the ticket copies points, start and cost with place `AllSeats - FreeSeats + 1` from the counts read before |
| Store.TakeKeepsSeatBounds | src/dbmanager/dbmanager.go:304-319 | If `0 <= freeSeats <= allSeats` holds before a sale, it holds after; the sale succeeds exactly when a seat is free, and its place is between 1 and allSeats |
| Store.TakeManyPlaces | src/dbmanager/dbmanager.go:304-319 | After `sold` sales, `k` more sales (no more than remain) hand out places sold+1 … sold+k in order and leave `allSeats - sold - k` seats free |
| Store.TakeManyTickets | src/dbmanager/dbmanager.go:312-317 | Every ticket from a run of sales carries the route's points, start time and cost |
| Store.SellOut | src/dbmanager/dbmanager.go:304-319 | On a route with all n seats free, n sales give places 1, 2, …, n, and sale n+1 fails with ErrNoFreeSeats |
| Store.AddThenFind | src/dbmanager/dbmanager.go:250-283 | RouteByID on the id AddRoute returned answers the added route with that id |
| Store.DeleteThenFind | src/dbmanager/dbmanager.go:154-170 | DeleteRow succeeds exactly when the row exists. Afterwards RouteByID on that id gives ErrNoRoutes, a second delete fails with ErrNoRoutes, and other routes read as before |
| Store.EndPointDataExact | src/dbmanager/dbmanager.go:173-202 | RoutesByEndPoint answers exactly the routes with that endpoint, and ErrNoRoutesByEndPoint exactly when there are none; it is never any other error |
| Store.CurrentDataExact | src/dbmanager/dbmanager.go:120-130 | The current-data query answers exactly the routes with `start >= today`, and ErrNoRoutes exactly when there are none; it is never any other error |
| Store.DBManager.constructor | src/dbmanager/dbmanager.go:31-33 | A new store has empty, well-formed tables |
| Store.DBManager.GetData | src/dbmanager/dbmanager.go:77-105 | getData answers the query's rows; an empty result is ErrNoRoutes; every route answered is stored and matches the query |
| Store.DBManager.GetAllData | src/dbmanager/dbmanager.go:108-117 | Every stored route, or ErrNoRoutes when there is none |
| Store.DBManager.GetCurrentData | src/dbmanager/dbmanager.go:120-130 | The routes starting at or after `today`, or ErrNoRoutes |
| Store.DBManager.RouteByID | src/dbmanager/dbmanager.go:133-151 | The route with that id, or ErrNoRoutes when it is absent |
| Store.DBManager.DeleteRow | src/dbmanager/dbmanager.go:154-170 | Removes only that route row; ErrNoRoutes with nothing changed when no row was affected |
| Store.DBManager.RoutesByEndPoint | src/dbmanager/dbmanager.go:173-202 | The routes with that endpoint, or ErrNoRoutesByEndPoint when there are none |
| Store.DBManager.InsertPoint | src/dbmanager/dbmanager.go:204-218 | Adds one points row under the next points id and returns that id |
| Store.DBManager.InsertRoute | src/dbmanager/dbmanager.go:228-247 | Adds one route row under the next route id and returns that id |
| Store.DBManager.AddRoute | src/dbmanager/dbmanager.go:250-283 | Reuses or inserts the points row, inserts the route row, returns its id, and keeps the table invariant |
| Store.DBManager.TakePlace | src/dbmanager/dbmanager.go:286-322 | The new tables and the answer are those of `Take` on the old tables |
| Booking.SearchOutcomes | src/routemanager/routemanager.go:61-80 | End to end over the store. ErrNoRoutesByEndPoint exactly when no route has the endpoint. ErrNoRoutes exactly when some do but none starts in `[date, date+24h)`. Otherwise, and never with another error, `Ok` of exactly the in-window routes with that endpoint, in ascending id |
| Booking.RouteManager.constructor | src/routemanager/routemanager.go:27-29 | The manager keeps the given storage |
| Booking.RouteManager.GetRoutes | src/routemanager/routemanager.go:32-34 | Exactly the storage's GetAllData answer |
| Booking.RouteManager.GetRouteByID | src/routemanager/routemanager.go:37-39 | Exactly the storage's RouteByID answer |
| Booking.RouteManager.CreateRoute | src/routemanager/routemanager.go:42-53 | `start < now` gives ErrInvalidDate and changes neither storage nor route. Otherwise the route is stored and its ID becomes the returned id, with no other field changed (so `start == now` is accepted) |
| Booking.RouteManager.DeleteRoute | src/routemanager/routemanager.go:56-58 | Exactly the storage's DeleteRow answer and effect |
| Booking.RouteManager.SearchRoutes | src/routemanager/routemanager.go:61-80 | The endpoint search narrowed to the day, with the storage's error passed through and ErrNoRoutes for an empty day |
| Booking.RouteManager.BuyTicket | src/routemanager/routemanager.go:83-85 | Exactly the storage's TakePlace answer and effect |
| LegacyStore.FindRouteExact | src/db/dbmanager.go:146-174 | FindRoute answers exactly the routes with that endpoint, without error, and is empty exactly when none has it |
| LegacyStore.DeleteThenFind | src/db/dbmanager.go:130-143 | DeleteRow succeeds exactly when the row exists. Afterwards RouteByID gives "no such route", a second delete fails, and other routes read as before |
| LegacyStore.ThreeAdds | src/db/dbmanager.go:220-257 | Three AddRoute calls for one pair on empty tables give ids 1, 2, 3. GetAllData then returns those three routes in order, and the pair is stored once |
| LegacyStore.DBManager.constructor | src/db/dbmanager.go:31-33 | A new store has empty, well-formed tables |
| LegacyStore.DBManager.GetAllData | src/db/dbmanager.go:68-95 | Every stored route, possibly none, without error |
| LegacyStore.DBManager.RouteByID | src/db/dbmanager.go:98-127 | The route with that id, or "no such route" |
| LegacyStore.DBManager.DeleteRow | src/db/dbmanager.go:130-143 | Removes only that route row; "no such route" with nothing changed when no row was affected |
| LegacyStore.DBManager.FindRoute | src/db/dbmanager.go:146-174 | The routes with that endpoint, possibly none, without error |
| LegacyStore.DBManager.InsertPoint | src/db/dbmanager.go:176-195 | Adds one points row under the next points id and returns that id |
| LegacyStore.DBManager.InsertRoute | src/db/dbmanager.go:197-217 | Adds one route row under the next route id and returns that id |
| LegacyStore.DBManager.AddRoute | src/db/dbmanager.go:220-257 | Reuses or inserts the points row, inserts a route row referencing it, returns its id, and changes no existing route |
| Controller.ChooseOutcomes | src/controller/route_manager.go:82-100 | End to end over the older store. "No such routes" exactly when no route with the endpoint starts in the day. Otherwise exactly those routes, in ascending id |
| Controller.RouteManager.constructor | src/controller/route_manager.go:27-29 | The manager keeps the given storage |
| Controller.RouteManager.GetAllRoutes | src/controller/route_manager.go:32-39 | Exactly the storage's GetAllData answer |
| Controller.RouteManager.GetRouteByID | src/controller/route_manager.go:42-50 | Exactly the storage's RouteByID answer |
| Controller.RouteManager.CreateNewRoute | src/controller/route_manager.go:53-69 | `start < now` gives "Date is invalid" and nothing is stored. Otherwise the route is stored and its ID becomes the returned id |
| Controller.RouteManager.DeleteRouteByID | src/controller/route_manager.go:72-79 | Exactly the storage's DeleteRow answer and effect |
| Controller.RouteManager.ChooseRoutesByDateAndPoint | src/controller/route_manager.go:82-100 | FindRoute's routes narrowed to the day; "No such routes" for an empty day; a FindRoute error passed through |

## Left out

- SQL text, the driver, `sql.Open`/`Ping`, row scanning and `LastInsertId` are not modelled. The tables are maps with id counters. So the driver-failure errors are never produced by the stores: "data hasn't read", "cannot delete route", "cannot insert …", "no data", "something is wrong", and the wrapped scan errors.
- `ErrTypes` and the `convertTypes`/`time.Parse` failures cannot arise with integer timestamps. The same goes for the date-format failure in `insertRoute`. `ErrTypes` and `ErrInvalidArg` stay in the error type only for completeness.
- Booking.RouteManager.CreateRoute: the in-memory `AddRoute` never fails. So the storage-failure branch is stated on `Domain.AssignId`, for any storage answer, and not on the method.
- Controller.RouteManager.CreateNewRoute: likewise, the storage-failure branch is stated on `Domain.AssignId`.
- Booking.RouteManager.SearchRoutes, Controller.RouteManager.ChooseRoutesByDateAndPoint: storage errors other than ErrNoRoutesByEndPoint come only from the driver. Their pass-through is stated on `Schedule.NarrowToDay` and `Schedule.OnDayOutcomes`, for any storage answer.
- Tables.InsertWellFormed: the points lookup and the points insert in `AddRoute` are separate statements with no transaction (src/dbmanager/dbmanager.go:252 then 261; src/db/dbmanager.go:222 then 234), and no schema constraint is modelled. Two interleaved creates for a new pair, or an existing database that `NewDBManager` wraps, can store a pair twice, after which the lookup's first row is arbitrary. `UniquePairs` excludes that, so the lemma holds only for sequential calls from tables with unique pairs.
- The read-then-update race in `TakePlace`: the model treats each call as one sequential step. It does not show the concurrent oversell that the separate SELECT and UPDATE allow, and it does not claim the update is atomic.
- Row order: the queries have no ORDER BY. The model fixes ascending route id, the primary-key order.
- Referential integrity: the model assumes every route row references an existing points row. The schema is not part of this model, and no modelled operation breaks the assumption.
- Timestamps are UTC seconds. Both stores write `start` with `Format("2006-01-02 15:04:05")`, which drops the time zone, and read it back with `time.Parse` as UTC (src/dbmanager/dbmanager.go:276 and 38; src/controller/route_manager.go:59 and src/db/dbmanager.go:38). So a route created with a non-UTC offset reads back shifted by that offset. The model stores `start` unchanged and does not capture that shift; `Tables.InsertRoundTrip` and `Store.AddThenFind` hold only for UTC starts.
- String comparison: the model compares endpoints and point pairs exactly, as under a binary collation. The queries `WHERE p.endpoint=?` (src/dbmanager/dbmanager.go:177, src/db/dbmanager.go:149) and `WHERE startpoint=? AND endpoint=?` (src/dbmanager/dbmanager.go:252, src/db/dbmanager.go:222) compare under the column collation, which the missing schema fixes. Under a case-insensitive or trailing-space-insensitive collation, `RoutesByEndPoint` and `FindRoute` can answer routes whose endpoint differs in case, and `AddRoute` can reuse a points row whose names differ in case. `Tables.Matches` and `Tables.FindPair` do not model that.
- `Duration.Hours()` is a float64. The window is modelled as the integer comparison `0 <= start - date < 86400` on seconds.
- The older generation's float32 cost is modelled as an integer.
- Go's fixed-width `int` is modelled as an unbounded integer. Overflow of ids, seat counts or the place number is not modelled.
- Go's `(zero value, error)` and `(nil, error)` pairs are modelled as `Err(e)`. Nil and empty slices are not told apart.
- Context cancellation, the HTTP and gRPC adapters, the wire conversions, the service orchestrator and its signal handling, configuration loading, and the `main.go`/`cmd` wiring are not modelled. They are transport, concurrency or lifecycle code.
