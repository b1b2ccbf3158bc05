/**
 * The newer route store (package dbmanager): the route and points tables
 * behind the RouteStorage contract, with typed errors for every empty or
 * failed lookup and the seat counter that ticket sales decrement.
 */
module Store {
  import opened Domain
  import opened Tables

  /** getData: the rows of a query, or ErrNoRoutes when there are none. */
  function Data(d: Db, q: Query): Result<seq<Route>> {
    NonEmpty(Rows(d, q), ErrNoRoutes)
  }

  /** RoutesByEndPoint's answer. */
  function EndPointData(d: Db, endpoint: string): Result<seq<Route>> {
    NonEmpty(Rows(d, EndsAt(endpoint)), ErrNoRoutesByEndPoint)
  }

  /** RouteByID's answer. */
  function FindByID(d: Db, id: int): Result<Route> {
    match Joined(d, id)
    case Some(r) => Ok(r)
    case None => Err(ErrNoRoutes)
  }

  /** DeleteRow's answer and the tables after it. */
  function Delete(d: Db, id: int): (Option<Error>, Db) {
    if id in d.routes then (None, Remove(d, id)) else (Some(ErrNoRoutes), d)
  }

  /**
   * TakePlace's answer and the tables after it: an unknown route and a full
   * route are errors that change nothing; otherwise the route's free seats
   * drop by one and the ticket is numbered from the counts read before.
   */
  function Take(d: Db, id: int): (out: (Result<Ticket>, Db))
    ensures Joined(d, id).None? ==> out == (Err(ErrNoRoutes), d)
    ensures Joined(d, id).Some? && Joined(d, id).value.freeSeats == 0 ==> out == (Err(ErrNoFreeSeats), d)
    ensures Joined(d, id).Some? && Joined(d, id).value.freeSeats != 0 ==> out.0.Ok?
    ensures out.0.Ok? ==>
      && Joined(d, id).Some? && Joined(d, id).value.freeSeats != 0
      && out.0.value == TicketFor(Joined(d, id).value)
      && out.1.points == d.points
      && out.1.nextRouteId == d.nextRouteId && out.1.nextPointsId == d.nextPointsId
      && out.1.routes.Keys == d.routes.Keys
      && out.1.routes[id] == d.routes[id].(freeSeats := d.routes[id].freeSeats - 1)
      && (forall k :: k in d.routes && k != id ==> out.1.routes[k] == d.routes[k])
  {
    match Joined(d, id)
    case None => (Err(ErrNoRoutes), d)
    case Some(route) =>
      if route.freeSeats == 0 then (Err(ErrNoFreeSeats), d)
      else
        var row := d.routes[id];
        (Ok(TicketFor(route)), d.(routes := d.routes[id := row.(freeSeats := row.freeSeats - 1)]))
  }

  /**
   * A sale keeps the seat invariant 0 <= freeSeats <= allSeats of the route
   * it sells on, and the seat it hands out is one of the route's seats.
   */
  lemma TakeKeepsSeatBounds(d: Db, id: int)
    requires WellFormed(d)
    requires id in d.routes && 0 <= d.routes[id].freeSeats <= d.routes[id].allSeats
    ensures WellFormed(Take(d, id).1)
    ensures 0 <= Take(d, id).1.routes[id].freeSeats <= Take(d, id).1.routes[id].allSeats
    ensures Take(d, id).0.Ok? <==> d.routes[id].freeSeats > 0
    ensures Take(d, id).0.Ok? ==> 1 <= Take(d, id).0.value.place <= d.routes[id].allSeats
  {
  }

  /** `k` successive TakePlace calls on one route: their answers, and the tables after them. */
  function TakeMany(d: Db, id: int, k: nat): (seq<Result<Ticket>>, Db)
    decreases k
  {
    if k == 0 then ([], d)
    else
      var (first, d1) := Take(d, id);
      var (rest, d2) := TakeMany(d1, id, k - 1);
      ([first] + rest, d2)
  }

  /**
   * On a route with `sold` of its seats gone, `k` more sales (as many as
   * remain, or fewer) hand out the places sold+1, …, sold+k in that order.
   */
  lemma {:induction false} TakeManyPlaces(d: Db, id: int, sold: nat, k: nat)
    requires id in d.routes && d.routes[id].pointsId in d.points
    requires d.routes[id].freeSeats == d.routes[id].allSeats - sold
    requires sold + k <= d.routes[id].allSeats
    ensures |TakeMany(d, id, k).0| == k
    ensures forall i :: 0 <= i < k ==>
      TakeMany(d, id, k).0[i].Ok? && TakeMany(d, id, k).0[i].value.place == sold + i + 1
    ensures id in TakeMany(d, id, k).1.routes
    ensures TakeMany(d, id, k).1.routes[id] == d.routes[id].(freeSeats := d.routes[id].allSeats - sold - k)
    ensures TakeMany(d, id, k).1.points == d.points
    decreases k
  {
    if k != 0 {
      var (first, d1) := Take(d, id);
      assert first.Ok? && first.value.place == sold + 1;
      TakeManyPlaces(d1, id, sold + 1, k - 1);
    }
  }

  /**
   * The sell-out scenario: on a route with all `n` seats free, n sales hand
   * out the places 1, 2, …, n, and the next sale fails with ErrNoFreeSeats.
   */
  lemma SellOut(d: Db, id: int)
    requires id in d.routes && d.routes[id].pointsId in d.points
    requires d.routes[id].freeSeats == d.routes[id].allSeats >= 0
    ensures var n := d.routes[id].allSeats;
      && |TakeMany(d, id, n).0| == n
      && (forall i :: 0 <= i < n ==> TakeMany(d, id, n).0[i] == Ok(TicketFor(Joined(d, id).value).(place := i + 1)))
      && Take(TakeMany(d, id, n).1, id).0 == Err(ErrNoFreeSeats)
  {
    var n := d.routes[id].allSeats;
    TakeManyPlaces(d, id, 0, n);
    TakeManyTickets(d, id, n);
  }

  /** Every ticket of a run of sales carries the route's points, start and cost. */
  lemma {:induction false} TakeManyTickets(d: Db, id: int, k: nat)
    requires id in d.routes && d.routes[id].pointsId in d.points
    ensures forall i :: 0 <= i < |TakeMany(d, id, k).0| && TakeMany(d, id, k).0[i].Ok? ==>
      var t := TakeMany(d, id, k).0[i].value;
      t.points == d.points[d.routes[id].pointsId] && t.startTime == d.routes[id].start && t.cost == d.routes[id].cost
    decreases k
  {
    if k != 0 {
      var (first, d1) := Take(d, id);
      TakeManyTickets(d1, id, k - 1);
    }
  }

  /** AddRoute's answer, read back by id, is the route that was added. */
  lemma AddThenFind(d: Db, r: Route)
    requires WellFormed(d)
    ensures FindByID(Insert(d, r).1, Insert(d, r).0) == Ok(r.(id := Insert(d, r).0))
  {
    InsertRoundTrip(d, r);
  }

  /**
   * Deleting removes only that route: afterwards RouteByID on it fails, so
   * does a second delete, and every other route reads as before.
   */
  lemma DeleteThenFind(d: Db, id: int)
    requires WellFormed(d)
    ensures Delete(d, id).0 == None <==> id in d.routes
    ensures FindByID(Delete(d, id).1, id) == Err(ErrNoRoutes)
    ensures Delete(Delete(d, id).1, id).0 == Some(ErrNoRoutes)
    ensures forall k :: k != id ==> FindByID(Delete(d, id).1, k) == FindByID(d, k)
  {
  }

  /**
   * RoutesByEndPoint answers exactly the routes with that endpoint, and
   * ErrNoRoutesByEndPoint exactly when there is none.
   */
  lemma EndPointDataExact(d: Db, endpoint: string)
    requires WellFormed(d)
    ensures EndPointData(d, endpoint).Ok? ==> forall x :: x in EndPointData(d, endpoint).value <==>
      Joined(d, x.id) == Some(x) && x.points.endPoint == endpoint
    ensures EndPointData(d, endpoint) == Err(ErrNoRoutesByEndPoint) <==>
      forall id :: Joined(d, id).Some? ==> Joined(d, id).value.points.endPoint != endpoint
    ensures EndPointData(d, endpoint).Ok? || EndPointData(d, endpoint) == Err(ErrNoRoutesByEndPoint)
  {
    RowsEmpty(d, EndsAt(endpoint));
    forall x ensures x in Rows(d, EndsAt(endpoint)) <==> Joined(d, x.id) == Some(x) && x.points.endPoint == endpoint {
      RowsExact(d, EndsAt(endpoint), x);
    }
  }

  /**
   * getData over the current routes answers exactly the routes starting at
   * or after `today`, and ErrNoRoutes when there are none.
   */
  lemma CurrentDataExact(d: Db, today: int)
    requires WellFormed(d)
    ensures Data(d, StartsFrom(today)).Ok? ==> forall x :: x in Data(d, StartsFrom(today)).value <==>
      Joined(d, x.id) == Some(x) && x.start >= today
    ensures Data(d, StartsFrom(today)) == Err(ErrNoRoutes) <==>
      forall id :: Joined(d, id).Some? ==> Joined(d, id).value.start < today
    ensures Data(d, StartsFrom(today)).Ok? || Data(d, StartsFrom(today)) == Err(ErrNoRoutes)
  {
    RowsEmpty(d, StartsFrom(today));
    forall x ensures x in Rows(d, StartsFrom(today)) <==> Joined(d, x.id) == Some(x) && x.start >= today {
      RowsExact(d, StartsFrom(today), x);
    }
  }

  /** The store: two tables and their counters, kept in the fields the methods update. */
  class DBManager {
    var routes: map<int, RouteRow>
    var points: map<int, Points>
    var nextRouteId: int
    var nextPointsId: int

    /** The tables as a value. */
    function State(): Db
      reads this
    {
      Db(routes, points, nextRouteId, nextPointsId)
    }

    predicate Valid()
      reads this
    {
      WellFormed(State())
    }

    constructor ()
      ensures Valid() && State() == Empty
    {
      routes, points := map[], map[];
      nextRouteId, nextPointsId := 1, 1;
    }

    /** getData: run a query and turn an empty result into ErrNoRoutes. */
    method GetData(q: Query) returns (res: Result<seq<Route>>)
      requires Valid()
      ensures res == Data(State(), q)
      ensures res.Ok? ==> |res.value| > 0 && forall x :: x in res.value ==> Joined(State(), x.id) == Some(x) && Matches(q, x)
    {
      var rows := Scan(State(), q);
      if |rows| == 0 {
        return Err(ErrNoRoutes);
      }
      forall x | x in rows ensures Joined(State(), x.id) == Some(x) && Matches(q, x) {
        RowsExact(State(), q, x);
      }
      return Ok(rows);
    }

    method GetAllData() returns (res: Result<seq<Route>>)
      requires Valid()
      ensures res == Data(State(), All)
    {
      res := GetData(All);
    }

    /** The routes starting at or after `today` (the start of the current day). */
    method GetCurrentData(today: int) returns (res: Result<seq<Route>>)
      requires Valid()
      ensures res == Data(State(), StartsFrom(today))
    {
      res := GetData(StartsFrom(today));
    }

    method RouteByID(id: int) returns (res: Result<Route>)
      ensures res == FindByID(State(), id)
      ensures res.Ok? ==> res.value.id == id && id in routes
    {
      var row := Joined(State(), id);
      if row.None? {
        return Err(ErrNoRoutes);
      }
      return Ok(row.value);
    }

    method DeleteRow(id: int) returns (err: Option<Error>)
      requires Valid()
      modifies this
      ensures Valid()
      ensures (err, State()) == Delete(old(State()), id)
    {
      if id !in routes {
        return Some(ErrNoRoutes);
      }
      RemoveWellFormed(State(), id);
      routes := routes - {id};
      return None;
    }

    method RoutesByEndPoint(endpoint: string) returns (res: Result<seq<Route>>)
      requires Valid()
      ensures res == EndPointData(State(), endpoint)
    {
      var rows := Scan(State(), EndsAt(endpoint));
      if |rows| == 0 {
        return Err(ErrNoRoutesByEndPoint);
      }
      return Ok(rows);
    }

    /** insertPoint: a new points row under the next points id. */
    method InsertPoint(p: Points) returns (pointId: int)
      modifies this
      ensures pointId == old(nextPointsId)
      ensures State() == AddPointRow(old(State()), p)
    {
      pointId := nextPointsId;
      points := points[pointId := p];
      nextPointsId := nextPointsId + 1;
    }

    /** insertRoute: a new route row under the next route id. */
    method InsertRoute(row: RouteRow) returns (idRoute: int)
      modifies this
      ensures idRoute == old(nextRouteId)
      ensures State() == AddRouteRow(old(State()), row)
    {
      idRoute := nextRouteId;
      routes := routes[idRoute := row];
      nextRouteId := nextRouteId + 1;
    }

    method AddRoute(r: Route) returns (res: Result<int>)
      requires Valid()
      modifies this
      ensures Valid()
      ensures res == Ok(Insert(old(State()), r).0)
      ensures State() == Insert(old(State()), r).1
    {
      InsertWellFormed(State(), r);
      var pointId: int;
      var found := FindPoints(points, r.points, nextPointsId);
      if found.None? {
        pointId := InsertPoint(r.points);
      } else {
        pointId := found.value;
      }
      var idRoute := InsertRoute(RouteRow(pointId, r.start, r.cost, r.freeSeats, r.allSeats));
      return Ok(idRoute);
    }

    method TakePlace(id: int) returns (res: Result<Ticket>)
      requires Valid()
      modifies this
      ensures Valid()
      ensures (res, State()) == Take(old(State()), id)
    {
      var found := Joined(State(), id);
      if found.None? {
        return Err(ErrNoRoutes);
      }
      var route := found.value;
      if route.freeSeats == 0 {
        return Err(ErrNoFreeSeats);
      }
      routes := routes[id := routes[id].(freeSeats := routes[id].freeSeats - 1)];
      return Ok(TicketFor(route));
    }
  }
}
