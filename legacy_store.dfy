/**
 * The older route store (package db): the same two tables, but queries
 * answer an empty list rather than an error, and errors are plain text.
 */
module LegacyStore {
  import opened Domain
  import opened Tables

  /** RouteByID's answer. */
  function FindByID(d: Db, id: int): Result<Route> {
    match Joined(d, id)
    case Some(r) => Ok(r)
    case None => Err(NoSuchRoute)
  }

  /** DeleteRow's answer and the tables after it. */
  function Delete(d: Db, id: int): (Option<Error>, Db) {
    if id in d.routes then (None, Remove(d, id)) else (Some(NoSuchRoute), d)
  }

  /** The route AddRoute's separate arguments describe (its id is not yet known). */
  function NewRoute(startPoint: string, endPoint: string, start: int, cost: int, freeSeats: int, allSeats: int): Route {
    Route(0, Points(startPoint, endPoint), start, cost, freeSeats, allSeats)
  }

  /**
   * FindRoute never fails: it answers exactly the routes with that
   * endpoint, which may be none.
   */
  lemma FindRouteExact(d: Db, endpoint: string)
    requires WellFormed(d)
    ensures forall x :: x in Rows(d, EndsAt(endpoint)) <==> Joined(d, x.id) == Some(x) && x.points.endPoint == endpoint
    ensures |Rows(d, EndsAt(endpoint))| == 0 <==>
      forall id :: Joined(d, id).Some? ==> Joined(d, id).value.points.endPoint != endpoint
  {
    RowsEmpty(d, EndsAt(endpoint));
    forall x ensures x in Rows(d, EndsAt(endpoint)) <==> Joined(d, x.id) == Some(x) && x.points.endPoint == endpoint {
      RowsExact(d, EndsAt(endpoint), x);
    }
  }

  /** After a successful delete, RouteByID on that id answers "no such route"; so does a second delete. */
  lemma DeleteThenFind(d: Db, id: int)
    requires WellFormed(d)
    ensures Delete(d, id).0 == None <==> id in d.routes
    ensures FindByID(Delete(d, id).1, id) == Err(NoSuchRoute)
    ensures Delete(Delete(d, id).1, id).0 == Some(NoSuchRoute)
    ensures forall k :: k != id ==> FindByID(Delete(d, id).1, k) == FindByID(d, k)
  {
  }

  /**
   * Three AddRoute calls for one pair on empty tables: GetAllData then
   * answers the three routes, in order, and the pair is stored once.
   */
  lemma ThreeAdds(r: Route)
    ensures var (id1, d1) := Insert(Empty, r);
      var (id2, d2) := Insert(d1, r);
      var (id3, d3) := Insert(d2, r);
      && Rows(d3, All) == [r.(id := id1), r.(id := id2), r.(id := id3)]
      && [id1, id2, id3] == [1, 2, 3]
      && d3.points == map[1 := r.points]
  {
    var (id1, d1) := Insert(Empty, r);
    var (id2, d2) := Insert(d1, r);
    InsertRows(Empty, r, All);
    assert Rows(Empty, All) == [];
    InsertWellFormed(Empty, r);
    InsertRows(d1, r, All);
    InsertReuses(d1, r, 1);
    InsertWellFormed(d1, r);
    InsertRows(d2, r, All);
    InsertReuses(d2, r, 1);
  }

  /** The older store: the same tables and counters. */
  class DBManager {
    var routes: map<int, RouteRow>
    var points: map<int, Points>
    var nextRouteId: int
    var nextPointsId: int

    function State(): Db
      reads this
    {
      Db(routes, points, nextRouteId, nextPointsId)
    }

    predicate Valid()
      reads this
    {
      WellFormed(State())
    }

    constructor ()
      ensures Valid() && State() == Empty
    {
      routes, points := map[], map[];
      nextRouteId, nextPointsId := 1, 1;
    }

    /** Every route, possibly none, without error. */
    method GetAllData() returns (res: Result<seq<Route>>)
      requires Valid()
      ensures res == Ok(Rows(State(), All))
      ensures forall x :: x in res.value <==> x.id in routes && Joined(State(), x.id) == Some(x)
    {
      var rows := Scan(State(), All);
      forall x ensures x in rows <==> x.id in routes && Joined(State(), x.id) == Some(x) {
        RowsExact(State(), All, x);
      }
      return Ok(rows);
    }

    method RouteByID(id: int) returns (res: Result<Route>)
      ensures res == FindByID(State(), id)
      ensures res.Ok? ==> res.value.id == id && id in routes
    {
      var row := Joined(State(), id);
      if row.None? {
        return Err(NoSuchRoute);
      }
      return Ok(row.value);
    }

    method DeleteRow(id: int) returns (err: Option<Error>)
      requires Valid()
      modifies this
      ensures Valid()
      ensures (err, State()) == Delete(old(State()), id)
    {
      if id !in routes {
        return Some(NoSuchRoute);
      }
      RemoveWellFormed(State(), id);
      routes := routes - {id};
      return None;
    }

    /** The routes with that endpoint, possibly none, without error. */
    method FindRoute(point: string) returns (res: Result<seq<Route>>)
      requires Valid()
      ensures res == Ok(Rows(State(), EndsAt(point)))
    {
      var rows := Scan(State(), EndsAt(point));
      return Ok(rows);
    }

    /** insertPoint: a new points row under the next points id. */
    method InsertPoint(p: Points) returns (pointId: int)
      modifies this
      ensures pointId == old(nextPointsId)
      ensures State() == AddPointRow(old(State()), p)
    {
      pointId := nextPointsId;
      points := points[pointId := p];
      nextPointsId := nextPointsId + 1;
    }

    /** insertRoute: a new route row under the next route id. */
    method InsertRoute(pointId: int, freeSeats: int, allSeats: int, start: int, cost: int) returns (idRoute: int)
      modifies this
      ensures idRoute == old(nextRouteId)
      ensures State() == AddRouteRow(old(State()), RouteRow(pointId, start, cost, freeSeats, allSeats))
    {
      idRoute := nextRouteId;
      routes := routes[idRoute := RouteRow(pointId, start, cost, freeSeats, allSeats)];
      nextRouteId := nextRouteId + 1;
    }

    method AddRoute(startPoint: string, endPoint: string, start: int, cost: int, freeSeats: int, allSeats: int)
      returns (res: Result<int>)
      requires Valid()
      modifies this
      ensures Valid()
      ensures var (id, d) := Insert(old(State()), NewRoute(startPoint, endPoint, start, cost, freeSeats, allSeats));
        res == Ok(id) && State() == d
    {
      InsertWellFormed(State(), NewRoute(startPoint, endPoint, start, cost, freeSeats, allSeats));
      var idRoute: int;
      var found := FindPoints(points, Points(startPoint, endPoint), nextPointsId);
      if found.None? {
        var pointId := InsertPoint(Points(startPoint, endPoint));
        idRoute := InsertRoute(pointId, freeSeats, allSeats, start, cost);
      } else {
        idRoute := InsertRoute(found.value, freeSeats, allSeats, start, cost);
      }
      return Ok(idRoute);
    }
  }
}
