/**
 * The two relational tables both store generations keep: `route` rows that
 * reference `points` rows, each table with its AUTO_INCREMENT counter.
 * Queries read the join of the two tables in ascending route id.
 */
module Tables {
  import opened Domain

  /** A row of the `route` table; `pointsId` references the `points` table. */
  datatype RouteRow = RouteRow(pointsId: int, start: int, cost: int, freeSeats: int, allSeats: int)

  /** Both tables and the next id each would hand out. */
  datatype Db = Db(routes: map<int, RouteRow>, points: map<int, Points>, nextRouteId: int, nextPointsId: int)

  /** Freshly created, empty tables. */
  const Empty := Db(map[], map[], 1, 1)

  /** No (startPoint, endPoint) pair is stored under two ids. */
  predicate UniquePairs(points: map<int, Points>) {
    forall i, j :: i in points && j in points && i != j ==> points[i] != points[j]
  }

  /** The invariant every store operation keeps. */
  predicate WellFormed(d: Db) {
    && 1 <= d.nextRouteId
    && 1 <= d.nextPointsId
    && (forall id :: id in d.routes ==> 1 <= id < d.nextRouteId && d.routes[id].pointsId in d.points)
    && (forall id :: id in d.points ==> 1 <= id < d.nextPointsId)
    && UniquePairs(d.points)
  }

  /** The route with this id as the join of its route row and points row reads it. */
  function Joined(d: Db, id: int): Option<Route> {
    if id in d.routes && d.routes[id].pointsId in d.points then
      var row := d.routes[id];
      Some(Route(id, d.points[row.pointsId], row.start, row.cost, row.freeSeats, row.allSeats))
    else
      None
  }

  /** The WHERE clauses the stores use. */
  datatype Query =
    | All
    | StartsFrom(today: int)     // r.starttime >= DATE(NOW())
    | EndsAt(endPoint: string)   // p.endpoint = ?

  predicate Matches(q: Query, r: Route) {
    match q
    case All => true
    case StartsFrom(today) => r.start >= today
    case EndsAt(e) => r.points.endPoint == e
  }

  function Pick(d: Db, q: Query, id: int): seq<Route> {
    match Joined(d, id)
    case Some(r) => if Matches(q, r) then [r] else []
    case None => []
  }

  /** The matching joined rows with ids in [lo, hi), in ascending id. */
  function Select(d: Db, q: Query, lo: int, hi: int): seq<Route>
    decreases hi - lo
  {
    if hi <= lo then [] else Select(d, q, lo, hi - 1) + Pick(d, q, hi - 1)
  }

  /** Every row a query returns. */
  function Rows(d: Db, q: Query): seq<Route> {
    Select(d, q, 1, d.nextRouteId)
  }

  lemma {:induction false} SelectMembership(d: Db, q: Query, lo: int, hi: int, x: Route)
    ensures x in Select(d, q, lo, hi) <==> lo <= x.id < hi && Joined(d, x.id) == Some(x) && Matches(q, x)
    decreases hi - lo
  {
    if lo < hi {
      SelectMembership(d, q, lo, hi - 1, x);
    }
  }

  lemma {:induction false} SelectIncreasing(d: Db, q: Query, lo: int, hi: int)
    ensures forall i, j :: 0 <= i < j < |Select(d, q, lo, hi)| ==> Select(d, q, lo, hi)[i].id < Select(d, q, lo, hi)[j].id
    decreases hi - lo
  {
    if lo < hi {
      var s := Select(d, q, lo, hi - 1);
      SelectIncreasing(d, q, lo, hi - 1);
      forall i | 0 <= i < |s|
        ensures s[i].id < hi - 1
      {
        SelectMembership(d, q, lo, hi - 1, s[i]);
      }
    }
  }

  lemma {:induction false} SelectAgree(d: Db, d': Db, q: Query, lo: int, hi: int)
    requires forall k :: lo <= k < hi ==> Joined(d, k) == Joined(d', k)
    ensures Select(d, q, lo, hi) == Select(d', q, lo, hi)
    decreases hi - lo
  {
    if lo < hi {
      SelectAgree(d, d', q, lo, hi - 1);
      assert Joined(d, hi - 1) == Joined(d', hi - 1);
    }
  }

  /** A query returns exactly the stored routes that match it. */
  lemma RowsExact(d: Db, q: Query, x: Route)
    requires WellFormed(d)
    ensures x in Rows(d, q) <==> Joined(d, x.id) == Some(x) && Matches(q, x)
  {
    SelectMembership(d, q, 1, d.nextRouteId, x);
  }

  /** Rows come in strictly ascending id, so no route appears twice. */
  lemma RowsIncreasing(d: Db, q: Query)
    ensures forall i, j :: 0 <= i < j < |Rows(d, q)| ==> Rows(d, q)[i].id < Rows(d, q)[j].id
  {
    SelectIncreasing(d, q, 1, d.nextRouteId);
  }

  /** A query answers nothing exactly when no stored route matches it. */
  lemma RowsEmpty(d: Db, q: Query)
    requires WellFormed(d)
    ensures |Rows(d, q)| == 0 <==> forall id :: Joined(d, id).Some? ==> !Matches(q, Joined(d, id).value)
  {
    if |Rows(d, q)| != 0 {
      var x := Rows(d, q)[0];
      RowsExact(d, q, x);
    } else {
      forall id | Joined(d, id).Some?
        ensures !Matches(q, Joined(d, id).value)
      {
        RowsExact(d, q, Joined(d, id).value);
      }
    }
  }

  /** The loop over the result set of a query (`for rows.Next() { … append … }`). */
  method Scan(d: Db, q: Query) returns (rows: seq<Route>)
    ensures rows == Rows(d, q)
  {
    rows := [];
    var id := 1;
    while id < d.nextRouteId
      invariant id == 1 || id <= d.nextRouteId
      invariant rows == Select(d, q, 1, id)
      decreases d.nextRouteId - id
    {
      var row := Joined(d, id);
      if row.Some? && Matches(q, row.value) {
        rows := rows + [row.value];
      }
      id := id + 1;
    }
  }

  /** The first id in [lo, hi) whose points row holds the pair `p`. */
  function FindPair(points: map<int, Points>, p: Points, lo: int, hi: int): Option<int>
    decreases hi - lo
  {
    if hi <= lo then None
    else if lo in points && points[lo] == p then Some(lo)
    else FindPair(points, p, lo + 1, hi)
  }

  lemma {:induction false} FindPairCorrect(points: map<int, Points>, p: Points, lo: int, hi: int)
    ensures FindPair(points, p, lo, hi).Some? ==>
      var k := FindPair(points, p, lo, hi).value; lo <= k < hi && k in points && points[k] == p
    ensures FindPair(points, p, lo, hi).None? ==>
      forall k :: lo <= k < hi && k in points ==> points[k] != p
    decreases hi - lo
  {
    if lo < hi {
      FindPairCorrect(points, p, lo + 1, hi);
    }
  }

  /** SELECT id_points FROM points WHERE startpoint=? AND endpoint=?, first row. */
  method FindPoints(points: map<int, Points>, p: Points, hi: int) returns (found: Option<int>)
    ensures found == FindPair(points, p, 1, hi)
  {
    var id := 1;
    while id < hi
      invariant FindPair(points, p, 1, hi) == FindPair(points, p, id, hi)
      decreases hi - id
    {
      if id in points && points[id] == p {
        return Some(id);
      }
      id := id + 1;
    }
    return None;
  }

  /** The points id AddRoute reuses, if the pair is already stored. */
  function PointsIdOf(d: Db, p: Points): Option<int> {
    FindPair(d.points, p, 1, d.nextPointsId)
  }

  /** INSERT INTO points: the new row gets `nextPointsId`. */
  function AddPointRow(d: Db, p: Points): Db {
    d.(points := d.points[d.nextPointsId := p], nextPointsId := d.nextPointsId + 1)
  }

  /** INSERT INTO route: the new row gets `nextRouteId`. */
  function AddRouteRow(d: Db, row: RouteRow): Db {
    d.(routes := d.routes[d.nextRouteId := row], nextRouteId := d.nextRouteId + 1)
  }

  /** The points row a new route references, and the tables once it exists. */
  function PointsFor(d: Db, p: Points): (int, Db) {
    match PointsIdOf(d, p)
    case Some(k) => (k, d)
    case None => (d.nextPointsId, AddPointRow(d, p))
  }

  /**
   * AddRoute's effect: reuse or insert the points row of `r`, then insert a
   * route row with `r`'s schedule, cost and seats; the id of that route row
   * comes first in the result.
   */
  function Insert(d: Db, r: Route): (int, Db) {
    var (pid, d1) := PointsFor(d, r.points);
    (d1.nextRouteId, AddRouteRow(d1, RouteRow(pid, r.start, r.cost, r.freeSeats, r.allSeats)))
  }

  /** An existing pair is reused: the points table is unchanged and the new row references that pair's id. */
  lemma InsertReuses(d: Db, r: Route, k: int)
    requires WellFormed(d)
    requires k in d.points && d.points[k] == r.points
    ensures Insert(d, r).1.points == d.points
    ensures Insert(d, r).1.routes[Insert(d, r).0].pointsId == k
  {
    FindPairCorrect(d.points, r.points, 1, d.nextPointsId);
  }

  /** A new pair adds exactly one points row, under a fresh id, which the new route references. */
  lemma InsertAddsPair(d: Db, r: Route)
    requires WellFormed(d)
    requires forall k :: k in d.points ==> d.points[k] != r.points
    ensures d.nextPointsId !in d.points
    ensures Insert(d, r).1.points == d.points[d.nextPointsId := r.points]
    ensures Insert(d, r).1.routes[Insert(d, r).0].pointsId == d.nextPointsId
  {
    FindPairCorrect(d.points, r.points, 1, d.nextPointsId);
  }

  /** Insert keeps the invariant, in particular that no pair is stored twice. */
  lemma InsertWellFormed(d: Db, r: Route)
    requires WellFormed(d)
    ensures WellFormed(Insert(d, r).1)
  {
    FindPairCorrect(d.points, r.points, 1, d.nextPointsId);
  }

  /**
   * Insert creates one route under a fresh id; joined, it reads back as `r`
   * with that id, and every other route reads as before.
   */
  lemma InsertRoundTrip(d: Db, r: Route)
    requires WellFormed(d)
    ensures Insert(d, r).0 == d.nextRouteId && Insert(d, r).0 !in d.routes
    ensures Insert(d, r).1.routes.Keys == d.routes.Keys + {Insert(d, r).0}
    ensures forall k :: k in d.routes ==> Insert(d, r).1.routes[k] == d.routes[k]
    ensures Joined(Insert(d, r).1, Insert(d, r).0) == Some(r.(id := Insert(d, r).0))
    ensures forall k :: k != Insert(d, r).0 ==> Joined(Insert(d, r).1, k) == Joined(d, k)
  {
    FindPairCorrect(d.points, r.points, 1, d.nextPointsId);
  }

  /** Every query sees the new route last, after the rows it saw before. */
  lemma InsertRows(d: Db, r: Route, q: Query)
    requires WellFormed(d)
    ensures var (id, d') := Insert(d, r);
      Rows(d', q) == Rows(d, q) + (if Matches(q, r.(id := id)) then [r.(id := id)] else [])
  {
    var (id, d') := Insert(d, r);
    InsertRoundTrip(d, r);
    SelectAgree(d, d', q, 1, id);
  }

  /** DELETE FROM route WHERE id_route=? */
  function Remove(d: Db, id: int): Db {
    d.(routes := d.routes - {id})
  }

  /** Removing a route keeps the invariant and makes only that route unreadable. */
  lemma RemoveWellFormed(d: Db, id: int)
    requires WellFormed(d)
    ensures WellFormed(Remove(d, id))
    ensures Joined(Remove(d, id), id) == None
    ensures forall k :: k != id ==> Joined(Remove(d, id), k) == Joined(d, k)
  {
  }

  /** Removing a route takes exactly that route out of every query's rows. */
  lemma RemoveEffect(d: Db, id: int, q: Query, x: Route)
    requires WellFormed(d)
    ensures x in Rows(Remove(d, id), q) <==> x in Rows(d, q) && x.id != id
  {
    RemoveWellFormed(d, id);
    RowsExact(d, q, x);
    RowsExact(Remove(d, id), q, x);
  }
}
