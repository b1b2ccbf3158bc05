/**
 * The newer route manager (package routemanager): validates new routes,
 * narrows endpoint searches to one day, and hands every other request to
 * the route store.
 */
module Booking {
  import opened Domain
  import opened Tables
  import opened Schedule
  import Store

  /**
   * SearchRoutes over the store, end to end: ErrNoRoutesByEndPoint exactly
   * when no route has the endpoint, ErrNoRoutes exactly when some do but
   * none starts in the day, and otherwise precisely the routes with the
   * endpoint that start in [date, date + 24h), in ascending id.
   */
  lemma SearchOutcomes(d: Db, endpoint: string, date: int)
    requires WellFormed(d)
    ensures var r := OnDay(Store.EndPointData(d, endpoint), date, ErrNoRoutes);
      && (r == Err(ErrNoRoutesByEndPoint) <==>
           forall id :: Joined(d, id).Some? ==> Joined(d, id).value.points.endPoint != endpoint)
      && (r == Err(ErrNoRoutes) <==>
           && (exists id :: Joined(d, id).Some? && Joined(d, id).value.points.endPoint == endpoint)
           && (forall id :: Joined(d, id).Some? && Joined(d, id).value.points.endPoint == endpoint ==>
                 !InWindow(Joined(d, id).value.start, date)))
      && (r.Ok? ==>
           && (forall x :: x in r.value <==>
                 Joined(d, x.id) == Some(x) && x.points.endPoint == endpoint && InWindow(x.start, date))
           && (forall i, j :: 0 <= i < j < |r.value| ==> r.value[i].id < r.value[j].id))
      && (r.Ok? || r == Err(ErrNoRoutesByEndPoint) || r == Err(ErrNoRoutes))
  {
    var found := Store.EndPointData(d, endpoint);
    var r := OnDay(found, date, ErrNoRoutes);
    Store.EndPointDataExact(d, endpoint);
    OnDayOutcomes(found, date, ErrNoRoutes);
    if found.Ok? {
      var w := Window(found.value, date);
      if r == Err(ErrNoRoutes) {
        var x := found.value[0];
        assert Joined(d, x.id).Some?;
        forall id | Joined(d, id).Some? && Joined(d, id).value.points.endPoint == endpoint
          ensures !InWindow(Joined(d, id).value.start, date)
        {
          WindowMembership(found.value, date, Joined(d, id).value);
        }
      } else {
        var x := w[0];
        WindowMembership(found.value, date, x);
        assert Joined(d, x.id).Some? && Joined(d, x.id).value.points.endPoint == endpoint;
        RowsIncreasing(d, EndsAt(endpoint));
        WindowIncreasing(found.value, date);
      }
    }
  }

  /** The route manager over its storage. */
  class RouteManager {
    const storage: Store.DBManager

    constructor (storage: Store.DBManager)
      ensures this.storage == storage
    {
      this.storage := storage;
    }

    method GetRoutes() returns (res: Result<seq<Route>>)
      requires storage.Valid()
      ensures res == Store.Data(storage.State(), All)
    {
      res := storage.GetAllData();
    }

    method GetRouteByID(id: int) returns (res: Result<Route>)
      ensures res == Store.FindByID(storage.State(), id)
    {
      res := storage.RouteByID(id);
    }

    /**
     * A route starting before `now` is refused with ErrInvalidDate and
     * nothing is stored; one starting at `now` or later is added, and the
     * id the store assigned is written back into the caller's route.
     */
    method CreateRoute(route: RouteRef, now: int) returns (err: Option<Error>)
      requires storage.Valid()
      modifies storage, route
      ensures storage.Valid()
      ensures old(route.val).start < now ==>
        err == Some(ErrInvalidDate) && route.val == old(route.val) && storage.State() == old(storage.State())
      ensures now <= old(route.val).start ==>
        var (id, d) := Insert(old(storage.State()), old(route.val));
        err == None && route.val == old(route.val).(id := id) && storage.State() == d
    {
      if route.val.start < now {
        return Some(ErrInvalidDate);
      }
      var added := storage.AddRoute(route.val);
      var (e, r) := AssignId(route.val, added);
      route.val := r;
      err := e;
    }

    method DeleteRoute(id: int) returns (err: Option<Error>)
      requires storage.Valid()
      modifies storage
      ensures storage.Valid()
      ensures (err, storage.State()) == Store.Delete(old(storage.State()), id)
    {
      err := storage.DeleteRow(id);
    }

    /** Storage errors pass through; an empty day is ErrNoRoutes; otherwise the routes of that day. */
    method SearchRoutes(date: int, endpoint: string) returns (res: Result<seq<Route>>)
      requires storage.Valid()
      ensures res == OnDay(Store.EndPointData(storage.State(), endpoint), date, ErrNoRoutes)
    {
      var routes := storage.RoutesByEndPoint(endpoint);
      res := NarrowToDay(routes, date, ErrNoRoutes);
    }

    method BuyTicket(id: int) returns (res: Result<Ticket>)
      requires storage.Valid()
      modifies storage
      ensures storage.Valid()
      ensures (res, storage.State()) == Store.Take(old(storage.State()), id)
    {
      res := storage.TakePlace(id);
    }
  }
}
