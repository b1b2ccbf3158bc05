/**
 * The older route manager (package controller, also named routemanager in
 * the source): the same rules as the newer one over the older store, with
 * plain-text errors.
 */
module Controller {
  import opened Domain
  import opened Tables
  import opened Schedule
  import LegacyStore

  /**
   * ChooseRoutesByDateAndPoint over the older store, end to end: the store
   * never fails, so the answer is "No such routes" exactly when no route
   * with the endpoint starts in the day, and otherwise precisely those
   * routes, in ascending id.
   */
  lemma ChooseOutcomes(d: Db, point: string, date: int)
    requires WellFormed(d)
    ensures var r := OnDay(Ok(Rows(d, EndsAt(point))), date, NoSuchRoutes);
      && (r == Err(NoSuchRoutes) <==>
           forall id :: Joined(d, id).Some? && Joined(d, id).value.points.endPoint == point ==>
             !InWindow(Joined(d, id).value.start, date))
      && (r.Err? ==> r.error == NoSuchRoutes)
      && (r.Ok? ==> forall x :: x in r.value <==>
           Joined(d, x.id) == Some(x) && x.points.endPoint == point && InWindow(x.start, date))
      && (r.Ok? ==> forall i, j :: 0 <= i < j < |r.value| ==> r.value[i].id < r.value[j].id)
  {
    var found := Rows(d, EndsAt(point));
    OnDayOutcomes(Ok(found), date, NoSuchRoutes);
    LegacyStore.FindRouteExact(d, point);
    forall x ensures x in Window(found, date) <==> x in found && InWindow(x.start, date) {
      WindowMembership(found, date, x);
    }
    if |Window(found, date)| != 0 {
      assert Window(found, date)[0] in Window(found, date);
      RowsIncreasing(d, EndsAt(point));
      WindowIncreasing(found, date);
    }
  }

  /** The older route manager over its storage. */
  class RouteManager {
    const work: LegacyStore.DBManager

    constructor (work: LegacyStore.DBManager)
      ensures this.work == work
    {
      this.work := work;
    }

    method GetAllRoutes() returns (res: Result<seq<Route>>)
      requires work.Valid()
      ensures res == Ok(Rows(work.State(), All))
    {
      res := work.GetAllData();
    }

    method GetRouteByID(id: int) returns (res: Result<Route>)
      ensures res == LegacyStore.FindByID(work.State(), id)
    {
      res := work.RouteByID(id);
    }

    /**
     * A route starting before `now` is refused with "Date is invalid" and
     * nothing is stored; otherwise it is added and the assigned id is
     * written back into the caller's route.
     */
    method CreateNewRoute(route: RouteRef, now: int) returns (err: Option<Error>)
      requires work.Valid()
      modifies work, route
      ensures work.Valid()
      ensures old(route.val).start < now ==>
        err == Some(DateIsInvalid) && route.val == old(route.val) && work.State() == old(work.State())
      ensures now <= old(route.val).start ==>
        var r := old(route.val);
        var (id, d) := Insert(old(work.State()),
          LegacyStore.NewRoute(r.points.startPoint, r.points.endPoint, r.start, r.cost, r.freeSeats, r.allSeats));
        err == None && route.val == r.(id := id) && work.State() == d
    {
      if route.val.start < now {
        return Some(DateIsInvalid);
      }
      var r := route.val;
      var added := work.AddRoute(r.points.startPoint, r.points.endPoint, r.start, r.cost, r.freeSeats, r.allSeats);
      var (e, withId) := AssignId(r, added);
      route.val := withId;
      err := e;
    }

    method DeleteRouteByID(id: int) returns (err: Option<Error>)
      requires work.Valid()
      modifies work
      ensures work.Valid()
      ensures (err, work.State()) == LegacyStore.Delete(old(work.State()), id)
    {
      err := work.DeleteRow(id);
    }

    /** FindRoute errors pass through; an empty day is "No such routes"; otherwise the routes of that day. */
    method ChooseRoutesByDateAndPoint(date: int, point: string) returns (res: Result<seq<Route>>)
      requires work.Valid()
      ensures res == OnDay(Ok(Rows(work.State(), EndsAt(point))), date, NoSuchRoutes)
    {
      var routes := work.FindRoute(point);
      res := NarrowToDay(routes, date, NoSuchRoutes);
    }
  }
}
