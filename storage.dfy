/**
 * The in-memory entity store: stop and route tables keyed by ids drawn from
 * two counters, seeded once with sample data, and three read-only queries.
 */
module Storage {
  import opened Schema
  import opened OrderedTable
  import Seqs
  import Text

  const MinuteMs: int := 60000

  /** The sample stops, in seeding order. */
  function MockStops(): seq<InsertStop> {
    [ InsertStop("Downtown Transit Center", 36.166340, -86.781620),
      InsertStop("TSU Campus", 36.176590, -86.828560),
      InsertStop("Vanderbilt Medical Center", 36.144570, -86.802864),
      InsertStop("East Nashville", 36.177770, -86.751390) ]
  }

  /** The two `Date.now()` readings seeding takes, one per sample route, in milliseconds. */
  datatype SeedTimes = SeedTimes(route1: int, route2: int)

  /** The sample routes, whose ends are the first three seeded stops. */
  function MockRoutes(seeded: seq<Stop>, now: SeedTimes): seq<InsertRoute>
    requires |seeded| >= 3
  {
    [ InsertRoute("Route 1", "Downtown to TSU Express", seeded[0].id, seeded[1].id, 20, now.route1 + 15 * MinuteMs),
      InsertRoute("Route 2", "Medical Center Shuttle", seeded[0].id, seeded[2].id, 15, now.route2 + 5 * MinuteMs) ]
  }

  /** The stop table a fresh store holds, written out. */
  function SeedStops(): Table<Stop> {
    Table([1, 2, 3, 4], map[
      1 := Stop(1, "Downtown Transit Center", 36.166340, -86.781620),
      2 := Stop(2, "TSU Campus", 36.176590, -86.828560),
      3 := Stop(3, "Vanderbilt Medical Center", 36.144570, -86.802864),
      4 := Stop(4, "East Nashville", 36.177770, -86.751390)])
  }

  /** The route table a fresh store holds, written out. */
  function SeedRoutes(now: SeedTimes): Table<Route> {
    Table([1, 2], map[
      1 := Route(1, "Route 1", "Downtown to TSU Express", 1, 2, 20, now.route1 + 15 * MinuteMs),
      2 := Route(2, "Route 2", "Medical Center Shuttle", 1, 3, 15, now.route2 + 5 * MinuteMs)])
  }

  /** The filter of `getRoutesByStop`: the route starts or ends at the stop. */
  predicate Touches(r: Route, stopId: int) {
    r.startStopId == stopId || r.endStopId == stopId
  }

  /** The filter of `findRoutesBetweenStops`: the route runs from `from` to `to`, in that direction. */
  predicate Connects(r: Route, from: int, to: int) {
    r.startStopId == from && r.endStopId == to
  }

  /** The filter of `searchStops`: the lower-cased name contains the lower-cased query. */
  predicate NameMatches(s: Stop, query: string) {
    Text.Includes(Text.Lower(s.name), Text.Lower(query))
  }

  function TouchesStop(stopId: int): Route -> bool {
    r => Touches(r, stopId)
  }

  function ConnectsStops(from: int, to: int): Route -> bool {
    r => Connects(r, from, to)
  }

  function MatchesQuery(query: string): Stop -> bool {
    s => NameMatches(s, query)
  }

  /** `{ ...stop, id }`, as a function value. */
  function StopWithId(s: InsertStop, id: int): (r: Stop)
    ensures r.id == id && r.name == s.name
  {
    s.WithId(id)
  }

  /** `{ ...route, id }`, as a function value. */
  function RouteWithId(x: InsertRoute, id: int): (r: Route)
    ensures r.id == id && r.startStopId == x.startStopId && r.endStopId == x.endStopId
  {
    x.WithId(id)
  }

  /** The records `items` become when numbered from `first` on, as `mockStops.map` returns them. */
  function Numbered<I, V>(items: seq<I>, first: int, withId: (I, int) -> V): (r: seq<V>)
    ensures |r| == |items|
    ensures forall i :: 0 <= i < |items| ==> r[i] == withId(items[i], first + i)
  {
    seq(|items|, i requires 0 <= i < |items| => withId(items[i], first + i))
  }

  /** Numbering one more item appends that item with the next id. */
  lemma NumberedSnoc<I, V>(items: seq<I>, i: nat, first: int, withId: (I, int) -> V)
    requires i < |items|
    ensures Numbered(items[..i + 1], first, withId) == Numbered(items[..i], first, withId) + [withId(items[i], first + i)]
  {
  }

  /** The table after storing the first `n` of `items` one by one under the ids `next`, `next + 1`, .... */
  function Stored<I, V>(t: Table<V>, next: int, items: seq<I>, n: nat, withId: (I, int) -> V): Table<V>
    requires n <= |items|
  {
    if n == 0 then t
    else Stored(t, next, items, n - 1, withId).Set(next + n - 1, withId(items[n - 1], next + n - 1))
  }

  /** Storing adds the new ids, puts the `i`-th item under `next + i`, and keeps the other entries. */
  lemma {:induction false} StoredEntries<I, V>(t: Table<V>, next: int, items: seq<I>, n: nat, withId: (I, int) -> V)
    requires n <= |items|
    ensures var r := Stored(t, next, items, n, withId);
      && (forall k :: k in r.entries <==> k in t.entries || next <= k < next + n)
      && (forall i :: 0 <= i < n ==> r.entries[next + i] == withId(items[i], next + i))
      && (forall k :: k in t.entries && !(next <= k < next + n) ==> r.entries[k] == t.entries[k])
  {
    if n != 0 {
      StoredEntries(t, next, items, n - 1, withId);
      var prev := Stored(t, next, items, n - 1, withId);
      assert Stored(t, next, items, n, withId).entries
          == prev.entries[next + n - 1 := withId(items[n - 1], next + n - 1)];
    }
  }

  /** When every old key is below `next`, the new ids go to the end of the order, in order. */
  lemma {:induction false} StoredAppends<I, V>(t: Table<V>, next: int, items: seq<I>, n: nat, withId: (I, int) -> V)
    requires n <= |items|
    requires forall k :: k in t.entries ==> k < next
    ensures Stored(t, next, items, n, withId).order == t.order + Seqs.Range(next, next + n)
  {
    if n != 0 {
      var prev := Stored(t, next, items, n - 1, withId);
      StoredEntries(t, next, items, n - 1, withId);
      assert next + n - 1 !in prev.entries;
      assert Stored(t, next, items, n, withId).order == prev.order + [next + n - 1];
      StoredAppends(t, next, items, n - 1, withId);
      Seqs.RangeSnoc(next, next + n - 1);
      assert t.order + Seqs.Range(next, next + n - 1) + [next + n - 1] == t.order + Seqs.Range(next, next + n);
    }
  }

  /** Storing keeps a table consistent. */
  lemma {:induction false} StoredKeepsValid<I, V>(t: Table<V>, next: int, items: seq<I>, n: nat, withId: (I, int) -> V)
    requires n <= |items|
    requires t.Valid()
    ensures Stored(t, next, items, n, withId).Valid()
  {
    if n != 0 {
      StoredKeepsValid(t, next, items, n - 1, withId);
      SetKeepsValid(Stored(t, next, items, n - 1, withId), next + n - 1, withId(items[n - 1], next + n - 1));
    }
  }

  /**
   * The store's invariant: each record is stored under its own id, every id
   * was handed out by its counter (so the counter's next value is fresh),
   * and both ends of every route are stored stops.
   */
  ghost predicate Consistent(stops: Table<Stop>, routes: Table<Route>, nextStopId: int, nextRouteId: int) {
    && stops.Valid() && routes.Valid()
    && 1 <= nextStopId && 1 <= nextRouteId
    && (forall k :: k in stops.entries ==> stops.entries[k].id == k && 1 <= k < nextStopId)
    && (forall k :: k in routes.entries ==> routes.entries[k].id == k && 1 <= k < nextRouteId)
    && (forall k :: k in routes.entries ==>
          routes.entries[k].startStopId in stops.entries && routes.entries[k].endStopId in stops.entries)
  }

  class MemStorage {
    var stops: Table<Stop>
    var routes: Table<Route>
    var currentStopId: int
    var currentRouteId: int

    ghost predicate Valid()
      reads this
    {
      Consistent(stops, routes, currentStopId, currentRouteId)
    }

    /** `new MemStorage()`, with the two `Date.now()` readings passed in as `now`. */
    constructor(now: SeedTimes)
      ensures Valid()
      ensures stops == SeedStops() && routes == SeedRoutes(now)
      ensures currentStopId == 5 && currentRouteId == 3
    {
      stops := Empty();
      routes := Empty();
      currentStopId := 1;
      currentRouteId := 1;
      new;
      InitializeMockData(now);
      SeedingGivesSeedStops(MockStops());
      SeedingGivesSeedRoutes(MockRoutes(Numbered(MockStops(), 1, StopWithId), now), now);
      SeedIsConsistent(now);
    }

    /** The `mockStops.map` callback: takes the next stop id and stores the stop under it. */
    method AddStop(stop: InsertStop) returns (newStop: Stop)
      modifies this`stops, this`currentStopId
      ensures newStop == stop.WithId(old(currentStopId))
      ensures currentStopId == old(currentStopId) + 1
      ensures stops == old(stops).Set(newStop.id, newStop)
    {
      var id := currentStopId;
      currentStopId := currentStopId + 1;
      newStop := stop.WithId(id);
      stops := stops.Set(id, newStop);
    }

    /** The `mockRoutes.forEach` callback: takes the next route id and stores the route under it. */
    method AddRoute(route: InsertRoute)
      modifies this`routes, this`currentRouteId
      ensures currentRouteId == old(currentRouteId) + 1
      ensures routes == old(routes).Set(old(currentRouteId), route.WithId(old(currentRouteId)))
    {
      var id := currentRouteId;
      currentRouteId := currentRouteId + 1;
      routes := routes.Set(id, route.WithId(id));
    }

    /** `mockStops.map(...)`: stores each stop under the next stop id, in order, and returns them with their ids. */
    method StoreStops(mock: seq<InsertStop>) returns (created: seq<Stop>)
      modifies this`stops, this`currentStopId
      ensures currentStopId == old(currentStopId) + |mock|
      ensures stops == Stored(old(stops), old(currentStopId), mock, |mock|, StopWithId)
      ensures created == Numbered(mock, old(currentStopId), StopWithId)
    {
      created := [];
      ghost var start, before := currentStopId, stops;
      for i := 0 to |mock|
        invariant currentStopId == start + i
        invariant stops == Stored(before, start, mock, i, StopWithId)
        invariant created == Numbered(mock[..i], start, StopWithId)
      {
        var newStop := AddStop(mock[i]);
        NumberedSnoc(mock, i, start, StopWithId);
        created := created + [newStop];
      }
      assert mock[..|mock|] == mock;
    }

    /** `mockRoutes.forEach(...)`: stores each route under the next route id, in order. */
    method StoreRoutes(mock: seq<InsertRoute>)
      modifies this`routes, this`currentRouteId
      ensures currentRouteId == old(currentRouteId) + |mock|
      ensures routes == Stored(old(routes), old(currentRouteId), mock, |mock|, RouteWithId)
    {
      for i := 0 to |mock|
        invariant currentRouteId == old(currentRouteId) + i
        invariant routes == Stored(old(routes), old(currentRouteId), mock, i, RouteWithId)
      {
        AddRoute(mock[i]);
      }
    }

    /**
     * Stores the sample stops under the next four stop ids, in order, then the
     * sample routes under the next two route ids; the routes refer to the ids
     * just given to the first three stops.
     */
    method InitializeMockData(now: SeedTimes)
      modifies this
      ensures currentStopId == old(currentStopId) + 4 && currentRouteId == old(currentRouteId) + 2
      ensures stops == Stored(old(stops), old(currentStopId), MockStops(), 4, StopWithId)
      ensures routes == Stored(old(routes), old(currentRouteId),
        MockRoutes(Numbered(MockStops(), old(currentStopId), StopWithId), now), 2, RouteWithId)
    {
      var seeded := StoreStops(MockStops());
      StoreRoutes(MockRoutes(seeded, now));
    }

    /** Both ends of every stored route are stored stops. */
    lemma RouteEndsAreStops()
      requires Valid()
      ensures forall x :: x in GetRoutes() ==> x.startStopId in stops.entries && x.endStopId in stops.entries
    {
      forall x | x in GetRoutes()
        ensures x.startStopId in stops.entries && x.endStopId in stops.entries
      {
        var i :| 0 <= i < |GetRoutes()| && GetRoutes()[i] == x;
        var k := routes.order[i];
        assert k in routes.entries && routes.entries[k] == x;
      }
    }

    /** `getStops`: every stored stop, once each, in insertion order. */
    function GetStops(): (r: seq<Stop>)
      reads this
      requires Valid()
      ensures |r| == |stops.order|
      ensures forall i :: 0 <= i < |r| ==> r[i] == stops.entries[stops.order[i]]
    {
      stops.Values()
    }

    /** `getRoutes`: every stored route, once each, in insertion order. */
    function GetRoutes(): (r: seq<Route>)
      reads this
      requires Valid()
      ensures |r| == |routes.order|
      ensures forall i :: 0 <= i < |r| ==> r[i] == routes.entries[routes.order[i]]
    {
      routes.Values()
    }

    /** `getRoutesByStop`: the routes that start or end at `stopId`, in insertion order. */
    function GetRoutesByStop(stopId: int): (r: seq<Route>)
      reads this
      requires Valid()
      ensures forall x :: x in r <==> x in GetRoutes() && Touches(x, stopId)
      ensures Seqs.IsSubsequence(r, GetRoutes())
      ensures stopId !in stops.entries ==> r == []
    {
      RouteEndsAreStops();
      var r := Seqs.Filter(GetRoutes(), TouchesStop(stopId));
      assert r != [] ==> r[0] in r;
      r
    }

    /** `findRoutesBetweenStops`: the routes from `startStopId` to `endStopId`, in insertion order. */
    function FindRoutesBetweenStops(startStopId: int, endStopId: int): (r: seq<Route>)
      reads this
      requires Valid()
      ensures forall x :: x in r <==> x in GetRoutes() && Connects(x, startStopId, endStopId)
      ensures Seqs.IsSubsequence(r, GetRoutes())
    {
      Seqs.Filter(GetRoutes(), ConnectsStops(startStopId, endStopId))
    }

    /** `searchStops`: the stops whose name contains `query`, ignoring case, in insertion order. */
    function SearchStops(query: string): (r: seq<Stop>)
      reads this
      requires Valid()
      ensures forall s :: s in r <==> s in GetStops() && NameMatches(s, query)
      ensures Seqs.IsSubsequence(r, GetStops())
    {
      Seqs.Filter(GetStops(), MatchesQuery(query))
    }

    /** No stop is listed twice: ids are distinct, and each record carries its key. */
    lemma StopsDistinct()
      requires Valid()
      ensures Seqs.Distinct(GetStops())
    {
      var r := GetStops();
      forall i, j | 0 <= i < j < |r|
        ensures r[i] != r[j]
      {
        assert stops.order[i] != stops.order[j];
        assert r[i].id == stops.order[i] && r[j].id == stops.order[j];
      }
    }

    /** No route is listed twice. */
    lemma RoutesDistinct()
      requires Valid()
      ensures Seqs.Distinct(GetRoutes())
    {
      var r := GetRoutes();
      forall i, j | 0 <= i < j < |r|
        ensures r[i] != r[j]
      {
        assert routes.order[i] != routes.order[j];
        assert r[i].id == routes.order[i] && r[j].id == routes.order[j];
      }
    }

    /**
     * `getRoutesByStop` is exactly "the touching routes in insertion order":
     * any sub-sequence of the routes holding exactly the routes that start or
     * end at `stopId` is its result.
     */
    lemma ByStopIsUnique(stopId: int, r: seq<Route>)
      requires Valid()
      requires Seqs.IsSubsequence(r, GetRoutes())
      requires forall x :: x in r <==> x in GetRoutes() && Touches(x, stopId)
      ensures r == GetRoutesByStop(stopId)
    {
      RoutesDistinct();
      Seqs.FilterUnique(GetRoutes(), TouchesStop(stopId), r);
    }

    /** Likewise, `findRoutesBetweenStops` is exactly "the routes from start to end, in insertion order". */
    lemma BetweenIsUnique(startStopId: int, endStopId: int, r: seq<Route>)
      requires Valid()
      requires Seqs.IsSubsequence(r, GetRoutes())
      requires forall x :: x in r <==> x in GetRoutes() && Connects(x, startStopId, endStopId)
      ensures r == FindRoutesBetweenStops(startStopId, endStopId)
    {
      RoutesDistinct();
      Seqs.FilterUnique(GetRoutes(), ConnectsStops(startStopId, endStopId), r);
    }

    /** Likewise, `searchStops` is exactly "the matching stops, in insertion order". */
    lemma SearchIsUnique(query: string, r: seq<Stop>)
      requires Valid()
      requires Seqs.IsSubsequence(r, GetStops())
      requires forall x :: x in r <==> x in GetStops() && NameMatches(x, query)
      ensures r == SearchStops(query)
    {
      StopsDistinct();
      Seqs.FilterUnique(GetStops(), MatchesQuery(query), r);
    }

    /** The routes between two stops are a sub-sequence of the routes touching the first. */
    lemma BetweenWithinByStop(startStopId: int, endStopId: int)
      requires Valid()
      ensures Seqs.IsSubsequence(FindRoutesBetweenStops(startStopId, endStopId), GetRoutesByStop(startStopId))
    {
      Seqs.FilterMonotone(GetRoutes(), ConnectsStops(startStopId, endStopId), TouchesStop(startStopId));
    }

    /** The routes between two stops also touch the second stop. */
    lemma BetweenWithinByEndStop(startStopId: int, endStopId: int)
      requires Valid()
      ensures Seqs.IsSubsequence(FindRoutesBetweenStops(startStopId, endStopId), GetRoutesByStop(endStopId))
    {
      Seqs.FilterMonotone(GetRoutes(), ConnectsStops(startStopId, endStopId), TouchesStop(endStopId));
    }

    /**
     * On the seed data the route queries are directional: route 1 runs from
     * stop 1 to stop 2, so (1, 2) finds it and (2, 1) finds nothing; stop 1
     * is on both routes and stop 4 on none.
     */
    lemma SeedRouteQueries(now: SeedTimes)
      requires Valid() && routes == SeedRoutes(now)
      ensures FindRoutesBetweenStops(1, 2) == [routes.entries[1]]
      ensures FindRoutesBetweenStops(2, 1) == []
      ensures GetRoutesByStop(1) == [routes.entries[1], routes.entries[2]]
      ensures GetRoutesByStop(4) == []
    {
      var r1, r2 := routes.entries[1], routes.entries[2];
      var all := GetRoutes();
      assert all == [r1, r2];
      assert Seqs.IsSubsequence([r1], all) by {
        assert all[1..] == [r2];
      }
      BetweenIsUnique(1, 2, [r1]);
      BetweenIsUnique(2, 1, []);
      assert Seqs.IsSubsequence(all, all) by {
        assert all[1..] == [r2];
        assert all[1..][1..] == [];
      }
      ByStopIsUnique(1, all);
      ByStopIsUnique(4, []);
    }

    /** `searchStops` lower-cases the query first, so a query and its lower-cased form find the same stops. */
    lemma SearchIgnoresQueryCase(query: string)
      requires Valid()
      ensures SearchStops(Text.Lower(query)) == SearchStops(query)
    {
      Text.LowerIdempotent(query);
      SearchIsUnique(Text.Lower(query), SearchStops(query));
    }

    /** The empty query matches every stop: `searchStops("")` is `getStops()`. */
    lemma EmptyQueryFindsAll()
      requires Valid()
      ensures SearchStops("") == GetStops()
    {
      forall i | 0 <= i < |GetStops()|
        ensures MatchesQuery("")(GetStops()[i])
      {
        assert Text.OccursAt(Text.Lower(GetStops()[i].name), Text.Lower(""), 0);
      }
      Seqs.FilterAll(GetStops(), MatchesQuery(""));
    }
  }

  /** Storing the four sample stops into an empty table from id 1 on gives the seed stop table. */
  lemma SeedingGivesSeedStops(mock: seq<InsertStop>)
    requires mock == MockStops()
    ensures Stored(Empty(), 1, mock, 4, StopWithId) == SeedStops()
  {
    SeedStopOrder(mock);
    SeedStopEntries(mock);
  }

  lemma SeedStopOrder(mock: seq<InsertStop>)
    requires |mock| == 4
    ensures Stored(Empty(), 1, mock, 4, StopWithId).order == [1, 2, 3, 4]
  {
    StoredAppends(Empty(), 1, mock, 4, StopWithId);
    assert Seqs.Range(1, 5) == [1, 2, 3, 4];
  }

  lemma SeedStopEntries(mock: seq<InsertStop>)
    requires mock == MockStops()
    ensures Stored(Empty(), 1, mock, 4, StopWithId).entries == SeedStops().entries
  {
    var st := Stored(Empty(), 1, mock, 4, StopWithId);
    var seed := SeedStops();
    assert st.entries.Keys == seed.entries.Keys by {
      StoredEntries(Empty(), 1, mock, 4, StopWithId);
      assert forall k :: k in st.entries <==> 1 <= k < 5;
    }
    forall k | k in seed.entries
      ensures st.entries[k] == seed.entries[k]
    {
      StoredFromEmpty(mock, 4, StopWithId, k);
      assert StopWithId(mock[k - 1], k) == seed.entries[k];
    }
  }

  /** Storing into an empty table from id 1 on puts the `k`-th item under `k`. */
  lemma StoredFromEmpty<I, V>(items: seq<I>, n: nat, withId: (I, int) -> V, k: int)
    requires n <= |items| && 1 <= k <= n
    ensures k in Stored(Empty(), 1, items, n, withId).entries
    ensures Stored(Empty(), 1, items, n, withId).entries[k] == withId(items[k - 1], k)
  {
    StoredEntries(Empty(), 1, items, n, withId);
    assert Stored(Empty(), 1, items, n, withId).entries[1 + (k - 1)] == withId(items[k - 1], 1 + (k - 1));
  }

  /** Storing the two sample routes, built on stops numbered from 1, into an empty table from id 1 on gives the seed route table. */
  lemma SeedingGivesSeedRoutes(mock: seq<InsertRoute>, now: SeedTimes)
    requires mock == MockRoutes(Numbered(MockStops(), 1, StopWithId), now)
    ensures Stored(Empty(), 1, mock, 2, RouteWithId) == SeedRoutes(now)
  {
    var rt := Stored(Empty(), 1, mock, 2, RouteWithId);
    var seed := SeedRoutes(now);
    assert rt.order == seed.order by {
      StoredAppends(Empty(), 1, mock, 2, RouteWithId);
      assert Seqs.Range(1, 3) == [1, 2];
    }
    assert rt.entries.Keys == seed.entries.Keys by {
      StoredEntries(Empty(), 1, mock, 2, RouteWithId);
      assert forall k :: k in rt.entries <==> 1 <= k < 3;
    }
    forall k | k in seed.entries
      ensures rt.entries[k] == seed.entries[k]
    {
      StoredFromEmpty(mock, 2, RouteWithId, k);
    }
    assert rt.entries == seed.entries;
  }

  /**
   * The seeded store is consistent with counters at 5 and 3: stop ids are
   * 1..4, route ids are 1..2, and route 1 (1 to 2) and route 2 (1 to 3) end
   * at stored stops.
   */
  lemma SeedIsConsistent(now: SeedTimes)
    ensures Consistent(SeedStops(), SeedRoutes(now), 5, 3)
  {
    SeedStopsValid();
    SeedRoutesValid(now);
  }

  lemma SeedStopsValid()
    ensures SeedStops().Valid()
  {
    var st := SeedStops();
    assert forall k :: k in st.entries <==> k in st.order;
  }

  lemma SeedRoutesValid(now: SeedTimes)
    ensures SeedRoutes(now).Valid()
  {
    var rt := SeedRoutes(now);
    assert forall k :: k in rt.entries <==> k in rt.order;
  }
}
