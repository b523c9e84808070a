/**
 * The server's live-update channel: a fleet of six simulated vehicles, a
 * table of service alerts numbered by a counter, and the connected clients.
 * Each timer tick is a method call, each `Math.random()` result is a
 * parameter in [0, 1), and each `new Date()` is a parameter too (`now`, or one
 * reading per vehicle in `nows`). A client is
 * the socket's ready state plus the messages sent to it so far, so that the
 * invariant can say what every open client's view is.
 */
module Simulator {
  import opened Protocol
  import opened OrderedTable
  import LiveTransit

  /** Vehicles are keyed 1..6, one per route, and alerts draw a route from 1..6. */
  const RouteCount: nat := 6

  /** The chance that an alert tick raises an alert. */
  const AlertChance: real := 0.3

  /** The point the fleet starts around. */
  const CenterLatitude: real := 36.1627
  const CenterLongitude: real := -86.7816

  const AlertTypes: seq<AlertType> := [Delay, Cancellation, Detour, Notice]

  const Severities: seq<Severity> := [Low, Medium, High]

  /** The catalogue of `generateRandomAlert`. */
  const AlertTexts: seq<string> := [
    "Minor delay due to traffic congestion",
    "Route detour due to road construction",
    "Service temporarily suspended",
    "Expect delays due to special event",
    "Bus running 5-10 minutes behind schedule",
    "Weather advisory: Service operating with caution"]

  /** A value `Math.random()` can return. */
  predicate IsDraw(r: real) {
    0.0 <= r < 1.0
  }

  /** `Math.floor(r * n)`: an index into a list of `n` entries. */
  function Pick(r: real, n: nat): (k: nat)
    requires IsDraw(r) && n > 0
    ensures k < n
    ensures k as real <= r * n as real < k as real + 1.0
  {
    assert 0.0 <= r * n as real < n as real by {
      assert r * n as real <= n as real - (1.0 - r) * n as real;
    }
    (r * n as real).Floor
  }

  /** The four draws a vehicle's update uses, in the order the source draws them. */
  datatype MoveDraws = MoveDraws(latitude: real, longitude: real, heading: real, speed: real) {
    predicate Valid() {
      IsDraw(latitude) && IsDraw(longitude) && IsDraw(heading) && IsDraw(speed)
    }
  }

  /** The heading and speed every update stays within. */
  predicate Plausible(v: VehicleLocation) {
    0.0 <= v.heading < 360.0 && 20.0 <= v.speed < 30.0
  }

  /** One vehicle's step in the movement tick: a small jitter, a new heading and speed, and the time. */
  function Moved(v: VehicleLocation, d: MoveDraws, now: int): (w: VehicleLocation)
    requires d.Valid()
    ensures w.routeId == v.routeId && w.lastUpdate == now
    ensures -0.0005 <= w.latitude - v.latitude < 0.0005
    ensures -0.0005 <= w.longitude - v.longitude < 0.0005
    ensures Plausible(w)
  {
    VehicleLocation(
      v.routeId,
      v.latitude + (d.latitude - 0.5) * 0.001,
      v.longitude + (d.longitude - 0.5) * 0.001,
      d.heading * 360.0,
      20.0 + d.speed * 10.0,
      now)
  }

  /** The vehicle the init loop creates for route `i`, within 0.01 of the centre. */
  function Spawned(i: int, d: MoveDraws, now: int): (v: VehicleLocation)
    requires d.Valid()
    ensures v.routeId == i && v.lastUpdate == now
    ensures -0.01 <= v.latitude - CenterLatitude < 0.01
    ensures -0.01 <= v.longitude - CenterLongitude < 0.01
    ensures Plausible(v)
  {
    VehicleLocation(
      i,
      CenterLatitude + (d.latitude - 0.5) * 0.02,
      CenterLongitude + (d.longitude - 0.5) * 0.02,
      d.heading * 360.0,
      20.0 + d.speed * 10.0,
      now)
  }

  /** `generateRandomAlert`: one text of the catalogue. */
  function GenerateRandomAlert(r: real): (text: string)
    requires IsDraw(r)
    ensures text in AlertTexts
  {
    AlertTexts[Pick(r, |AlertTexts|)]
  }

  /** The five draws an alert tick uses, in the order the source draws them. */
  datatype AlertDraws = AlertDraws(chance: real, route: real, kind: real, severity: real, text: real) {
    predicate Valid() {
      IsDraw(chance) && IsDraw(route) && IsDraw(kind) && IsDraw(severity) && IsDraw(text)
    }
  }

  /** An alert the simulator can produce: a route in 1..6 and a text of the catalogue. */
  predicate WellFormed(a: ServiceAlert) {
    1 <= a.routeId <= RouteCount && a.message in AlertTexts
  }

  /** The alert an alert tick raises under the id `id`. */
  function NewAlert(id: int, d: AlertDraws, now: int): (a: ServiceAlert)
    requires d.Valid()
    ensures a.id == id && a.timestamp == now && WellFormed(a)
    ensures a.alertType == AlertTypes[Pick(d.kind, 4)] && a.severity == Severities[Pick(d.severity, 3)]
  {
    ServiceAlert(
      id,
      Pick(d.route, RouteCount) + 1,
      AlertTypes[Pick(d.kind, 4)],
      Severities[Pick(d.severity, 3)],
      GenerateRandomAlert(d.text),
      now)
  }

  /** `WebSocket.readyState`. */
  datatype ReadyState = Connecting | Open | Closing | Closed

  /** A state can only move forward: connecting, open, closing, closed. */
  function Rank(s: ReadyState): nat {
    match s
    case Connecting => 0
    case Open => 1
    case Closing => 2
    case Closed => 3
  }

  /** A connected socket: its ready state and every message sent on it, in order. */
  datatype Client = Client(state: ReadyState, sent: seq<Message>)

  /** What `broadcastUpdate` does to the clients: `m` is appended to exactly the open ones. */
  function Fanout(clients: seq<Client>, m: Message): (r: seq<Client>)
    ensures |r| == |clients|
    ensures forall i :: 0 <= i < |clients| ==> r[i].state == clients[i].state
    ensures forall i :: 0 <= i < |clients| ==>
      r[i].sent == if clients[i].state == Open then clients[i].sent + [m] else clients[i].sent
  {
    seq(|clients|, i requires 0 <= i < |clients| =>
      if clients[i].state == Open then clients[i].(sent := clients[i].sent + [m]) else clients[i])
  }

  /** What a client that has been sent `sent` shows, by the client's own message handler. */
  function ViewOf(sent: seq<Message>): LiveTransit.View {
    LiveTransit.Replay(LiveTransit.Initial(), sent)
  }

  /** `order` is 1, 2, ..., n: the route ids in the order the init loop sets them. */
  ghost predicate KeysOneTo(order: seq<int>, n: nat) {
    |order| == n && forall i :: 0 <= i < |order| ==> order[i] == i + 1
  }

  /** `t` holds `vs[0..n]` under the keys 1..n, in key order: what the init loop has spawned so far. */
  ghost predicate Filled<V>(t: Table<V>, n: nat, vs: seq<V>)
    requires n <= |vs|
  {
    && t.Valid()
    && KeysOneTo(t.order, n)
    && (forall k :: k in t.entries <==> 1 <= k <= n)
    && (forall k :: 1 <= k <= n ==> t.entries[k] == vs[k - 1])
  }

  /** One turn of the init loop sets the next key. */
  lemma FilledGrows<V>(t: Table<V>, n: nat, vs: seq<V>)
    requires n < |vs| && Filled(t, n, vs)
    ensures Filled(t.Set(n + 1, vs[n]), n + 1, vs)
  {
    SetKeepsValid(t, n + 1, vs[n]);
  }

  /** The vehicles the init loop spawns, one per route, route `j + 1` from `draws[j]` at the time `nows[j]`. */
  function InitialFleet(draws: seq<MoveDraws>, nows: seq<int>): (fleet: seq<VehicleLocation>)
    requires |nows| == |draws|
    requires forall i :: 0 <= i < |draws| ==> draws[i].Valid()
    ensures |fleet| == |draws|
    ensures forall j :: 0 <= j < |draws| ==> fleet[j] == Spawned(j + 1, draws[j], nows[j])
  {
    seq(|draws|, j requires 0 <= j < |draws| => Spawned(j + 1, draws[j], nows[j]))
  }

  /** Once all routes are spawned, each vehicle is keyed by its own route and is the one its draws give. */
  lemma FleetSpawned(t: Table<VehicleLocation>, draws: seq<MoveDraws>, nows: seq<int>)
    requires |draws| == RouteCount && |nows| == RouteCount
    requires forall i :: 0 <= i < |draws| ==> draws[i].Valid()
    requires Filled(t, RouteCount, InitialFleet(draws, nows))
    ensures forall k :: k in t.entries ==> t.entries[k].routeId == k
    ensures forall k :: 1 <= k <= RouteCount ==>
      k in t.entries && t.entries[k] == Spawned(k, draws[k - 1], nows[k - 1])
  {
    var fleet := InitialFleet(draws, nows);
    forall k | 1 <= k <= RouteCount
      ensures k in t.entries && t.entries[k] == Spawned(k, draws[k - 1], nows[k - 1])
    {
      assert t.entries[k] == fleet[k - 1];
    }
  }

  /** The init loop: for routes 1..6 in turn, the route's vehicle is spawned and set in a new table. */
  method SpawnFleet(draws: seq<MoveDraws>, nows: seq<int>) returns (t: Table<VehicleLocation>)
    requires |nows| == |draws|
    requires forall i :: 0 <= i < |draws| ==> draws[i].Valid()
    ensures Filled(t, |draws|, InitialFleet(draws, nows))
  {
    ghost var fleet := InitialFleet(draws, nows);
    t := Empty();
    for i := 1 to |draws| + 1
      invariant Filled(t, i - 1, fleet)
    {
      FilledGrows(t, i - 1, fleet);
      t := t.Set(i, Spawned(i, draws[i - 1], nows[i - 1]));
    }
  }

  class LiveUpdates {
    var vehicles: Table<VehicleLocation>
    var alerts: Table<ServiceAlert>
    var alertId: int
    var clients: seq<Client>

    /**
     * One vehicle per route 1..6 under its route id; every alert stored under
     * its own id, ids below the counter and increasing in insertion order; and
     * every client is past the handshake, and every open client shows
     * exactly the server's vehicles and alerts.
     */
    ghost predicate Valid()
      reads this
    {
      && vehicles.Valid() && alerts.Valid()
      && KeysOneTo(vehicles.order, RouteCount)
      && (forall k :: k in vehicles.entries ==> vehicles.entries[k].routeId == k)
      && 1 <= alertId
      && (forall k :: k in alerts.entries ==> alerts.entries[k].id == k && 1 <= k < alertId)
      && (forall k :: k in alerts.entries ==> WellFormed(alerts.entries[k]))
      && (forall i, j :: 0 <= i < j < |alerts.order| ==> alerts.order[i] < alerts.order[j])
      && (forall i :: 0 <= i < |clients| ==> clients[i].state != Connecting)
      && (forall i :: 0 <= i < |clients| && clients[i].state == Open ==> InSync(clients[i].sent))
    }

    /** A client that has been sent `sent` shows the server's current vehicles and alerts. */
    ghost predicate InSync(sent: seq<Message>)
      reads this
      requires vehicles.Valid() && alerts.Valid()
    {
      ViewOf(sent).vehicles == vehicles.Values() && ViewOf(sent).alerts == alerts.Values()
    }

    /**
     * The module's state after `setupWebSocket`: no alerts, the counter at 1,
     * no clients, and the init loop's vehicles for routes 1..6.
     */
    constructor(draws: seq<MoveDraws>, nows: seq<int>)
      requires |draws| == RouteCount && |nows| == RouteCount
      requires forall i :: 0 <= i < |draws| ==> draws[i].Valid()
      ensures Valid()
      ensures alerts == Empty() && alertId == 1 && clients == []
      ensures KeysOneTo(vehicles.order, RouteCount)
      ensures forall k :: 1 <= k <= RouteCount ==>
        k in vehicles.entries && vehicles.entries[k] == Spawned(k, draws[k - 1], nows[k - 1])
    {
      var fleet := SpawnFleet(draws, nows);
      FleetSpawned(fleet, draws, nows);
      vehicles := fleet;
      alerts := Empty();
      alertId := 1;
      clients := [];
    }

    /** `broadcastUpdate`: sends `m` once to every open client, in client order, and to no other. */
    method Broadcast(m: Message)
      modifies this`clients
      ensures clients == Fanout(old(clients), m)
    {
      var i := 0;
      while i < |clients|
        invariant 0 <= i <= |clients| == |old(clients)|
        invariant forall j :: 0 <= j < i ==> clients[j] == Fanout(old(clients), m)[j]
        invariant forall j :: i <= j < |clients| ==> clients[j] == old(clients)[j]
      {
        if clients[i].state == Open {
          clients := clients[i := clients[i].(sent := clients[i].sent + [m])];
        }
        i := i + 1;
      }
    }

    /** A new connection: the socket is open and is sent one INIT with every vehicle and every alert. */
    method Connect()
      requires Valid()
      modifies this`clients
      ensures Valid()
      ensures clients == old(clients) + [Client(Open, [Init(vehicles.Values(), alerts.Values())])]
    {
      clients := clients + [Client(Open, [Init(vehicles.Values(), alerts.Values())])];
      assert [Init(vehicles.Values(), alerts.Values())][..0] == [];
    }

    /** A socket moves on to a later ready state (it is closing or has closed). */
    method Advance(i: nat, s: ReadyState)
      requires Valid() && i < |clients| && Rank(clients[i].state) <= Rank(s)
      modifies this`clients
      ensures Valid()
      ensures clients == old(clients)[i := old(clients)[i].(state := s)]
    {
      clients := clients[i := clients[i].(state := s)];
      forall j | 0 <= j < |clients| && clients[j].state == Open
        ensures InSync(clients[j].sent)
      {
        assert old(clients)[j].state == Open && clients[j].sent == old(clients)[j].sent;
      }
    }

    /**
     * The movement timer: every vehicle, in table order, takes its step with
     * its own four draws and its own clock reading; then every open client is
     * sent all vehicles.
     */
    method MovementTick(draws: seq<MoveDraws>, nows: seq<int>)
      requires Valid()
      requires |draws| == RouteCount && |nows| == RouteCount
      requires forall i :: 0 <= i < |draws| ==> draws[i].Valid()
      modifies this`vehicles, this`clients
      ensures Valid()
      ensures vehicles.order == old(vehicles.order)
      ensures forall i :: 0 <= i < |vehicles.order| ==>
        vehicles.entries[vehicles.order[i]] == Moved(old(vehicles.entries[vehicles.order[i]]), draws[i], nows[i])
      ensures clients == Fanout(old(clients), VehicleUpdates(vehicles.Values()))
    {
      var order := vehicles.order;
      for i := 0 to |order|
        invariant vehicles.Valid() && vehicles.order == order && clients == old(clients)
        invariant forall k :: k in vehicles.entries <==> k in old(vehicles.entries)
        invariant forall j :: 0 <= j < i ==>
          vehicles.entries[order[j]] == Moved(old(vehicles.entries[order[j]]), draws[j], nows[j])
        invariant forall j :: i <= j < |order| ==> vehicles.entries[order[j]] == old(vehicles.entries[order[j]])
      {
        var k := order[i];
        SetKeepsValid(vehicles, k, Moved(vehicles.entries[k], draws[i], nows[i]));
        vehicles := vehicles.Set(k, Moved(vehicles.entries[k], draws[i], nows[i]));
      }
      Broadcast(VehicleUpdates(vehicles.Values()));
      MovementKeepsValid(old(clients), VehicleUpdates(vehicles.Values()));
    }

    /**
     * The alert timer: with a first draw below 0.3 a new alert takes the
     * counter's id, the counter moves on, the alert is stored and every open
     * client is sent it; otherwise nothing changes.
     */
    method AlertTick(d: AlertDraws, now: int)
      requires Valid() && d.Valid()
      modifies this`alerts, this`alertId, this`clients
      ensures Valid()
      ensures d.chance < AlertChance ==>
        var a := NewAlert(old(alertId), d, now);
        && alertId == old(alertId) + 1
        && alerts == old(alerts).Set(a.id, a)
        && alerts.Values() == old(alerts.Values()) + [a]
        && clients == Fanout(old(clients), AlertMessage(a))
      ensures d.chance >= AlertChance ==>
        alerts == old(alerts) && alertId == old(alertId) && clients == old(clients)
    {
      if d.chance < AlertChance {
        var alert := NewAlert(alertId, d, now);
        alertId := alertId + 1;
        SetFreshAppends(alerts, alert.id, alert);
        SetKeepsValid(alerts, alert.id, alert);
        alerts := alerts.Set(alert.id, alert);
        Broadcast(AlertMessage(alert));
        AlertKeepsValid(old(clients), alert);
      }
    }

    /** After the vehicles move, the open clients that are then sent them are in step again. */
    lemma MovementKeepsValid(before: seq<Client>, m: Message)
      requires vehicles.Valid() && alerts.Valid() && m == VehicleUpdates(vehicles.Values())
      requires forall i :: 0 <= i < |before| && before[i].state == Open ==>
        ViewOf(before[i].sent).alerts == alerts.Values()
      ensures forall i :: 0 <= i < |before| && Fanout(before, m)[i].state == Open ==>
        InSync(Fanout(before, m)[i].sent)
    {
      forall i | 0 <= i < |before| && Fanout(before, m)[i].state == Open
        ensures InSync(Fanout(before, m)[i].sent)
      {
        var sent := before[i].sent;
        assert Fanout(before, m)[i].sent == sent + [m];
        assert (sent + [m])[..|sent|] == sent;
      }
    }

    /** After a new alert is stored, the open clients that are then sent it are in step again. */
    lemma AlertKeepsValid(before: seq<Client>, a: ServiceAlert)
      requires vehicles.Valid() && alerts.Valid()
      requires forall i :: 0 <= i < |before| && before[i].state == Open ==>
        ViewOf(before[i].sent).vehicles == vehicles.Values() && ViewOf(before[i].sent).alerts + [a] == alerts.Values()
      ensures forall i :: 0 <= i < |before| && Fanout(before, AlertMessage(a))[i].state == Open ==>
        InSync(Fanout(before, AlertMessage(a))[i].sent)
    {
      forall i | 0 <= i < |before| && Fanout(before, AlertMessage(a))[i].state == Open
        ensures InSync(Fanout(before, AlertMessage(a))[i].sent)
      {
        var sent := before[i].sent;
        assert Fanout(before, AlertMessage(a))[i].sent == sent + [AlertMessage(a)];
        assert (sent + [AlertMessage(a)])[..|sent|] == sent;
      }
    }
  }
}
