/**
 * The client's live-state hook: three state cells (`vehicles`, `alerts`,
 * `connected`) that the socket's open, message and close handlers overwrite.
 * `Receive` is the message handler as a function on the state; the class is
 * the hook, whose handlers are proved to follow it.
 */
module LiveTransit {
  import opened Protocol

  /** The hook's three state cells. */
  datatype View = View(vehicles: seq<VehicleLocation>, alerts: seq<ServiceAlert>, connected: bool)

  /** The state before any event: nothing known, not connected. */
  function Initial(): (v: View)
    ensures v.vehicles == [] && v.alerts == [] && !v.connected
  {
    View([], [], false)
  }

  /**
   * `ws.onmessage`: INIT replaces both lists, VEHICLE_UPDATES replaces the
   * vehicles, SERVICE_ALERT appends one alert, any other type changes nothing.
   * No message touches `connected`.
   */
  function Receive(v: View, m: Message): (w: View)
    ensures w.connected == v.connected
    ensures m.Unrecognised? ==> w == v
    ensures m.Init? ==> w.vehicles == m.vehicles && w.alerts == m.alerts
    ensures m.VehicleUpdates? ==> w.vehicles == m.updates && w.alerts == v.alerts
    ensures m.AlertMessage? ==> w.vehicles == v.vehicles && w.alerts == v.alerts + [m.alert]
  {
    match m
    case Init(vs, xs) => v.(vehicles := vs, alerts := xs)
    case VehicleUpdates(vs) => v.(vehicles := vs)
    case AlertMessage(a) => v.(alerts := v.alerts + [a])
    case Unrecognised(_) => v
  }

  /** The state after handling the messages `ms` in order, starting from `v`. */
  function Replay(v: View, ms: seq<Message>): (w: View)
    ensures w.connected == v.connected
  {
    if ms == [] then v else Receive(Replay(v, ms[..|ms| - 1]), ms[|ms| - 1])
  }

  /** Handling `ms` then `ns` is handling `ms + ns`. */
  lemma {:induction false} ReplayAppend(v: View, ms: seq<Message>, ns: seq<Message>)
    ensures Replay(v, ms + ns) == Replay(Replay(v, ms), ns)
    decreases |ns|
  {
    if ns != [] {
      var last := |ns| - 1;
      var all := ms + ns;
      assert all != [] && all[..|all| - 1] == ms + ns[..last] && all[|all| - 1] == ns[last];
      calc {
        Replay(v, all);
        Receive(Replay(v, ms + ns[..last]), ns[last]);
        { ReplayAppend(v, ms, ns[..last]); }
        Receive(Replay(Replay(v, ms), ns[..last]), ns[last]);
        Replay(Replay(v, ms), ns);
      }
    } else {
      assert ms + ns == ms;
    }
  }

  /** The alert messages carrying `xs`, one per alert, in order. */
  function AlertMessages(xs: seq<ServiceAlert>): (ms: seq<Message>)
    ensures |ms| == |xs|
    ensures forall i :: 0 <= i < |xs| ==> ms[i] == AlertMessage(xs[i])
  {
    seq(|xs|, i requires 0 <= i < |xs| => AlertMessage(xs[i]))
  }

  /** Alert messages only append their alerts; the vehicles stay as they were. */
  lemma {:induction false} ReplayAlerts(v: View, xs: seq<ServiceAlert>)
    ensures Replay(v, AlertMessages(xs)) == v.(alerts := v.alerts + xs)
    decreases |xs|
  {
    if xs != [] {
      var last := |xs| - 1;
      assert AlertMessages(xs)[..|xs| - 1] == AlertMessages(xs[..last]);
      ReplayAlerts(v, xs[..last]);
      assert v.alerts + xs[..last] + [xs[last]] == v.alerts + xs;
    }
  }

  /**
   * Whatever came before, an INIT followed by alert messages leaves exactly
   * the INIT's vehicles and the INIT's alerts followed by the new ones.
   */
  lemma InitThenAlerts(v: View, vs: seq<VehicleLocation>, init: seq<ServiceAlert>, later: seq<ServiceAlert>)
    ensures var w := Replay(v, [Init(vs, init)] + AlertMessages(later));
      w.vehicles == vs && w.alerts == init + later && w.connected == v.connected
  {
    ReplayAppend(v, [Init(vs, init)], AlertMessages(later));
    assert Replay(v, [Init(vs, init)]) == Receive(v, Init(vs, init)) by {
      assert [Init(vs, init)][..0] == [];
    }
    ReplayAlerts(Receive(v, Init(vs, init)), later);
  }

  /** A VEHICLE_UPDATES message overrides whatever vehicle messages came before it. */
  lemma LastVehicleUpdateWins(v: View, ms: seq<Message>, vs: seq<VehicleLocation>)
    ensures Replay(v, ms + [VehicleUpdates(vs)]).vehicles == vs
  {
    assert (ms + [VehicleUpdates(vs)])[..|ms|] == ms;
  }

  /** The hook `useRealTimeTransit`, with its three state cells. */
  class TransitFeed {
    var vehicles: seq<VehicleLocation>
    var alerts: seq<ServiceAlert>
    var connected: bool

    function State(): View
      reads this
    {
      View(vehicles, alerts, connected)
    }

    /** The initial `useState` values. */
    constructor()
      ensures State() == Initial()
    {
      vehicles := [];
      alerts := [];
      connected := false;
    }

    /** `ws.onopen`: marks the feed connected and changes nothing else. */
    method OnOpen()
      modifies this
      ensures connected
      ensures vehicles == old(vehicles) && alerts == old(alerts)
    {
      connected := true;
    }

    /** `ws.onclose`: marks the feed disconnected and changes nothing else. */
    method OnClose()
      modifies this
      ensures !connected
      ensures vehicles == old(vehicles) && alerts == old(alerts)
    {
      connected := false;
    }

    /** `ws.onmessage`: the switch on the message type. */
    method OnMessage(m: Message)
      modifies this
      ensures State() == Receive(old(State()), m)
    {
      match m {
        case Init(vs, xs) =>
          vehicles := vs;
          alerts := xs;
        case VehicleUpdates(vs) =>
          vehicles := vs;
        case AlertMessage(a) =>
          alerts := alerts + [a];
        case Unrecognised(_) =>
      }
    }
  }
}
