/** The five setters: each builds a facility-, zone- or dhw-scoped URL and a
    one-field body and enqueues a `put` command for it. */
module Setters {
  import opened Js
  import opened Http
  import opened CommandQueue

  function ZoneUrl(serial: string, zone: string, leaf: string): string
  {
    "/facilities/" + serial + "/systemcontrol/v1/zones/" + zone + "/heating/configuration/" + leaf
  }

  function DhwUrl(serial: string, dhw: string, leaf: string): string
  {
    "/facilities/" + serial + "/systemcontrol/v1/dhw/" + dhw + "/hotwater/configuration/" + leaf
  }

  /** The five settings the client can write, one per setter. */
  datatype Setting = Setpoint | DhwSetpoint | Setback | Mode | DhwMode

  /** The last path segment of the endpoint, which is also the body's only field. */
  function Leaf(k: Setting): string
  {
    match k
    case Setpoint => "setpoint_temperature"
    case DhwSetpoint => "temperature_setpoint"
    case Setback => "setback_temperature"
    case Mode => "mode"
    case DhwMode => "operation_mode"
  }

  predicate ZoneScoped(k: Setting)
  {
    k == Setpoint || k == Setback || k == Mode
  }

  /** The endpoint for setting `k` of zone or hot-water circuit `id` of facility `serial`. */
  function Endpoint(k: Setting, serial: string, id: string): string
  {
    if ZoneScoped(k) then ZoneUrl(serial, id, Leaf(k)) else DhwUrl(serial, id, Leaf(k))
  }

  /** Appending keeps a prefix. */
  lemma PrefixKept(x: string, y: string, z: string)
    requires |z| <= |x| && x[..|z|] == z
    ensures |z| <= |x + y| && (x + y)[..|z|] == z
  {
    assert (x + y)[..|z|] == x[..|z|];
  }

  /** What follows a final `/` is the last segment. */
  lemma LastSegment(a: string, leaf: string)
    requires |a| > 0 && a[|a| - 1] == '/'
    ensures var u := a + leaf;
            |leaf| + 1 <= |u| && u[|u| - |leaf| - 1..] == "/" + leaf
  {
    var u := a + leaf;
    assert u[|u| - |leaf| - 1] == a[|a| - 1];
    assert u[|u| - |leaf| - 1..] == [u[|u| - |leaf| - 1]] + u[|u| - |leaf|..];
  }

  /** A URL built as `p + c + id + m + leaf`, with `m` ending in `/`, starts with `p`
      and ends in `/` and `leaf`. */
  lemma UrlShape(p: string, c: string, id: string, m: string, leaf: string)
    requires |m| > 0 && m[|m| - 1] == '/'
    ensures var u := p + c + id + m + leaf;
            && |p| <= |u| && u[..|p|] == p
            && |leaf| + 1 <= |u| && u[|u| - |leaf| - 1..] == "/" + leaf
  {
    assert p[..|p|] == p;
    PrefixKept(p, c, p);
    PrefixKept(p + c, id, p);
    PrefixKept(p + c + id, m, p);
    PrefixKept(p + c + id + m, leaf, p);
    LastSegment(p + c + id + m, leaf);
  }

  /** Every endpoint lies under the facility's tree and ends in the setting's leaf segment. */
  lemma EndpointShape(k: Setting, serial: string, id: string)
    ensures var u := Endpoint(k, serial, id);
            var p := "/facilities/" + serial;
            && |p| <= |u| && u[..|p|] == p
            && |Leaf(k)| + 1 <= |u| && u[|u| - |Leaf(k)| - 1..] == "/" + Leaf(k)
  {
    var leaf := Leaf(k);
    if ZoneScoped(k) {
      var m := "/heating/configuration/";
      assert m[|m| - 1] == '/';
      UrlShape("/facilities/" + serial, "/systemcontrol/v1/zones/", id, m, leaf);
    } else {
      var m := "/hotwater/configuration/";
      assert m[|m| - 1] == '/';
      UrlShape("/facilities/" + serial, "/systemcontrol/v1/dhw/", id, m, leaf);
    }
  }

  /** The `put` command every setter enqueues: a facility-scoped URL whose last
      segment names the body's only field, which holds the value written. */
  function SetCommand(k: Setting, serial: string, id: string, v: Value): (c: Command)
    ensures c.verb == Http.Put && c.data.Some? && c.data.value.Keys == {Leaf(k)} && c.data.value[Leaf(k)] == v
    ensures |c.url| > |Leaf(k)| && c.url[|c.url| - |Leaf(k)| - 1..] == "/" + Leaf(k)
    ensures |"/facilities/" + serial| <= |c.url| && c.url[..|"/facilities/" + serial|] == "/facilities/" + serial
  {
    var leaf := Leaf(k);
    var u := Endpoint(k, serial, id);
    EndpointShape(k, serial, id);
    assert map[leaf := v].Keys == {leaf};
    Command(u, Http.Put, Some(map[leaf := v]))
  }

  /** `setTargetTemperature`: the zone's heating setpoint. */
  function TargetTemperature(serial: string, zone: string, temperature: real): Command
  {
    SetCommand(Setpoint, serial, zone, Num(temperature))
  }

  /** `setTargetDHWTemperature`: the hot-water setpoint. */
  function TargetDhwTemperature(serial: string, dhw: string, temperature: real): Command
  {
    SetCommand(DhwSetpoint, serial, dhw, Num(temperature))
  }

  /** `setTargetReducedTemperature`: the zone's setback temperature. */
  function TargetReducedTemperature(serial: string, zone: string, temperature: real): Command
  {
    SetCommand(Setback, serial, zone, Num(temperature))
  }

  /** `setHeatingMode`: the zone's heating mode. */
  function HeatingMode(serial: string, zone: string, mode: string): Command
  {
    SetCommand(Mode, serial, zone, Str(mode))
  }

  /** `setDHWOperationMode`: the hot-water operation mode. */
  function DhwOperationMode(serial: string, dhw: string, mode: string): Command
  {
    SetCommand(DhwMode, serial, dhw, Str(mode))
  }

  /** The 14th character from the end of a URL; it tells the five setters' endpoints apart. */
  function Marker(u: string): char
    requires |u| >= 14
  {
    u[|u| - 14]
  }

  /** Whatever precedes a tail of at least 14 characters, the marker is the tail's. */
  lemma MarkerOfTail(a: string, x: string)
    requires |x| >= 14
    ensures Marker(a + x) == Marker(x)
  {
    assert (a + x)[|a + x| - 14] == x[|x| - 14];
  }

  /** A string known by its fixed start and end determines what lies between. */
  lemma MiddleDetermined(p: string, u: string, v: string, s: string)
    requires p + u + s == p + v + s
    ensures u == v
  {
    var w := p + u + s;
    assert |u| == |v|;
    assert u == w[|p|..|p| + |u|];
    assert v == w[|p|..|p| + |v|];
  }

  /** Same setter, same facility: the URL names the zone exactly. */
  lemma ZoneUrlInjective(serial: string, z1: string, z2: string, leaf: string)
    ensures ZoneUrl(serial, z1, leaf) == ZoneUrl(serial, z2, leaf) <==> z1 == z2
  {
    var p := "/facilities/" + serial + "/systemcontrol/v1/zones/";
    var s := "/heating/configuration/" + leaf;
    assert ZoneUrl(serial, z1, leaf) == p + z1 + s;
    assert ZoneUrl(serial, z2, leaf) == p + z2 + s;
    if ZoneUrl(serial, z1, leaf) == ZoneUrl(serial, z2, leaf) {
      MiddleDetermined(p, z1, z2, s);
    }
  }

  /** Same setter, same facility: the URL names the hot-water circuit exactly. */
  lemma DhwUrlInjective(serial: string, d1: string, d2: string, leaf: string)
    ensures DhwUrl(serial, d1, leaf) == DhwUrl(serial, d2, leaf) <==> d1 == d2
  {
    var p := "/facilities/" + serial + "/systemcontrol/v1/dhw/";
    var s := "/hotwater/configuration/" + leaf;
    assert DhwUrl(serial, d1, leaf) == p + d1 + s;
    assert DhwUrl(serial, d2, leaf) == p + d2 + s;
    if DhwUrl(serial, d1, leaf) == DhwUrl(serial, d2, leaf) {
      MiddleDetermined(p, d1, d2, s);
    }
  }

  function MarkerOf(k: Setting): char
  {
    match k
    case Setpoint => 'n'
    case DhwSetpoint => 'a'
    case Setback => 'c'
    case Mode => 'i'
    case DhwMode => 'o'
  }

  lemma ZoneMarker(serial: string, id: string, leaf: string)
    requires |leaf| >= 14 || leaf == "mode"
    ensures var u := ZoneUrl(serial, id, leaf);
            |u| >= 14 && Marker(u) == Marker("/heating/configuration/" + leaf)
  {
    MarkerOfTail("/facilities/" + serial + "/systemcontrol/v1/zones/" + id, "/heating/configuration/" + leaf);
  }

  lemma DhwMarker(serial: string, id: string, leaf: string)
    requires |leaf| >= 14
    ensures var u := DhwUrl(serial, id, leaf);
            |u| >= 14 && Marker(u) == Marker("/hotwater/configuration/" + leaf)
  {
    MarkerOfTail("/facilities/" + serial + "/systemcontrol/v1/dhw/" + id, "/hotwater/configuration/" + leaf);
  }

  /** Each setting's endpoint carries its own marker, for any facility and zone or circuit. */
  lemma EndpointMarker(k: Setting, serial: string, id: string)
    ensures |Endpoint(k, serial, id)| >= 14 && Marker(Endpoint(k, serial, id)) == MarkerOf(k)
  {
    match k
    case Setpoint =>
      ZoneMarker(serial, id, "setpoint_temperature");
      assert Marker("/heating/configuration/" + "setpoint_temperature") == 'n';
    case DhwSetpoint =>
      DhwMarker(serial, id, "temperature_setpoint");
      assert Marker("/hotwater/configuration/" + "temperature_setpoint") == 'a';
    case Setback =>
      ZoneMarker(serial, id, "setback_temperature");
      assert Marker("/heating/configuration/" + "setback_temperature") == 'c';
    case Mode =>
      ZoneMarker(serial, id, "mode");
      assert Marker("/heating/configuration/" + "mode") == 'i';
    case DhwMode =>
      DhwMarker(serial, id, "operation_mode");
      assert Marker("/hotwater/configuration/" + "operation_mode") == 'o';
  }

  /** No two different setters ever target the same URL, for any facilities,
      zones or circuits, so their commands never coalesce with each other;
      the same setter targets the same URL exactly for the same zone or circuit
      of one facility. */
  lemma EndpointsDistinct(k1: Setting, k2: Setting, serial: string, s2: string, id1: string, id2: string)
    ensures Endpoint(k1, serial, id1) == Endpoint(k2, s2, id2) ==> k1 == k2
    ensures Endpoint(k1, serial, id1) == Endpoint(k1, serial, id2) <==> id1 == id2
  {
    EndpointMarker(k1, serial, id1);
    EndpointMarker(k2, s2, id2);
    if ZoneScoped(k1) {
      ZoneUrlInjective(serial, id1, id2, Leaf(k1));
    } else {
      DhwUrlInjective(serial, id1, id2, Leaf(k1));
    }
  }

  /** A burst of `setTargetTemperature` calls on one zone leaves exactly one
      command pending for that zone's setpoint, carrying the last temperature,
      and leaves the other pending commands alone. */
  lemma TemperatureBurst(q: seq<Command>, serial: string, zone: string, temps: seq<real>)
    requires UniqueUrls(q) && temps != []
    ensures var cs := seq(|temps|, i requires 0 <= i < |temps| => TargetTemperature(serial, zone, temps[i]));
            var last := TargetTemperature(serial, zone, temps[|temps| - 1]);
            var r := Enqueued(q, cs);
            && UniqueUrls(r)
            && last in r
            && (forall x :: x in r && x.url == last.url ==> x == last)
            && (forall x :: x in q && x.url != last.url ==> x in r)
  {
    var cs := seq(|temps|, i requires 0 <= i < |temps| => TargetTemperature(serial, zone, temps[i]));
    var last := TargetTemperature(serial, zone, temps[|temps| - 1]);
    assert LastFor(cs, last.url) == Some(last);
    LastWriteWins(q, cs, last.url);
    forall x | x in q && x.url != last.url
      ensures x in Enqueued(q, cs)
    {
      LastWriteWins(q, cs, x.url);
    }
  }

  // The example endpoint spelled out, one join at a time: one literal join per
  // lemma keeps each proof small.
  lemma ExampleJoin1() ensures "/facilities/" + "serial" == "/facilities/serial" {}
  lemma ExampleJoin2()
    ensures "/facilities/serial" + "/systemcontrol/v1/zones/" == "/facilities/serial/systemcontrol/v1/zones/" {}
  lemma ExampleJoin3()
    ensures "/facilities/serial/systemcontrol/v1/zones/" + "Z1" == "/facilities/serial/systemcontrol/v1/zones/Z1" {}
  lemma ExampleJoin4()
    ensures "/facilities/serial/systemcontrol/v1/zones/Z1" + "/heating/configuration/"
         == "/facilities/serial/systemcontrol/v1/zones/Z1/heating/configuration/" {}
  lemma ExampleJoin5()
    ensures "/facilities/serial/systemcontrol/v1/zones/Z1/heating/configuration/" + "setpoint_temperature"
         == "/facilities/serial/systemcontrol/v1/zones/Z1/heating/configuration/setpoint_temperature" {}

  /** One `setTargetTemperature(serial, "Z1", 21.5)` on an empty queue, then a drain:
      exactly one PUT to the zone's setpoint endpoint, with body `{setpoint_temperature: 21.5}`. */
  lemma SingleSetpointDrained()
    ensures DrainOrder(Enqueued([], [TargetTemperature("serial", "Z1", 21.5)]), [])
         == [Command("/facilities/serial/systemcontrol/v1/zones/Z1/heating/configuration/setpoint_temperature",
                     Http.Put, Some(map["setpoint_temperature" := Num(21.5)]))]
  {
    var c := TargetTemperature("serial", "Z1", 21.5);
    ExampleJoin1(); ExampleJoin2(); ExampleJoin3(); ExampleJoin4(); ExampleJoin5();
    assert Coalesce([], c) == [c];
    assert Enqueued([], [c]) == [c];
    DrainOrderFifo([c]);
  }
}
