/** `getFullState`: the four reads merged into one snapshot, with zones and
    hot-water circuits re-indexed by id and each circuit's temperature reports
    attached. The reads are inputs: a read that failed is `None`, which is what
    `queryBody` yields for it. */
module StateAggregator {
  import opened Js

  /** A zone or hot-water entry of the system tree: its `_id` and its other fields. */
  datatype Entry = Entry(id: string, fields: map<string, Value>)

  /** One measurement report of a device; `category` is its `measurement_category`, if any. */
  datatype Report = Report(id: string, category: Option<Value>, fields: map<string, Value>)

  /** A live-report device; `reports` is `None` when the device has no report list. */
  datatype Device = Device(id: string, reports: Option<seq<Report>>)

  /** The system tree as read: `zones`/`dhw` are `None` when not a list. */
  datatype SystemTree = SystemTree(zones: Option<seq<Entry>>, dhw: Option<seq<Entry>>, fields: map<string, Value>)

  /** The live report as read: `devices` is `None` when not a list. */
  datatype LiveReport = LiveReport(devices: Option<seq<Device>>, fields: map<string, Value>)

  /** A hot-water entry with the `configuration` the aggregation assigns to it. */
  datatype Hotwater = Hotwater(entry: Entry, configuration: map<string, Report>)

  datatype IndexedSystem = IndexedSystem(zones: map<string, Entry>, dhw: map<string, Hotwater>, fields: map<string, Value>)

  datatype Snapshot = Snapshot(system: IndexedSystem, measures: LiveReport, status: Option<Value>, gateway: Option<Value>)

  /** lodash `zipObject`: keys paired with values in order, so a repeated key keeps its last value. */
  function ZipObject<T>(keys: seq<string>, values: seq<T>): (r: map<string, T>)
    requires |keys| == |values|
    ensures r.Keys == set i | 0 <= i < |keys| :: keys[i]
  {
    if keys == [] then map[]
    else
      var n := |keys| - 1;
      var r' := ZipObject(keys[..n], values[..n]);
      assert forall i :: 0 <= i < n ==> keys[..n][i] == keys[i];
      r'[keys[n] := values[n]]
  }

  /** A key maps to the value at its last occurrence. */
  lemma {:induction false} ZipObjectLastWins<T>(keys: seq<string>, values: seq<T>, i: nat)
    requires |keys| == |values| && i < |keys|
    requires forall j :: i < j < |keys| ==> keys[j] != keys[i]
    ensures keys[i] in ZipObject(keys, values) && ZipObject(keys, values)[keys[i]] == values[i]
  {
    var n := |keys| - 1;
    if i < n {
      ZipObjectLastWins(keys[..n], values[..n], i);
    }
  }

  /** Key `k` stands last at position `i`. */
  predicate LastAt(keys: seq<string>, i: int, k: string)
  {
    0 <= i < |keys| && keys[i] == k && forall j :: i < j < |keys| ==> keys[j] != k
  }

  /** Every value of the map sits, in the input, at the last position carrying its key. */
  lemma {:induction false} ZipObjectFrom<T>(keys: seq<string>, values: seq<T>, k: string)
    requires |keys| == |values| && k in ZipObject(keys, values)
    ensures exists i :: LastAt(keys, i, k) && values[i] == ZipObject(keys, values)[k]
  {
    var n := |keys| - 1;
    var z' := ZipObject(keys[..n], values[..n]);
    assert ZipObject(keys, values) == z'[keys[n] := values[n]];
    if keys[n] == k {
      assert LastAt(keys, n, k);
    } else {
      ZipObjectFrom(keys[..n], values[..n], k);
      var i :| LastAt(keys[..n], i, k) && values[..n][i] == z'[k];
      assert values[i] == ZipObject(keys, values)[k];
      assert forall j :: i < j < n ==> keys[j] == keys[..n][j];
      assert LastAt(keys, i, k);
    }
  }

  /** `xs.map(x => key(x))`. */
  function KeysOf<T>(xs: seq<T>, key: T -> string): (ks: seq<string>)
    ensures |ks| == |xs| && forall i :: 0 <= i < |xs| ==> ks[i] == key(xs[i])
  {
    seq(|xs|, i requires 0 <= i < |xs| => key(xs[i]))
  }

  function EntryId(e: Entry): string { e.id }

  function ReportId(r: Report): string { r.id }

  /** `_.zipObject(xs.map(x => x._id), xs)` on zones and hot-water entries. */
  function IndexEntries(es: seq<Entry>): map<string, Entry>
  {
    ZipObject(KeysOf(es, EntryId), es)
  }

  /** The key set of the index is the set of ids, and each id maps to an entry with
      that id; with distinct ids every entry is found under its own id. */
  lemma IndexEntriesById(es: seq<Entry>)
    ensures IndexEntries(es).Keys == set e | e in es :: e.id
    ensures forall k :: k in IndexEntries(es) ==> IndexEntries(es)[k].id == k && IndexEntries(es)[k] in es
    ensures (forall i, j :: 0 <= i < j < |es| ==> es[i].id != es[j].id) ==>
              forall e :: e in es ==> IndexEntries(es)[e.id] == e
  {
    var ids := KeysOf(es, EntryId);
    assert IndexEntries(es).Keys == set e | e in es :: e.id by {
      forall k | k in IndexEntries(es) ensures exists e :: e in es && e.id == k {
        var i :| 0 <= i < |ids| && ids[i] == k;
        assert es[i] in es;
      }
    }
    forall k | k in IndexEntries(es)
      ensures IndexEntries(es)[k].id == k && IndexEntries(es)[k] in es
    {
      ZipObjectFrom(ids, es, k);
    }
    if forall i, j :: 0 <= i < j < |es| ==> es[i].id != es[j].id {
      forall e | e in es ensures IndexEntries(es)[e.id] == e {
        var i :| 0 <= i < |es| && es[i] == e;
        ZipObjectLastWins(ids, es, i);
      }
    }
  }

  /** For a repeated id the index keeps the last entry carrying it. */
  lemma IndexEntriesLastWins(es: seq<Entry>, k: string)
    requires k in IndexEntries(es)
    ensures exists p :: 0 <= p < |es| && es[p] == IndexEntries(es)[k] && forall q :: p < q < |es| ==> es[q].id != k
  {
    var ids := KeysOf(es, EntryId);
    ZipObjectFrom(ids, es, k);
    var p :| LastAt(ids, p, k) && es[p] == IndexEntries(es)[k];
    assert forall q :: p < q < |es| ==> ids[q] == es[q].id;
  }

  /** `devices.find(item => item._id === key)`: the first device with that id. */
  function FindDevice(ds: seq<Device>, key: string): (r: int)
    ensures -1 <= r < |ds|
    ensures r >= 0 ==> ds[r].id == key && forall j :: 0 <= j < r ==> ds[j].id != key
    ensures r == -1 ==> forall j :: 0 <= j < |ds| ==> ds[j].id != key
  {
    if ds == [] then -1
    else if ds[0].id == key then 0
    else
      var r := FindDevice(ds[1..], key);
      if r < 0 then -1 else r + 1
  }

  predicate IsTemperature(r: Report)
  {
    r.category == Some(Str("TEMPERATURE"))
  }

  /** `reports.filter(item => item.measurement_category === 'TEMPERATURE')`. */
  function Temperatures(rs: seq<Report>): (ts: seq<Report>)
    ensures forall t :: t in ts <==> t in rs && IsTemperature(t)
  {
    if rs == [] then []
    else
      var ts := Temperatures(rs[1..]);
      assert forall t :: t in rs <==> t == rs[0] || t in rs[1..];
      if IsTemperature(rs[0]) then [rs[0]] + ts else ts
  }

  /** The filter keeps one report or drops it, by its category. */
  lemma TemperaturesOne(r: Report)
    ensures Temperatures([r]) == if IsTemperature(r) then [r] else []
  {
    assert [r][1..] == [];
  }

  /** The filter works report by report: it keeps the order and the repeats of its input. */
  lemma {:induction false} TemperaturesAppend(a: seq<Report>, b: seq<Report>)
    ensures Temperatures(a + b) == Temperatures(a) + Temperatures(b)
  {
    if a != [] {
      assert (a + b)[0] == a[0] && (a + b)[1..] == a[1..] + b;
      TemperaturesAppend(a[1..], b);
    } else {
      assert a + b == b;
    }
  }

  /** `_.zipObject(reports.map(r => r._id), reports)` on the filtered reports. */
  function ReportIndex(rs: seq<Report>): map<string, Report>
  {
    var ts := Temperatures(rs);
    ZipObject(KeysOf(ts, ReportId), ts)
  }

  /** Zipping one more pair sets that key last. */
  lemma ZipObjectSnoc<T>(keys: seq<string>, values: seq<T>, k: string, v: T)
    requires |keys| == |values|
    ensures ZipObject(keys + [k], values + [v]) == ZipObject(keys, values)[k := v]
  {
    assert (keys + [k])[..|keys|] == keys;
    assert (values + [v])[..|values|] == values;
  }

  /** One more report: a temperature report takes its id's slot, any other is ignored. */
  lemma ReportIndexSnoc(init: seq<Report>, x: Report)
    ensures ReportIndex(init + [x]) == if IsTemperature(x) then ReportIndex(init)[x.id := x] else ReportIndex(init)
  {
    TemperaturesAppend(init, [x]);
    TemperaturesOne(x);
    var ts' := Temperatures(init);
    var ks := KeysOf(ts', ReportId);
    if IsTemperature(x) {
      assert Temperatures(init + [x]) == ts' + [x];
      assert KeysOf(ts' + [x], ReportId) == ks + [x.id];
      ZipObjectSnoc(ks, ts', x.id, x);
    } else {
      assert Temperatures(init + [x]) == ts';
    }
  }

  /** Report `p` is the last temperature report with id `k`. */
  predicate LastTemperature(rs: seq<Report>, p: int, k: string)
  {
    && 0 <= p < |rs| && rs[p].id == k && IsTemperature(rs[p])
    && forall q :: p < q < |rs| && IsTemperature(rs[q]) ==> rs[q].id != k
  }

  /** The index keeps, for each id, the last temperature report carrying it. */
  lemma {:induction false} ReportIndexLastWins(rs: seq<Report>, k: string)
    requires k in ReportIndex(rs)
    ensures exists p :: LastTemperature(rs, p, k) && rs[p] == ReportIndex(rs)[k]
  {
    var n := |rs| - 1;
    var init := rs[..n];
    assert rs == init + [rs[n]];
    ReportIndexSnoc(init, rs[n]);
    if IsTemperature(rs[n]) && rs[n].id == k {
      assert LastTemperature(rs, n, k);
    } else {
      ReportIndexLastWins(init, k);
      var p :| LastTemperature(init, p, k) && init[p] == ReportIndex(init)[k];
      assert forall q :: p < q < n ==> rs[q] == init[q];
      assert LastTemperature(rs, p, k);
    }
  }

  /** The `configuration` of hot-water entry `key`: the temperature reports of the
      first device with that id, keyed by report id, or nothing when no device has
      that id. `None` where the code throws: `devices` is not a list, or the
      device found has no report list. */
  function Configuration(devices: Option<seq<Device>>, key: string): Option<map<string, Report>>
  {
    match devices
    case None => None
    case Some(ds) =>
      var i := FindDevice(ds, key);
      if i < 0 then Some(map[])
      else match ds[i].reports
        case None => None
        case Some(rs) =>
          Some(ReportIndex(rs))
  }

  /** A configuration holds exactly the temperature reports of the first device
      with the entry's id, each under its own `_id` and, for a repeated `_id`, the
      last of them; it is empty when no device matches. */
  lemma ConfigurationContents(ds: seq<Device>, key: string)
    requires Configuration(Some(ds), key).Some?
    ensures var cfg := Configuration(Some(ds), key).value;
            var i := FindDevice(ds, key);
            && (i < 0 ==> cfg == map[])
            && (i >= 0 ==>
                 && ds[i].reports.Some?
                 && cfg.Keys == (set r | r in ds[i].reports.value && IsTemperature(r) :: r.id)
                 && forall k :: k in cfg ==>
                      && cfg[k].id == k && IsTemperature(cfg[k]) && cfg[k] in ds[i].reports.value
                      && exists p :: LastTemperature(ds[i].reports.value, p, k) && ds[i].reports.value[p] == cfg[k])
  {
    var i := FindDevice(ds, key);
    if i >= 0 {
      var ts := Temperatures(ds[i].reports.value);
      var ids := KeysOf(ts, ReportId);
      var cfg := ZipObject(ids, ts);
      assert cfg.Keys == set r | r in ds[i].reports.value && IsTemperature(r) :: r.id by {
        forall k | k in cfg ensures exists r :: r in ts && r.id == k {
          var j :| 0 <= j < |ids| && ids[j] == k;
          assert ts[j] in ts;
        }
      }
      forall k | k in cfg
        ensures cfg[k].id == k && cfg[k] in ts
        ensures exists p :: LastTemperature(ds[i].reports.value, p, k) && ds[i].reports.value[p] == cfg[k]
      {
        ZipObjectFrom(ids, ts, k);
        ReportIndexLastWins(ds[i].reports.value, k);
      }
    }
  }

  /** Every hot-water key has a configuration the code can compute. */
  predicate AllConfigured(devices: Option<seq<Device>>, dhw: map<string, Entry>)
  {
    forall k :: k in dhw ==> Configuration(devices, k).Some?
  }

  /** `getFullState` after its four reads: `None` wherever the code throws and
      so returns `null`. `status` and `gateway` are not inspected. */
  function GetFullState(system: Option<SystemTree>, measures: Option<LiveReport>,
                        status: Option<Value>, gateway: Option<Value>): Option<Snapshot>
  {
    if system.None? || system.value.zones.None? || system.value.dhw.None? || measures.None? then None
    else
      var dhw := IndexEntries(system.value.dhw.value);
      var devices := measures.value.devices;
      if !AllConfigured(devices, dhw) then None
      else
        var hot := map k | k in dhw :: Hotwater(dhw[k], Configuration(devices, k).value);
        Some(Snapshot(IndexedSystem(IndexEntries(system.value.zones.value), hot, system.value.fields),
                      measures.value, status, gateway))
  }

  /** Where `Configuration` throws, stated on the inputs. */
  predicate Unconfigurable(devices: Option<seq<Device>>, key: string)
  {
    devices.None? || (FindDevice(devices.value, key) >= 0 && devices.value[FindDevice(devices.value, key)].reports.None?)
  }

  /** Some hot-water entry fails to get a configuration. */
  predicate SomeCircuitUnconfigurable(devices: Option<seq<Device>>, dhw: seq<Entry>)
  {
    exists e :: e in dhw && Unconfigurable(devices, e.id)
  }

  lemma ConfiguredIff(devices: Option<seq<Device>>, es: seq<Entry>)
    ensures AllConfigured(devices, IndexEntries(es)) <==> !SomeCircuitUnconfigurable(devices, es)
  {
    var dhw := IndexEntries(es);
    IndexEntriesById(es);
    if !AllConfigured(devices, dhw) {
      var k :| k in dhw && Configuration(devices, k).None?;
      assert dhw[k] in es && Unconfigurable(devices, dhw[k].id);
    }
    if SomeCircuitUnconfigurable(devices, es) {
      var e :| e in es && Unconfigurable(devices, e.id);
      assert e.id in dhw && Configuration(devices, e.id).None?;
    }
  }

  /** `getFullState` yields `null` exactly when the system tree is missing or has no
      zone or hot-water list, the live report is missing (even with no hot-water
      entry), or some hot-water entry's matching device has no report list, or
      there are hot-water entries and the live report has no device list. */
  lemma FullStateNullIff(system: Option<SystemTree>, measures: Option<LiveReport>,
                         status: Option<Value>, gateway: Option<Value>)
    ensures GetFullState(system, measures, status, gateway).None? <==>
              system.None? || system.value.zones.None? || system.value.dhw.None? || measures.None? ||
              SomeCircuitUnconfigurable(measures.value.devices, system.value.dhw.value)
  {
    if system.Some? && system.value.dhw.Some? && measures.Some? {
      ConfiguredIff(measures.value.devices, system.value.dhw.value);
    }
  }

  /** A snapshot carries the live report, status and gateway as read, the system
      tree's other fields, zones indexed by id, and one entry per hot-water id with
      the configuration computed for it. */
  lemma FullStateContents(system: Option<SystemTree>, measures: Option<LiveReport>,
                          status: Option<Value>, gateway: Option<Value>)
    requires GetFullState(system, measures, status, gateway).Some?
    ensures var s := GetFullState(system, measures, status, gateway).value;
            && s.status == status && s.gateway == gateway && s.measures == measures.value
            && s.system.fields == system.value.fields
            && s.system.zones == IndexEntries(system.value.zones.value)
            && s.system.dhw.Keys == (set e | e in system.value.dhw.value :: e.id)
            && forall k :: k in s.system.dhw ==>
                 && s.system.dhw[k].entry == IndexEntries(system.value.dhw.value)[k]
                 && s.system.dhw[k].entry.id == k && s.system.dhw[k].entry in system.value.dhw.value
                 && Some(s.system.dhw[k].configuration) == Configuration(measures.value.devices, k)
  {
    IndexEntriesById(system.value.dhw.value);
  }

  /** The status and gateway reads never decide whether the snapshot fails; they are
      passed through as read, a failed one as missing. */
  lemma MissingStatusPassesThrough(system: Option<SystemTree>, measures: Option<LiveReport>,
                                   status: Option<Value>, gateway: Option<Value>,
                                   status': Option<Value>, gateway': Option<Value>)
    ensures GetFullState(system, measures, status, gateway).Some? <==>
            GetFullState(system, measures, status', gateway').Some?
    ensures GetFullState(system, measures, status, gateway).Some? ==>
              && GetFullState(system, measures, status, gateway).value.status == status
              && GetFullState(system, measures, status, gateway).value.gateway == gateway
  {
  }

  /** A failed live-report read makes the snapshot fail even with no hot-water entry. */
  lemma MissingMeasuresFails(system: Option<SystemTree>, status: Option<Value>, gateway: Option<Value>)
    ensures GetFullState(system, None, status, gateway).None?
  {
  }

  /** Zones `[{_id: "Z1"}, {_id: "Z2"}]` index to exactly `Z1` and `Z2`, each mapping to its entry. */
  lemma ZonesExample()
    ensures IndexEntries([Entry("Z1", map[]), Entry("Z2", map[])]) == map["Z1" := Entry("Z1", map[]), "Z2" := Entry("Z2", map[])]
  {
    var es := [Entry("Z1", map[]), Entry("Z2", map[])];
    var ks: seq<string> := ["Z1", "Z2"];
    assert KeysOf(es, EntryId) == ks;
    assert ks[..1] == ["Z1"] && ["Z1"][..0] == [];
    assert es[..1] == [es[0]] && [es[0]][..0] == [];
    assert ZipObject(["Z1"], [es[0]]) == map["Z1" := es[0]];
    assert ZipObject(ks, es) == map["Z1" := es[0]]["Z2" := es[1]];
  }

  /** A device `D1` with a temperature report `r1` and a humidity report `r2`: the
      configuration of hot-water entry `D1` holds only `r1`. */
  lemma DhwConfigurationExample()
    ensures var r1 := Report("r1", Some(Str("TEMPERATURE")), map[]);
            var r2 := Report("r2", Some(Str("HUMIDITY")), map[]);
            Configuration(Some([Device("D1", Some([r1, r2]))]), "D1") == Some(map["r1" := r1])
  {
    var r1 := Report("r1", Some(Str("TEMPERATURE")), map[]);
    var r2 := Report("r2", Some(Str("HUMIDITY")), map[]);
    assert !IsTemperature(r2) by {
      assert Str("HUMIDITY") != Str("TEMPERATURE") by {
        assert "HUMIDITY"[0] != "TEMPERATURE"[0];
      }
    }
    assert [r1, r2][1..] == [r2];
    assert [r2][1..] == [];
    assert Temperatures([r2]) == [];
    assert Temperatures([r1, r2]) == [r1] + Temperatures([r2]);
    assert Temperatures([r1, r2]) == [r1];
    assert KeysOf([r1], ReportId) == ["r1"];
  }
}
