/** The database behind the endpoints: its tables as maps from primary key
    to row, and the endpoints that change them (pilots, settings, flight
    locations, flights and their battery packs). */
module Store {
  import opened Types
  import Duration
  import FlightQuery

  /** The one setting `get_setting` has a default for. */
  const DipulMapLinkKey: string := "show_dipul_map_link"

  /** Start points at most this many metres from a location belong to it. */
  const LocationRadius: real := 300.0

  /** A distance function in metres (the haversine formula in the source). */
  type Distance = (Coord, Coord) -> real

  predicate Near(dist: Distance, start: Coord, c: Coord) {
    dist(start, c) <= LocationRadius
  }

  /** A set that is not empty has an element. */
  lemma NonEmpty(s: set<int>)
    requires s != {}
    ensures exists x :: x in s
  {
    if forall x :: x !in s {
      assert false;
    }
  }

  ghost predicate AtMostOneDefault(pilots: map<int, Pilot>) {
    forall i, j :: i in pilots && j in pilots && pilots[i].isDefault && pilots[j].isDefault ==> i == j
  }

  // ---------------------------------------------------------------------
  // Settings

  /** `get_setting`: the stored value, else "true" for the map-link
      setting, else 404. */
  function LookupSetting(settings: map<string, string>, key: string): (r: Result<string>)
    ensures r.Err? ==> r.error == NotFound
  {
    if key in settings then Ok(settings[key])
    else if key == DipulMapLinkKey then Ok("true")
    else Err(NotFound)
  }

  /** A read after `create_or_update_setting` returns the value written,
      and reads of other keys are unaffected. */
  lemma ReadAfterUpsert(settings: map<string, string>, key: string, value: string, other: string)
    ensures LookupSetting(settings[key := value], key) == Ok(value)
    ensures other != key ==> LookupSetting(settings[key := value], other) == LookupSetting(settings, other)
  {
  }

  /** Only a missing key other than the map-link setting is not found; a
      stored value overrides the default. */
  lemma SettingNotFoundIff(settings: map<string, string>, key: string)
    ensures LookupSetting(settings, key).Err? <==> key !in settings && key != DipulMapLinkKey
    ensures key == DipulMapLinkKey ==>
              LookupSetting(settings, key) == (if key in settings then Ok(settings[key]) else Ok("true"))
  {
  }

  // ---------------------------------------------------------------------
  // Battery packs linked to a flight

  /** `create_flight`: the packs among the requested ids that exist. */
  function LinkedOnCreate(cycles: map<int, int>, ids: seq<int>): (link: set<int>)
    ensures link <= cycles.Keys
    ensures forall p :: p in link <==> p in cycles && p in ids
  {
    set p | p in ids && p in cycles
  }

  /** `create_flight`: every occurrence of an existing pack's id in the
      request adds one cycle. */
  function CyclesAfterCreate(cycles: map<int, int>, ids: seq<int>): (c: map<int, int>)
    ensures c.Keys == cycles.Keys
    ensures forall p :: p in c ==> c[p] == cycles[p] + multiset(ids)[p]
  {
    map p | p in cycles :: cycles[p] + multiset(ids)[p]
  }

  /** One more requested id: an existing pack gains a cycle and the link. */
  lemma CreateStep(cycles: map<int, int>, ids: seq<int>, x: int)
    ensures CyclesAfterCreate(cycles, ids + [x]) ==
              if x in cycles then CyclesAfterCreate(cycles, ids)[x := CyclesAfterCreate(cycles, ids)[x] + 1]
              else CyclesAfterCreate(cycles, ids)
    ensures LinkedOnCreate(cycles, ids + [x]) ==
              if x in cycles then LinkedOnCreate(cycles, ids) + {x} else LinkedOnCreate(cycles, ids)
  {
    var m := multiset(ids + [x]);
    assert m == multiset(ids) + multiset{x};
    var before, after := CyclesAfterCreate(cycles, ids), CyclesAfterCreate(cycles, ids + [x]);
    var expected := if x in cycles then before[x := before[x] + 1] else before;
    forall p | p in after ensures after[p] == expected[p] {
      assert m[p] == multiset(ids)[p] + (if p == x then 1 else 0);
    }
    assert after == expected;
  }

  /** `update_flight`: linked packs no longer requested are unlinked and
      requested packs not yet linked are linked; ids with no pack row are
      ignored either way. */
  function LinkAfterUpdate(current: set<int>, requested: set<int>, packIds: set<int>): (link: set<int>)
    ensures forall p :: p in link <==>
              (p in current && (p in requested || p !in packIds)) || (p in requested && p in packIds)
  {
    (current - (current - requested) * packIds) + (requested - current) * packIds
  }

  /** `update_flight`: one cycle off each unlinked pack, one on each newly
      linked pack. */
  function CyclesAfterUpdate(cycles: map<int, int>, current: set<int>, requested: set<int>): (c: map<int, int>)
    ensures c.Keys == cycles.Keys
    ensures forall p :: p in c && p in current && p !in requested ==> c[p] == cycles[p] - 1
    ensures forall p :: p in c && p in requested && p !in current ==> c[p] == cycles[p] + 1
    ensures forall p :: p in c && (p in current <==> p in requested) ==> c[p] == cycles[p]
  {
    map p | p in cycles ::
      if p in current && p !in requested then cycles[p] - 1
      else if p in requested && p !in current then cycles[p] + 1
      else cycles[p]
  }

  /** When every linked pack exists, the flight ends up linked to exactly
      the requested packs that exist. */
  lemma LinkBecomesRequested(current: set<int>, requested: set<int>, packIds: set<int>)
    requires current <= packIds
    ensures LinkAfterUpdate(current, requested, packIds) == requested * packIds
  {
  }

  /** Repeating an update with the same pack ids changes nothing more. */
  lemma UpdateIdempotent(cycles: map<int, int>, current: set<int>, requested: set<int>)
    requires current <= cycles.Keys
    ensures var link := LinkAfterUpdate(current, requested, cycles.Keys);
            var c := CyclesAfterUpdate(cycles, current, requested);
            LinkAfterUpdate(link, requested, c.Keys) == link
            && CyclesAfterUpdate(c, link, requested * c.Keys) == c
  {
    LinkBecomesRequested(current, requested, cycles.Keys);
  }

  /** A pack's cycle count minus its link to the flight is the same before
      and after an update: cycles move exactly with the link. */
  lemma UpdateKeepsCycleBalance(cycles: map<int, int>, current: set<int>, requested: set<int>, p: int)
    requires current <= cycles.Keys && p in cycles
    ensures var link := LinkAfterUpdate(current, requested, cycles.Keys);
            CyclesAfterUpdate(cycles, current, requested)[p] - (if p in link then 1 else 0)
            == cycles[p] - (if p in current then 1 else 0)
  {
  }

  /** The id x occurs at two positions of the request. */
  predicate Repeats(ids: seq<int>, x: int) {
    exists i, j | 0 <= i < j < |ids| :: ids[i] == x && ids[j] == x
  }

  /** A stored pack named twice in the request: `create_flight` appends it
      to the flight's packs twice, and the second association row repeats
      the primary key (flight_id, battery_pack_id) of `flight_battery_packs`,
      so the commit of the flight fails. */
  predicate RepeatsStoredPack(cycles: map<int, int>, ids: seq<int>) {
    exists x | x in cycles :: Repeats(ids, x)
  }

  /** An id repeats exactly when it occurs at least twice; otherwise it
      occurs once or not at all. */
  lemma {:induction false} RepeatsIffCountedTwice(ids: seq<int>, x: int)
    ensures Repeats(ids, x) <==> multiset(ids)[x] >= 2
    ensures !Repeats(ids, x) ==> multiset(ids)[x] == if x in ids then 1 else 0
  {
    if ids != [] {
      var t := ids[1..];
      assert ids == [ids[0]] + t;
      RepeatsIffCountedTwice(t, x);
      if Repeats(t, x) {
        var i, j :| 0 <= i < j < |t| && t[i] == x && t[j] == x;
        assert ids[i + 1] == x && ids[j + 1] == x;
      }
      if ids[0] == x && x in t {
        var j :| 0 <= j < |t| && t[j] == x;
        assert ids[0] == x && ids[j + 1] == x;
      }
      if Repeats(ids, x) {
        var i, j :| 0 <= i < j < |ids| && ids[i] == x && ids[j] == x;
        assert t[j - 1] == x;
        if i > 0 {
          assert t[i - 1] == x;
        }
      }
    }
  }

  /** When the commit succeeds, no stored pack was requested twice, and
      creating the flight adds one cycle to exactly the packs it links. */
  lemma CreateKeepsCycleBalance(cycles: map<int, int>, ids: seq<int>, p: int)
    requires !RepeatsStoredPack(cycles, ids) && p in cycles
    ensures CyclesAfterCreate(cycles, ids)[p] - (if p in LinkedOnCreate(cycles, ids) then 1 else 0) == cycles[p]
  {
    RepeatsIffCountedTwice(ids, p);
  }

  // ---------------------------------------------------------------------
  // Battery pack usage

  datatype PackUsage = PackUsage(flightCount: nat, totalDuration: real)

  /** The flights among ids that count for a pack's usage on a drone:
      valid flights of the drone linked to the pack. */
  function UsingFlights(flights: map<int, Flight>, droneId: int, ids: set<int>, pack: int): (s: set<int>)
    ensures s <= ids * flights.Keys
  {
    set i | i in ids && i in flights && flights[i].droneId == droneId && flights[i].isValid && pack in flights[i].packs
  }

  /** The packs linked to at least one valid flight of the drone among ids. */
  function PacksUsed(flights: map<int, Flight>, droneId: int, ids: set<int>): set<int> {
    set i, p | i in ids && i in flights && flights[i].droneId == droneId && flights[i].isValid && p in flights[i].packs :: p
  }

  /** The summed robust duration of a set of flights. */
  ghost function SumDurations(flights: map<int, Flight>, ids: set<int>): (total: real)
    requires ids <= flights.Keys
    ensures total >= 0.0
    decreases ids
  {
    if ids == {} then 0.0
    else
      NonEmpty(ids);
      var i :| i in ids;
      Duration.RobustDuration(flights[i].data) + SumDurations(flights, ids - {i})
  }

  /** The sum does not depend on which flight is taken first. */
  lemma {:induction false} SumDurationsRemove(flights: map<int, Flight>, ids: set<int>, j: int)
    requires ids <= flights.Keys && j in ids
    ensures SumDurations(flights, ids) == Duration.RobustDuration(flights[j].data) + SumDurations(flights, ids - {j})
    decreases ids
  {
    var i :| i in ids && SumDurations(flights, ids) ==
      Duration.RobustDuration(flights[i].data) + SumDurations(flights, ids - {i});
    if i != j {
      SumDurationsRemove(flights, ids - {i}, j);
      SumDurationsRemove(flights, ids - {j}, i);
      assert ids - {i} - {j} == ids - {j} - {i};
    }
  }

  /** What `get_battery_pack_usage` reports for a pack after looking at the
      flights in ids. */
  ghost function UsageOf(flights: map<int, Flight>, droneId: int, ids: set<int>, pack: int): PackUsage
    requires ids <= flights.Keys
  {
    var s := UsingFlights(flights, droneId, ids, pack);
    PackUsage(|s|, SumDurations(flights, s))
  }

  /** Adding one flight of the drone to the flights looked at adds one to
      the count and its duration to the total of each pack it links. */
  lemma UsageStep(flights: map<int, Flight>, droneId: int, done: set<int>, f: int, pack: int)
    requires done <= flights.Keys && f in flights && f !in done
    ensures flights[f].droneId == droneId && flights[f].isValid && pack in flights[f].packs ==>
              UsageOf(flights, droneId, done + {f}, pack)
              == PackUsage(UsageOf(flights, droneId, done, pack).flightCount + 1,
                           UsageOf(flights, droneId, done, pack).totalDuration + Duration.RobustDuration(flights[f].data))
    ensures !(flights[f].droneId == droneId && flights[f].isValid && pack in flights[f].packs) ==>
              UsageOf(flights, droneId, done + {f}, pack) == UsageOf(flights, droneId, done, pack)
  {
    var before := UsingFlights(flights, droneId, done, pack);
    var after := UsingFlights(flights, droneId, done + {f}, pack);
    if flights[f].droneId == droneId && flights[f].isValid && pack in flights[f].packs {
      assert after == before + {f};
      assert after - {f} == before;
      SumDurationsRemove(flights, after, f);
    } else {
      assert after == before;
    }
  }

  /** Looking at one more flight adds its packs to the packs used exactly
      when it is a valid flight of the drone. */
  lemma PacksUsedAdd(flights: map<int, Flight>, droneId: int, done: set<int>, f: int)
    requires f in flights
    ensures PacksUsed(flights, droneId, done + {f}) ==
              PacksUsed(flights, droneId, done)
              + (if flights[f].droneId == droneId && flights[f].isValid then flights[f].packs else {})
  {
    var extra := if flights[f].droneId == droneId && flights[f].isValid then flights[f].packs else {};
    forall p | p in PacksUsed(flights, droneId, done + {f})
      ensures p in PacksUsed(flights, droneId, done) + extra
    {
      var i :| i in done + {f} && i in flights && flights[i].droneId == droneId && flights[i].isValid
               && p in flights[i].packs;
      if i != f {
        assert p in PacksUsed(flights, droneId, done);
      }
    }
    forall p | p in extra ensures p in PacksUsed(flights, droneId, done + {f}) {
      assert f in done + {f};
    }
  }

  /** Counts one valid flight of the drone into the usage of each pack it
      links. */
  method CountFlight(flights: map<int, Flight>, droneId: int, done: set<int>, f: int,
                     usage: map<int, PackUsage>) returns (counted: map<int, PackUsage>)
    requires done <= flights.Keys && f in flights && f !in done
    requires flights[f].droneId == droneId && flights[f].isValid
    requires usage.Keys == PacksUsed(flights, droneId, done)
    requires forall p :: p in usage ==> usage[p] == UsageOf(flights, droneId, done, p)
    ensures counted.Keys == PacksUsed(flights, droneId, done + {f})
    ensures forall p :: p in counted ==> counted[p] == UsageOf(flights, droneId, done + {f}, p)
  {
    var packs := flights[f].packs;
    var duration := Duration.RobustDuration(flights[f].data);
    forall p | p !in packs ensures UsageOf(flights, droneId, done + {f}, p) == UsageOf(flights, droneId, done, p) {
      UsageStep(flights, droneId, done, f, p);
    }
    counted := usage;
    var todo := packs;
    while todo != {}
      invariant todo <= packs
      invariant counted.Keys == PacksUsed(flights, droneId, done) + (packs - todo)
      invariant forall p :: p in counted && p in todo ==> counted[p] == UsageOf(flights, droneId, done, p)
      invariant forall p :: p in counted && p !in todo ==> counted[p] == UsageOf(flights, droneId, done + {f}, p)
      decreases todo
    {
      NonEmpty(todo);
      var p :| p in todo;
      UsageStep(flights, droneId, done, f, p);
      if p !in counted {
        assert UsingFlights(flights, droneId, done, p) == {};
        counted := counted[p := PackUsage(0, 0.0)];
      }
      counted := counted[p := PackUsage(counted[p].flightCount + 1, counted[p].totalDuration + duration)];
      todo := todo - {p};
    }
    PacksUsedAdd(flights, droneId, done, f);
  }

  // ---------------------------------------------------------------------
  // Requests

  /** The body of `POST /flights/` and `PUT /flights/{id}`; `flightDate` is
      the day number of the requested date-time. `packIds` is None only for
      an explicit `null`: a body without the field carries its default, the
      empty list `Some([])`. */
  datatype FlightRequest = FlightRequest(
    pilotId: int,
    droneId: int,
    flightDate: int,
    notes: Option<string>,
    flightData: Option<seq<DataPoint>>,
    packIds: Option<seq<int>>)

  /** Where `create_flight` puts a flight that starts at start: nowhere
      without a start; else at the first stored location within range, in
      id order, with the locations unchanged; else at a new location there. */
  ghost predicate StartPlaced(before: map<int, Location>, after: map<int, Location>, start: Option<Coord>,
                              dist: Distance, loc: Option<int>)
  {
    if start.None? then loc.None? && after == before
    else if exists l :: l in before && Near(dist, start.value, before[l].coord) then
      && after == before && loc.Some? && loc.value in before
      && Near(dist, start.value, before[loc.value].coord)
      && forall l :: l in before && l < loc.value ==> !Near(dist, start.value, before[l].coord)
    else loc.Some? && loc.value !in before && after == before[loc.value := Location(start.value, true)]
  }

  /** The start point `create_flight` looks up a location for: the first
      sample, when there is one and it has both coordinates. */
  function StartOf(data: Option<seq<DataPoint>>): (start: Option<Coord>)
    ensures start.Some? <==>
              data.Some? && |data.value| > 0 && data.value[0].latitude.Some? && data.value[0].longitude.Some?
    ensures start.Some? ==>
              start.value == Coord(data.value[0].latitude.value, data.value[0].longitude.value)
  {
    if data.Some? && |data.value| > 0 && data.value[0].latitude.Some? && data.value[0].longitude.Some? then
      Some(Coord(data.value[0].latitude.value, data.value[0].longitude.value))
    else None
  }

  /** The `flights` table in ascending id order, from id lo up to hi. */
  function Scan(flights: map<int, Flight>, lo: int, hi: int): (rows: seq<FlightQuery.FlightRow>)
    ensures forall x :: x in rows <==> lo <= x.id < hi && x.id in flights && x.flight == flights[x.id]
    ensures forall i, j :: 0 <= i < j < |rows| ==> rows[i].id < rows[j].id
    decreases hi - lo
  {
    if lo >= hi then []
    else
      var rest := Scan(flights, lo + 1, hi);
      if lo in flights then [FlightQuery.FlightRow(lo, flights[lo])] + rest else rest
  }

  // ---------------------------------------------------------------------
  // The database

  /** The table constraints the endpoints keep: ids below the next id to
      hand out, unique drone names, links and location references to rows
      that exist, and at most one default pilot. */
  ghost predicate Consistent(pilots: map<int, Pilot>, drones: map<int, string>, nextDroneId: int,
                             packs: map<int, int>, locations: map<int, Location>, nextLocationId: int,
                             flights: map<int, Flight>, nextFlightId: int)
  {
    && AtMostOneDefault(pilots)
    && 1 <= nextDroneId && 1 <= nextLocationId && 1 <= nextFlightId
    && (forall d :: d in drones ==> 1 <= d < nextDroneId)
    && (forall d, e :: d in drones && e in drones && drones[d] == drones[e] ==> d == e)
    && (forall l :: l in locations ==> 1 <= l < nextLocationId)
    && (forall f :: f in flights ==> 1 <= f < nextFlightId)
    && (forall f :: f in flights ==> flights[f].packs <= packs.Keys)
    && (forall f :: f in flights && flights[f].locationId.Some? ==> flights[f].locationId.value in locations)
  }

  class Database {
    var pilots: map<int, Pilot>
    var drones: map<int, string>
    var nextDroneId: int
    /** Battery pack id to its cycle count. */
    var packs: map<int, int>
    var locations: map<int, Location>
    var nextLocationId: int
    var flights: map<int, Flight>
    var nextFlightId: int
    var settings: map<string, string>

    /** The table constraints the endpoints keep: ids below the next id to
        hand out, unique drone names, links and location references to
        rows that exist, and at most one default pilot. */
    ghost predicate Valid()
      reads this
    {
      Consistent(pilots, drones, nextDroneId, packs, locations, nextLocationId, flights, nextFlightId)
    }

    constructor ()
      ensures Valid()
      ensures pilots == map[] && drones == map[] && packs == map[] && locations == map[]
      ensures flights == map[] && settings == map[]
    {
      pilots, drones, packs, locations, flights, settings := map[], map[], map[], map[], map[], map[];
      nextDroneId, nextLocationId, nextFlightId := 1, 1, 1;
    }

    /** `db.rollback()`: the tables the log import writes go back to a
        state taken before it. */
    method Rollback(savedDrones: map<int, string>, savedNextDroneId: int,
                    savedLocations: map<int, Location>, savedNextLocationId: int,
                    savedFlights: map<int, Flight>, savedNextFlightId: int)
      requires Consistent(pilots, savedDrones, savedNextDroneId, packs, savedLocations, savedNextLocationId,
                          savedFlights, savedNextFlightId)
      modifies this`drones, this`nextDroneId, this`locations, this`nextLocationId, this`flights, this`nextFlightId
      ensures Valid()
      ensures drones == savedDrones && nextDroneId == savedNextDroneId
      ensures locations == savedLocations && nextLocationId == savedNextLocationId
      ensures flights == savedFlights && nextFlightId == savedNextFlightId
    {
      drones, nextDroneId := savedDrones, savedNextDroneId;
      locations, nextLocationId := savedLocations, savedNextLocationId;
      flights, nextFlightId := savedFlights, savedNextFlightId;
    }

    // -- pilots --------------------------------------------------------

    /** `update_pilot`: renames the pilot; an explicit default flag is
        stored, and setting it first clears the flag of a current default
        pilot. */
    method UpdatePilot(id: int, name: string, isDefault: Option<bool>) returns (r: Result<Pilot>)
      modifies this`pilots
      ensures id !in old(pilots) ==> r == Err(NotFound) && pilots == old(pilots)
      ensures id in old(pilots) ==> pilots.Keys == old(pilots).Keys && r == Ok(pilots[id])
      ensures id in old(pilots) ==>
                pilots[id] == Pilot(name, if isDefault.Some? then isDefault.value else old(pilots)[id].isDefault)
      ensures id in old(pilots) ==> forall k :: k in pilots && k != id ==>
                pilots[k].name == old(pilots)[k].name && (pilots[k].isDefault ==> old(pilots)[k].isDefault)
      ensures id in old(pilots) && isDefault != Some(true) ==>
                forall k :: k in pilots && k != id ==> pilots[k] == old(pilots)[k]
      ensures forall j, k ::
                (j in pilots && k in pilots && j != id && k != id
                 && pilots[j] != old(pilots)[j] && pilots[k] != old(pilots)[k]) ==> j == k
      ensures AtMostOneDefault(old(pilots)) ==> AtMostOneDefault(pilots)
      ensures id in old(pilots) && AtMostOneDefault(old(pilots)) && isDefault == Some(true) ==>
                forall k :: k in pilots ==> (pilots[k].isDefault <==> k == id)
    {
      if id !in pilots {
        return Err(NotFound);
      }
      if isDefault.Some? {
        if isDefault.value {
          ClearDefault();
        }
        pilots := pilots[id := Pilot(name, isDefault.value)];
      } else {
        pilots := pilots[id := pilots[id].(name := name)];
      }
      r := Ok(pilots[id]);
    }

    /** `set_default_pilot`: clears the flag of a current default pilot and
        makes this one the default. */
    method SetDefaultPilot(id: int) returns (r: Result<Pilot>)
      modifies this`pilots
      ensures id !in old(pilots) ==> r == Err(NotFound) && pilots == old(pilots)
      ensures id in old(pilots) ==> pilots.Keys == old(pilots).Keys && r == Ok(pilots[id])
      ensures id in old(pilots) ==> pilots[id] == old(pilots)[id].(isDefault := true)
      ensures id in old(pilots) ==> forall k :: k in pilots && k != id ==>
                pilots[k].name == old(pilots)[k].name && (pilots[k].isDefault ==> old(pilots)[k].isDefault)
      ensures forall j, k ::
                (j in pilots && k in pilots && j != id && k != id
                 && pilots[j] != old(pilots)[j] && pilots[k] != old(pilots)[k]) ==> j == k
      ensures AtMostOneDefault(old(pilots)) ==> AtMostOneDefault(pilots)
      ensures id in old(pilots) && AtMostOneDefault(old(pilots)) ==>
                forall k :: k in pilots ==> (pilots[k].isDefault <==> k == id)
    {
      if id !in pilots {
        return Err(NotFound);
      }
      ClearDefault();
      pilots := pilots[id := pilots[id].(isDefault := true)];
      r := Ok(pilots[id]);
    }

    /** The `Pilot.is_default == True` query and its `.first()`: one
        default pilot, if any, loses the flag. */
    method ClearDefault()
      modifies this`pilots
      ensures pilots.Keys == old(pilots).Keys
      ensures forall k :: k in pilots ==> pilots[k].name == old(pilots)[k].name
      ensures forall k :: k in pilots && pilots[k].isDefault ==> old(pilots)[k].isDefault
      ensures forall j, k ::
                (j in pilots && k in pilots && pilots[j] != old(pilots)[j] && pilots[k] != old(pilots)[k]) ==> j == k
      ensures AtMostOneDefault(old(pilots)) ==> forall k :: k in pilots ==> !pilots[k].isDefault
    {
      if d :| d in pilots && pilots[d].isDefault {
        pilots := pilots[d := pilots[d].(isDefault := false)];
      }
    }

    // -- drones --------------------------------------------------------

    /** The drone lookup of the log import: the drone of that name, which is
        created when there is none. */
    method FindOrCreateDrone(name: string) returns (id: int)
      requires Valid()
      modifies this`drones, this`nextDroneId
      ensures Valid()
      ensures id in drones && drones[id] == name
      ensures (exists d :: d in old(drones) && old(drones)[d] == name) ==> drones == old(drones)
      ensures (forall d :: d in old(drones) ==> old(drones)[d] != name) ==>
                id !in old(drones) && drones == old(drones)[id := name]
    {
      if d :| d in drones && drones[d] == name {
        return d;
      }
      id := nextDroneId;
      drones := drones[id := name];
      nextDroneId := nextDroneId + 1;
    }

    // -- settings ------------------------------------------------------

    function GetSetting(key: string): (r: Result<string>)
      reads this
      ensures r == LookupSetting(settings, key)
      ensures r.Err? <==> key !in settings && key != DipulMapLinkKey
    {
      SettingNotFoundIff(settings, key);
      LookupSetting(settings, key)
    }

    /** `create_or_update_setting`. */
    method UpsertSetting(key: string, value: string)
      modifies this`settings
      ensures settings == old(settings)[key := value]
      ensures GetSetting(key) == Ok(value)
    {
      settings := settings[key := value];
    }

    // -- battery pack usage --------------------------------------------

    /** `get_battery_pack_usage`: for every pack linked to a valid flight
        of the drone, the number of such flights and their summed robust
        duration. */
    method BatteryPackUsage(droneId: int) returns (r: Result<map<int, PackUsage>>)
      ensures droneId !in drones <==> r == Err(NotFound)
      ensures droneId in drones ==> r.Ok?
      ensures r.Ok? ==> r.value.Keys == PacksUsed(flights, droneId, flights.Keys)
      ensures r.Ok? ==> forall p :: p in r.value ==> r.value[p] == UsageOf(flights, droneId, flights.Keys, p)
      ensures r.Ok? ==> forall p :: p in r.value ==> r.value[p].flightCount > 0 && r.value[p].totalDuration >= 0.0
    {
      if droneId !in drones {
        return Err(NotFound);
      }
      var usage: map<int, PackUsage> := map[];
      var remaining := flights.Keys;
      while remaining != {}
        invariant remaining <= flights.Keys
        invariant usage.Keys == PacksUsed(flights, droneId, flights.Keys - remaining)
        invariant forall p :: p in usage ==> usage[p] == UsageOf(flights, droneId, flights.Keys - remaining, p)
        decreases remaining
      {
        NonEmpty(remaining);
        var f :| f in remaining;
        var done := flights.Keys - remaining;
        var flight := flights[f];
        if flight.droneId == droneId && flight.isValid {
          usage := CountFlight(flights, droneId, done, f, usage);
        } else {
          PacksUsedAdd(flights, droneId, done, f);
          forall p ensures UsageOf(flights, droneId, done + {f}, p) == UsageOf(flights, droneId, done, p) {
            UsageStep(flights, droneId, done, f, p);
          }
        }
        assert flights.Keys - (remaining - {f}) == done + {f};
        remaining := remaining - {f};
      }
      assert flights.Keys - remaining == flights.Keys;
      forall p | p in usage ensures usage[p].flightCount > 0 {
        var i, q :| i in flights.Keys && i in flights && flights[i].droneId == droneId && flights[i].isValid
                    && q in flights[i].packs && q == p;
        assert i in UsingFlights(flights, droneId, flights.Keys, p);
      }
      r := Ok(usage);
    }

    // -- flight locations ----------------------------------------------

    /** The valid flights at a location. */
    function FlightsAt(locationId: int): (s: set<int>)
      reads this
      ensures forall f :: f in s <==> f in flights && flights[f].isValid && flights[f].locationId == Some(locationId)
    {
      set f | f in flights && flights[f].isValid && flights[f].locationId == Some(locationId)
    }

    /** `delete_flight_location`: refused with the count while valid flights
        use the location; otherwise the row goes and the flights that still
        point at it (all invalid) lose their location. */
    method DeleteFlightLocation(id: int) returns (r: Result<()>)
      requires Valid()
      modifies this`locations, this`flights
      ensures Valid()
      ensures r == Err(NotFound) <==> id !in old(locations)
      ensures id in old(locations) && |old(FlightsAt(id))| == 0 ==> r.Ok?
      ensures r.Err? && r.error.LocationInUse? <==> id in old(locations) && |old(FlightsAt(id))| > 0
      ensures r.Err? ==> locations == old(locations) && flights == old(flights)
      ensures r.Err? && r.error.LocationInUse? ==> r.error.flights == |old(FlightsAt(id))|
      ensures r.Ok? ==> locations == old(locations) - {id} && flights.Keys == old(flights).Keys
      ensures r.Ok? ==> forall f :: f in flights ==>
                flights[f] == if old(flights)[f].locationId == Some(id) then old(flights)[f].(locationId := None)
                              else old(flights)[f]
      ensures r.Ok? ==> forall f :: f in flights ==> flights[f].locationId != Some(id)
    {
      if id !in locations {
        return Err(NotFound);
      }
      var associated := |FlightsAt(id)|;
      if associated > 0 {
        return Err(LocationInUse(associated));
      }
      locations := map l | l in locations && l != id :: locations[l];
      flights := map f | f in flights ::
        if flights[f].locationId == Some(id) then flights[f].(locationId := None) else flights[f];
      r := Ok(());
    }

    /** The scan of `db.query(FlightLocation).all()` for the first location
        within the radius of start, in id order. */
    method NearestStoredLocation(start: Coord, dist: Distance) returns (found: Option<int>)
      requires Valid()
      ensures found.Some? ==> found.value in locations && Near(dist, start, locations[found.value].coord)
      ensures found.Some? ==> forall l :: l in locations && l < found.value ==> !Near(dist, start, locations[l].coord)
      ensures found.None? ==> forall l :: l in locations ==> !Near(dist, start, locations[l].coord)
    {
      var l := 1;
      while l < nextLocationId
        invariant 1 <= l <= if nextLocationId < 1 then 1 else nextLocationId
        invariant forall k :: k in locations && k < l ==> !Near(dist, start, locations[k].coord)
        decreases nextLocationId - l
      {
        if l in locations && Near(dist, start, locations[l].coord) {
          return Some(l);
        }
        l := l + 1;
      }
      return None;
    }

    /** Stores a new flight location under the next id. */
    method AddLocation(start: Coord) returns (id: int)
      requires Valid()
      modifies this`locations, this`nextLocationId
      ensures Valid()
      ensures id !in old(locations) && locations == old(locations)[id := Location(start, true)]
    {
      id := nextLocationId;
      locations := locations[id := Location(start, true)];
      nextLocationId := nextLocationId + 1;
    }

    // -- flights -------------------------------------------------------

    /** Stores a new flight under the next id. */
    method AddFlight(f: Flight) returns (id: int)
      requires Valid()
      requires f.packs <= packs.Keys
      requires f.locationId.Some? ==> f.locationId.value in locations
      modifies this`flights, this`nextFlightId
      ensures Valid()
      ensures id !in old(flights) && flights == old(flights)[id := f]
    {
      id := nextFlightId;
      flights := flights[id := f];
      nextFlightId := nextFlightId + 1;
    }

    /** `create_flight`: finds or creates the location of the first sample
        (a new location is committed at once), runs the pack loop and
        commits the flight as valid, without its samples. A stored pack
        requested twice makes that commit fail: the flight and the cycles
        are rolled back, and a new location stays. */
    method CreateFlight(req: FlightRequest, dist: Distance) returns (r: Result<int>)
      requires Valid()
      modifies this`locations, this`nextLocationId, this`packs, this`flights, this`nextFlightId
      ensures Valid()
      ensures var ids := if req.packIds.Some? then req.packIds.value else [];
              r.Err? <==> RepeatsStoredPack(old(packs), ids)
      ensures r.Err? ==>
                && r == Err(LinkRepeated) && flights == old(flights) && packs == old(packs)
                && exists loc :: StartPlaced(old(locations), locations, StartOf(req.flightData), dist, loc)
      ensures r.Ok? ==> r.value !in old(flights) && flights.Keys == old(flights).Keys + {r.value}
      ensures r.Ok? ==> forall f :: f in old(flights) ==> flights[f] == old(flights)[f]
      ensures r.Ok? ==>
                var ids := if req.packIds.Some? then req.packIds.value else [];
                var loc := flights[r.value].locationId;
                && flights[r.value] == Flight(req.pilotId, req.droneId, loc, req.flightDate,
                                              None, req.notes, true, LinkedOnCreate(old(packs), ids), [])
                && packs == CyclesAfterCreate(old(packs), ids)
                && StartPlaced(old(locations), locations, StartOf(req.flightData), dist, loc)
    {
      var locationId: Option<int> := None;
      var start := StartOf(req.flightData);
      if start.Some? {
        var found := NearestStoredLocation(start.value, dist);
        if found.Some? {
          locationId := found;
        } else {
          var l := AddLocation(start.value);
          locationId := Some(l);
        }
      }
      assert StartPlaced(old(locations), locations, start, dist, locationId);
      var ids := if req.packIds.Some? then req.packIds.value else [];
      var saved := packs;
      var link := LinkPacks(ids);
      if RepeatsStoredPack(saved, ids) {
        packs := saved;
        return Err(LinkRepeated);
      }
      var id := AddFlight(Flight(req.pilotId, req.droneId, locationId, req.flightDate, None, req.notes, true, link, []));
      r := Ok(id);
    }

    /** The pack loop of `create_flight`. */
    method LinkPacks(ids: seq<int>) returns (link: set<int>)
      requires Valid()
      modifies this`packs
      ensures Valid()
      ensures link == LinkedOnCreate(old(packs), ids)
      ensures packs == CyclesAfterCreate(old(packs), ids)
    {
      link := {};
      var i := 0;
      while i < |ids|
        invariant 0 <= i <= |ids|
        invariant packs.Keys == old(packs).Keys
        invariant link == LinkedOnCreate(old(packs), ids[..i])
        invariant packs == CyclesAfterCreate(old(packs), ids[..i])
      {
        assert ids[..i + 1] == ids[..i] + [ids[i]];
        CreateStep(old(packs), ids[..i], ids[i]);
        if ids[i] in packs {
          link := link + {ids[i]};
          packs := packs[ids[i] := packs[ids[i]] + 1];
        }
        i := i + 1;
      }
      assert ids[..i] == ids;
    }

    /** `update_flight`: overwrites pilot, drone, date and notes and, when
        pack ids are given, brings the linked packs to those ids, moving
        cycles with the links. */
    method UpdateFlight(id: int, req: FlightRequest) returns (r: Result<Flight>)
      requires Valid()
      modifies this`packs, this`flights
      ensures Valid()
      ensures id !in old(flights) <==> r == Err(NotFound)
      ensures id in old(flights) ==> r.Ok?
      ensures r.Err? ==> packs == old(packs) && flights == old(flights)
      ensures r.Ok? ==> flights == old(flights)[id := r.value]
      ensures r.Ok? ==> r.value == old(flights)[id].(pilotId := req.pilotId, droneId := req.droneId,
                                                     flightDate := req.flightDate, notes := req.notes,
                                                     packs := r.value.packs)
      ensures r.Ok? && req.packIds.None? ==> r.value.packs == old(flights)[id].packs && packs == old(packs)
      ensures r.Ok? && req.packIds.Some? ==>
                var requested := set p | p in req.packIds.value;
                r.value.packs == requested * old(packs).Keys
                && packs == CyclesAfterUpdate(old(packs), old(flights)[id].packs, requested)
    {
      if id !in flights {
        return Err(NotFound);
      }
      var flight := flights[id];
      var link := flight.packs;
      if req.packIds.Some? {
        var requested := set p | p in req.packIds.value;
        link := RelinkPacks(flight.packs, requested);
        LinkBecomesRequested(flight.packs, requested, old(packs).Keys);
      }
      var updated := flight.(pilotId := req.pilotId, droneId := req.droneId, flightDate := req.flightDate,
                             notes := req.notes, packs := link);
      flights := flights[id := updated];
      r := Ok(updated);
    }

    /** The two pack loops of `update_flight`. */
    method RelinkPacks(current: set<int>, requested: set<int>) returns (link: set<int>)
      requires Valid()
      modifies this`packs
      ensures Valid()
      ensures link == LinkAfterUpdate(current, requested, old(packs).Keys)
      ensures packs == CyclesAfterUpdate(old(packs), current, requested)
    {
      link := current;
      var toRemove := current - requested;
      while toRemove != {}
        invariant toRemove <= current - requested
        invariant packs.Keys == old(packs).Keys
        invariant link == current - ((current - requested) - toRemove) * packs.Keys
        invariant forall p :: p in packs ==>
                    packs[p] == if p in (current - requested) - toRemove then old(packs)[p] - 1 else old(packs)[p]
        decreases toRemove
      {
        NonEmpty(toRemove);
        var p :| p in toRemove;
        if p in packs {
          link := link - {p};
          packs := packs[p := packs[p] - 1];
        }
        toRemove := toRemove - {p};
      }
      var toAdd := requested - current;
      while toAdd != {}
        invariant toAdd <= requested - current
        invariant packs.Keys == old(packs).Keys
        invariant link == (current - (current - requested) * packs.Keys) + ((requested - current) - toAdd) * packs.Keys
        invariant forall p :: p in packs ==>
                    packs[p] == if p in current - requested then old(packs)[p] - 1
                                else if p in (requested - current) - toAdd then old(packs)[p] + 1
                                else old(packs)[p]
        decreases toAdd
      {
        NonEmpty(toAdd);
        var p :| p in toAdd;
        if p in packs {
          link := link + {p};
          packs := packs[p := packs[p] + 1];
        }
        toAdd := toAdd - {p};
      }
      var expected := CyclesAfterUpdate(old(packs), current, requested);
      forall p | p in packs ensures packs[p] == expected[p] {
      }
    }

    /** The `flights` table in id order. */
    function FlightTable(): (rows: seq<FlightQuery.FlightRow>)
      reads this
      requires Valid()
      ensures FlightQuery.DistinctIds(rows)
      ensures forall x :: x in rows <==> x.id in flights && x.flight == flights[x.id]
    {
      Scan(flights, 1, nextFlightId)
    }

    /** `read_flights` over the current table. */
    function ReadFlights(q: FlightQuery.Query): (page: FlightQuery.Page)
      reads this
      requires Valid()
      ensures page.totalFlights == |set x | x in FlightTable() && FlightQuery.Matches(x.flight, q.filters)|
      ensures forall x :: x in page.flights ==>
                x.id in flights && x.flight == flights[x.id] && FlightQuery.Matches(x.flight, q.filters)
    {
      FlightQuery.TotalCountsMatchingFlights(FlightTable(), q);
      FlightQuery.ListedFlightsMatch(FlightTable(), q);
      FlightQuery.ReadFlights(FlightTable(), q)
    }
  }
}
