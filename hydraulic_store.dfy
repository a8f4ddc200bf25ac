/**
 * The hydrograph store of the 2D flood tool: hydrographs ("Ganglinien") by
 * id, the assignment of geo objects (nodes, boundaries) to hydrographs, and
 * the active hydrograph, and the rain input (rain series, KOSTRA grid, rain
 * location and configuration). `crypto.randomUUID()` is a parameter; the
 * rain series and the KOSTRA grid are kept as their JSON text.
 */
module HydraulicStore {
  import opened Wrappers

  /** One sample of a hydrograph: time in seconds and value. */
  datatype Sample = Sample(t: real, v: real)

  datatype Ganglinie = Ganglinie(id: string, name: string, kind: string, data: seq<Sample>)

  /** The location the rain data belongs to. */
  datatype Location = Location(lat: real, lon: real)

  /** `rainConfig`. */
  datatype RainConfig = RainConfig(duration: real, returnPeriod: real, modelType: string)

  /** A configuration object passed to `setRainData`: the keys it has. */
  datatype ConfigUpdate = ConfigUpdate(duration: Option<real>, returnPeriod: Option<real>, modelType: Option<string>)

  /** Lines 24-28: the initial configuration. */
  const InitialRainConfig := RainConfig(0.0, 0.0, "")

  /** `{ ...config, ...update }`: every key the update has overrides, the others stay. */
  function Merged(config: RainConfig, update: ConfigUpdate): (r: RainConfig)
    ensures r.duration == (if update.duration.Some? then update.duration.value else config.duration)
    ensures r.returnPeriod == (if update.returnPeriod.Some? then update.returnPeriod.value else config.returnPeriod)
    ensures r.modelType == (if update.modelType.Some? then update.modelType.value else config.modelType)
  {
    RainConfig(
      if update.duration.Some? then update.duration.value else config.duration,
      if update.returnPeriod.Some? then update.returnPeriod.value else config.returnPeriod,
      if update.modelType.Some? then update.modelType.value else config.modelType)
  }

  /** Merging an update twice is merging it once, and an empty update changes nothing. */
  lemma MergedIdempotent(config: RainConfig, update: ConfigUpdate)
    ensures Merged(Merged(config, update), update) == Merged(config, update)
    ensures Merged(config, ConfigUpdate(None, None, None)) == config
  {
  }

  /** `type || 'Zufluss'`: a missing or empty type means inflow. */
  function KindOrDefault(kind: Option<string>): (k: string)
    ensures kind.Some? && kind.value != "" ==> k == kind.value
    ensures kind.None? || kind.value == "" ==> k == "Zufluss"
  {
    if kind.None? || kind.value == "" then "Zufluss" else kind.value
  }

  /** Lines 36-41: a new hydrograph, flat at zero for one hour. */
  function NewGanglinie(id: string, name: string, kind: Option<string>): Ganglinie {
    Ganglinie(id, name, KindOrDefault(kind), [Sample(0.0, 0.0), Sample(3600.0, 0.0)])
  }

  /** The geo objects assigned to hydrograph `id`. */
  function AssignedTo(assignments: map<string, string>, id: string): set<string> {
    set geoId | geoId in assignments && assignments[geoId] == id
  }

  /** Lines 50-54: the assignments with every one to `id` removed. */
  function Unassigned(assignments: map<string, string>, id: string): (r: map<string, string>)
    ensures forall geoId :: geoId in r <==> geoId in assignments && assignments[geoId] != id
    ensures forall geoId :: geoId in r ==> r[geoId] == assignments[geoId]
  {
    map geoId | geoId in assignments && assignments[geoId] != id :: assignments[geoId]
  }

  /** Lines 80-82: every geo object of `geoIds`, in order, assigned to `target`. */
  function Assigned(assignments: map<string, string>, geoIds: seq<string>, target: string): map<string, string>
    decreases |geoIds|
  {
    if geoIds == [] then assignments
    else Assigned(assignments, geoIds[..|geoIds| - 1], target)[geoIds[|geoIds| - 1] := target]
  }

  /** The listed objects now point to `target`; every other object keeps its assignment or lack of one. */
  lemma {:induction false} AssignedFacts(assignments: map<string, string>, geoIds: seq<string>, target: string)
    ensures var r := Assigned(assignments, geoIds, target);
      && (forall geoId :: geoId in r <==> geoId in assignments || geoId in geoIds)
      && (forall geoId :: geoId in geoIds ==> r[geoId] == target)
      && (forall geoId :: geoId in assignments && geoId !in geoIds ==> r[geoId] == assignments[geoId])
    decreases |geoIds|
  {
    if geoIds != [] {
      var init := geoIds[..|geoIds| - 1];
      AssignedFacts(assignments, init, target);
      assert forall geoId :: geoId in geoIds <==> geoId in init || geoId == geoIds[|geoIds| - 1];
    }
  }

  /** The count for `target` grows by the newly assigned objects; every other hydrograph loses those objects. */
  lemma AssignedCounts(assignments: map<string, string>, geoIds: seq<string>, target: string, other: string)
    requires other != target
    ensures AssignedTo(Assigned(assignments, geoIds, target), target) == AssignedTo(assignments, target) + set geoId | geoId in geoIds
    ensures AssignedTo(Assigned(assignments, geoIds, target), other) == AssignedTo(assignments, other) - set geoId | geoId in geoIds
  {
    AssignedFacts(assignments, geoIds, target);
  }

  /** After removing the assignments to `id` none is left, and those to other hydrographs stay. */
  lemma UnassignedCounts(assignments: map<string, string>, id: string, other: string)
    requires other != id
    ensures AssignedTo(Unassigned(assignments, id), id) == {}
    ensures AssignedTo(Unassigned(assignments, id), other) == AssignedTo(assignments, other)
  {
    assert forall geoId :: geoId in AssignedTo(Unassigned(assignments, id), id) ==> false;
  }

  /** Every assignment names an existing hydrograph, and so does the active one. */
  predicate Consistent(ganglinien: map<string, Ganglinie>, assignments: map<string, string>, active: Option<string>) {
    && (forall geoId :: geoId in assignments ==> assignments[geoId] in ganglinien)
    && (active.Some? ==> active.value in ganglinien)
  }

  /** The loop in `deleteGanglinie` over the geo objects: each one assigned to `id` is dropped. */
  method DropAssignments(assignments: map<string, string>, id: string) returns (remaining: map<string, string>)
    ensures remaining == Unassigned(assignments, id)
  {
    remaining := assignments;
    var keys := assignments.Keys;
    while keys != {}
      invariant keys <= assignments.Keys
      invariant forall geoId :: geoId in remaining <==> geoId in assignments && (geoId in keys || assignments[geoId] != id)
      invariant forall geoId :: geoId in remaining ==> remaining[geoId] == assignments[geoId]
      decreases |keys|
    {
      var geoId :| geoId in keys;
      if remaining[geoId] == id {
        remaining := remaining - {geoId};
      }
      keys := keys - {geoId};
    }
    assert remaining.Keys == Unassigned(assignments, id).Keys;
  }

  class Store {
    var ganglinien: map<string, Ganglinie>
    var assignments: map<string, string>
    var activeGanglinieId: Option<string>
    var rainData: seq<string>
    var kostraGrid: Option<string>
    var rainLocation: Option<Location>
    var rainConfig: RainConfig

    /** The rain input, which only `setKostraGrid` and `setRainData` change. */
    function Rain(): (seq<string>, Option<string>, Option<Location>, RainConfig)
      reads this
    {
      (rainData, kostraGrid, rainLocation, rainConfig)
    }

    ghost predicate Valid()
      reads this
    {
      Consistent(ganglinien, assignments, activeGanglinieId)
    }

    /** Lines 9-31: no hydrographs, no assignments, none active. */
    constructor()
      ensures Valid()
      ensures ganglinien == map[] && assignments == map[] && activeGanglinieId == None
      ensures Rain() == ([], None, None, InitialRainConfig)
    {
      ganglinien, assignments, activeGanglinieId := map[], map[], None;
      rainData, kostraGrid, rainLocation, rainConfig := [], None, None, InitialRainConfig;
    }

    /** `createGanglinie` with `uuid` for `crypto.randomUUID()`: stores and returns the new hydrograph's id. */
    method CreateGanglinie(uuid: string, name: string, kind: Option<string>) returns (id: string)
      requires Valid()
      modifies this
      ensures Valid()
      ensures id == uuid && ganglinien == old(ganglinien)[id := NewGanglinie(id, name, kind)]
      ensures assignments == old(assignments) && activeGanglinieId == old(activeGanglinieId)
      ensures Rain() == old(Rain())
    {
      id := uuid;
      ganglinien := ganglinien[id := Ganglinie(id, name, KindOrDefault(kind), [Sample(0.0, 0.0), Sample(3600.0, 0.0)])];
    }

    /** `deleteGanglinie`: the hydrograph, every assignment to it and its activation go. */
    method DeleteGanglinie(id: string)
      requires Valid()
      modifies this
      ensures Valid()
      ensures ganglinien == old(ganglinien) - {id}
      ensures assignments == Unassigned(old(assignments), id)
      ensures activeGanglinieId == if old(activeGanglinieId) == Some(id) then None else old(activeGanglinieId)
      ensures Rain() == old(Rain())
    {
      if id in ganglinien {
        ganglinien := ganglinien - {id};
      }
      var remaining := DropAssignments(assignments, id);
      assignments := remaining;
      if activeGanglinieId == Some(id) {
        activeGanglinieId := None;
      }
    }

    /** `updateGanglinieData`: only an existing hydrograph gets the new samples. */
    method UpdateGanglinieData(id: string, points: seq<Sample>)
      requires Valid()
      modifies this
      ensures Valid()
      ensures ganglinien == if id in old(ganglinien) then old(ganglinien)[id := old(ganglinien)[id].(data := points)] else old(ganglinien)
      ensures assignments == old(assignments) && activeGanglinieId == old(activeGanglinieId)
      ensures Rain() == old(Rain())
    {
      if id in ganglinien {
        ganglinien := ganglinien[id := ganglinien[id].(data := points)];
      }
    }

    /** `setActiveGanglinie`: accepts an existing id or none, and ignores anything else. */
    method SetActiveGanglinie(id: Option<string>)
      requires Valid()
      modifies this
      ensures Valid()
      ensures activeGanglinieId == if id.None? || id.value in ganglinien then id else old(activeGanglinieId)
      ensures ganglinien == old(ganglinien) && assignments == old(assignments)
      ensures Rain() == old(Rain())
    {
      if id.None? || id.value in ganglinien {
        activeGanglinieId := id;
      }
    }

    /** `assignToObjects`: a no-op for an unknown hydrograph, else each listed object points to it. */
    method AssignToObjects(geoIds: seq<string>, ganglinieId: string)
      requires Valid()
      modifies this
      ensures Valid()
      ensures assignments == if ganglinieId in ganglinien then Assigned(old(assignments), geoIds, ganglinieId) else old(assignments)
      ensures ganglinien == old(ganglinien) && activeGanglinieId == old(activeGanglinieId)
      ensures Rain() == old(Rain())
    {
      if ganglinieId in ganglinien {
        var acc := assignments;
        for i := 0 to |geoIds|
          invariant acc == Assigned(assignments, geoIds[..i], ganglinieId)
        {
          assert geoIds[..i + 1][..i] == geoIds[..i];
          acc := acc[geoIds[i] := ganglinieId];
        }
        assert geoIds[..|geoIds|] == geoIds;
        AssignedFacts(assignments, geoIds, ganglinieId);
        assignments := acc;
      }
    }

    /** `setKostraGrid`: the grid and its location are replaced; nothing else changes. */
    method SetKostraGrid(raw: Option<string>, location: Option<Location>)
      requires Valid()
      modifies this
      ensures Valid()
      ensures kostraGrid == raw && rainLocation == location
      ensures rainData == old(rainData) && rainConfig == old(rainConfig)
      ensures ganglinien == old(ganglinien) && assignments == old(assignments) && activeGanglinieId == old(activeGanglinieId)
    {
      kostraGrid := raw;
      rainLocation := location;
    }

    /** `setRainData`: the series is replaced, and a given configuration is merged into the old one. */
    method SetRainData(data: seq<string>, config: Option<ConfigUpdate>)
      requires Valid()
      modifies this
      ensures Valid()
      ensures rainData == data
      ensures rainConfig == if config.Some? then Merged(old(rainConfig), config.value) else old(rainConfig)
      ensures kostraGrid == old(kostraGrid) && rainLocation == old(rainLocation)
      ensures ganglinien == old(ganglinien) && assignments == old(assignments) && activeGanglinieId == old(activeGanglinieId)
    {
      rainData := data;
      if config.Some? {
        rainConfig := Merged(rainConfig, config.value);
      }
    }

    /** `getAssignmentsByGanglinie`: how many geo objects point to `id`. */
    method GetAssignmentsByGanglinie(id: string) returns (count: nat)
      ensures count == |AssignedTo(assignments, id)|
    {
      count := 0;
      var keys := assignments.Keys;
      var counted: set<string> := {};
      while keys != {}
        invariant keys <= assignments.Keys
        invariant counted == set geoId | geoId in assignments && geoId !in keys && assignments[geoId] == id
        invariant count == |counted|
        decreases |keys|
      {
        var key :| key in keys;
        if assignments[key] == id {
          counted := counted + {key};
          count := count + 1;
        }
        keys := keys - {key};
      }
      assert counted == AssignedTo(assignments, id);
    }
  }
}
