/** Station descriptors: how a record of the public station directory, or a
    row of the station cache file, becomes the descriptor that the merger
    reads (`makeStationList` and the row mapping of `csv2stations` in
    utils/netatmo-buddy.js). */
module Stations {

  /** `place.location`, the `[lon, lat]` pair of a directory record. */
  datatype Location = Location(lon: real, lat: real)

  datatype Place = Place(location: Location, altitude: real, timezone: string)

  /** One value of a directory record's `measures` object: the categories
      the module reports (its `type` list). Rain and wind modules are
      recognised by their id, so their `type` is never read. */
  datatype Measure = Measure(types: seq<string>)

  /** A record of the public station directory. `measures` lists the
      entries of the JavaScript object in its enumeration order, module id
      first. */
  datatype RawStation = RawStation(id: string, place: Place, measures: seq<(string, Measure)>)

  /** A station descriptor; `variables` maps a category to the id of the
      module that measures it. */
  datatype Station = Station(
    deviceId: string,
    lon: real,
    lat: real,
    altitude: real,
    timezone: string,
    variables: map<string, string>)

  // ---------------------------------------------------------------------
  // makeStationList
  // ---------------------------------------------------------------------

  /** `mod_id.slice(0, 2) === prefix` */
  predicate HasPrefix(id: string, prefix: string)
    requires |prefix| == 2
  {
    |id| >= 2 && id[..2] == prefix
  }

  predicate IsRainModule(id: string) {
    HasPrefix(id, "05")
  }

  predicate IsWindModule(id: string) {
    HasPrefix(id, "06")
  }

  /** Whether a `measures` entry files its module id under category `c`:
      a `05` module is the rain module, a `06` module the wind module, and
      any other module is filed under every category of its `type` list. */
  predicate Files(entry: (string, Measure), c: string) {
    if IsRainModule(entry.0) then c == "rain"
    else if IsWindModule(entry.0) then c == "wind"
    else c in entry.1.types
  }

  /** `sObj.variables[modType[t]] = mod_id` for each `t`, in order. */
  function AssignTypes(vars: map<string, string>, id: string, types: seq<string>): (r: map<string, string>)
    ensures r.Keys == vars.Keys + (set t | t in types)
    ensures forall t :: t in types ==> r[t] == id
    ensures forall c :: c in vars && c !in types ==> r[c] == vars[c]
  {
    if types == [] then vars
    else AssignTypes(vars, id, types[..|types| - 1])[types[|types| - 1] := id]
  }

  /** The writes one `measures` entry makes to `sObj.variables`. */
  function FileModule(vars: map<string, string>, entry: (string, Measure)): map<string, string> {
    if IsRainModule(entry.0) then vars["rain" := entry.0]
    else if IsWindModule(entry.0) then vars["wind" := entry.0]
    else AssignTypes(vars, entry.0, entry.1.types)
  }

  /** `sObj.variables` after the loop over all `measures` entries. */
  function ModuleVariables(measures: seq<(string, Measure)>): map<string, string> {
    if measures == [] then map[]
    else FileModule(ModuleVariables(measures[..|measures| - 1]), measures[|measures| - 1])
  }

  /** One entry changes exactly the categories it files, and sets them to
      its own module id. */
  lemma FileModuleWrites(vars: map<string, string>, entry: (string, Measure), c: string)
    ensures c in FileModule(vars, entry) <==> c in vars || Files(entry, c)
    ensures Files(entry, c) ==> FileModule(vars, entry)[c] == entry.0
    ensures c in vars && !Files(entry, c) ==> FileModule(vars, entry)[c] == vars[c]
  {
  }

  /** The index of the last entry that files a module under `c`, or -1:
      a reference definition that scans the entries from the end. */
  function LastFiling(measures: seq<(string, Measure)>, c: string): (k: int)
    ensures -1 <= k < |measures|
    ensures k >= 0 ==> Files(measures[k], c)
    ensures forall j :: k < j < |measures| ==> !Files(measures[j], c)
  {
    if measures == [] then -1
    else if Files(measures[|measures| - 1], c) then |measures| - 1
    else LastFiling(measures[..|measures| - 1], c)
  }

  /** Classification: a category is present exactly when some entry files
      a module under it, and then it holds the module id of the LAST such
      entry in enumeration order. */
  lemma {:induction false} LastModuleWins(measures: seq<(string, Measure)>, c: string)
    ensures c in ModuleVariables(measures) <==> LastFiling(measures, c) >= 0
    ensures c in ModuleVariables(measures) ==>
              ModuleVariables(measures)[c] == measures[LastFiling(measures, c)].0
  {
    if measures != [] {
      var n := |measures| - 1;
      var init := measures[..n];
      LastModuleWins(init, c);
      FileModuleWrites(ModuleVariables(init), measures[n], c);
      if !Files(measures[n], c) && LastFiling(init, c) >= 0 {
        assert measures[LastFiling(init, c)] == init[LastFiling(init, c)];
      }
    }
  }

  /** Every entry that files under `c` comes no later than the one whose
      id the category holds. */
  lemma FiledEntryIsPresent(measures: seq<(string, Measure)>, c: string, i: int)
    requires 0 <= i < |measures| && Files(measures[i], c)
    ensures c in ModuleVariables(measures)
    ensures i <= LastFiling(measures, c)
  {
    LastModuleWins(measures, c);
  }

  /** Classification for every category at once. */
  lemma ClassifyAll(measures: seq<(string, Measure)>)
    ensures forall c :: c in ModuleVariables(measures) <==> LastFiling(measures, c) >= 0
    ensures forall c :: c in ModuleVariables(measures) ==>
              ModuleVariables(measures)[c] == measures[LastFiling(measures, c)].0
  {
    forall c
      ensures c in ModuleVariables(measures) <==> LastFiling(measures, c) >= 0
      ensures c in ModuleVariables(measures) ==>
                ModuleVariables(measures)[c] == measures[LastFiling(measures, c)].0
    {
      LastModuleWins(measures, c);
    }
  }

  /** The descriptor `makeStationList` builds for one directory record: the
      record's id and place, and under each category the id of the last
      module filed there. */
  function Describe(s: RawStation): (r: Station)
    ensures r.deviceId == s.id && r.timezone == s.place.timezone
    ensures r.lon == s.place.location.lon && r.lat == s.place.location.lat
    ensures r.altitude == s.place.altitude
    ensures forall c :: c in r.variables <==> LastFiling(s.measures, c) >= 0
    ensures forall c :: c in r.variables ==> r.variables[c] == s.measures[LastFiling(s.measures, c)].0
  {
    ClassifyAll(s.measures);
    Station(s.id, s.place.location.lon, s.place.location.lat, s.place.altitude, s.place.timezone,
            ModuleVariables(s.measures))
  }

  /** The loop over `s.measures` that fills `sObj.variables`. */
  method ClassifyModules(measures: seq<(string, Measure)>) returns (variables: map<string, string>)
    ensures variables == ModuleVariables(measures)
  {
    variables := map[];
    var i := 0;
    while i < |measures|
      invariant 0 <= i <= |measures|
      invariant variables == ModuleVariables(measures[..i])
    {
      var (id, measure) := measures[i];
      assert measures[..i + 1][..i] == measures[..i];
      if HasPrefix(id, "05") {
        variables := variables["rain" := id];
      } else if HasPrefix(id, "06") {
        variables := variables["wind" := id];
      } else {
        ghost var before := variables;
        var modType := measure.types;
        var t := 0;
        while t < |modType|
          invariant 0 <= t <= |modType|
          invariant variables == AssignTypes(before, id, modType[..t])
        {
          assert modType[..t + 1][..t] == modType[..t];
          variables := variables[modType[t] := id];
          t := t + 1;
        }
        assert modType[..t] == modType;
      }
      i := i + 1;
    }
    assert measures[..i] == measures;
  }

  /** `makeStationList`: one descriptor per directory record, in order. */
  method MakeStationList(pData: seq<RawStation>) returns (list: seq<Station>)
    ensures |list| == |pData|
    ensures forall i :: 0 <= i < |pData| ==>
              && list[i].deviceId == pData[i].id
              && list[i].lon == pData[i].place.location.lon
              && list[i].lat == pData[i].place.location.lat
              && list[i].altitude == pData[i].place.altitude
              && list[i].timezone == pData[i].place.timezone
              && list[i].variables == ModuleVariables(pData[i].measures)
  {
    list := [];
    var k := 0;
    while k < |pData|
      invariant 0 <= k <= |pData|
      invariant |list| == k
      invariant forall i :: 0 <= i < k ==> list[i] == Describe(pData[i])
    {
      var s := pData[k];
      var variables := ClassifyModules(s.measures);
      var sObj := Station(s.id, s.place.location.lon, s.place.location.lat, s.place.altitude,
                          s.place.timezone, variables);
      list := list + [sObj];
      k := k + 1;
    }
  }

  // ---------------------------------------------------------------------
  // csv2stations, one row
  // ---------------------------------------------------------------------

  /** `header2var`: the cache file's module-id columns and their categories. */
  const HeaderToCategory: seq<(string, string)> :=
    [("t_id", "temperature"), ("h_id", "humidity"), ("p_id", "pressure"), ("r_id", "rain")]

  /** The categories the cache file has a column for. */
  const CachedCategories: set<string> := {"temperature", "humidity", "pressure", "rain"}

  /** A cell of a parsed row; a row has an entry for every column of the
      file, and a missing cell reads as the empty string. */
  function Cell(row: map<string, string>, header: string): string {
    if header in row then row[header] else ""
  }

  /** The `variables` object after the loop over the first headers `hs`:
      only non-empty cells are kept. */
  function RowVariables(row: map<string, string>, hs: seq<(string, string)>): map<string, string> {
    if hs == [] then map[]
    else
      var prev := RowVariables(row, hs[..|hs| - 1]);
      var (header, category) := hs[|hs| - 1];
      if Cell(row, header) != "" then prev[category := Cell(row, header)] else prev
  }

  ghost predicate DistinctCategories(hs: seq<(string, string)>) {
    forall i, j :: 0 <= i < j < |hs| ==> hs[i].1 != hs[j].1
  }

  /** Each category is present exactly when its column's cell is
      non-empty, and then holds that cell; no other key appears. */
  lemma {:induction false} RowVariablesKeepNonEmpty(row: map<string, string>, hs: seq<(string, string)>)
    requires DistinctCategories(hs)
    ensures forall i :: 0 <= i < |hs| ==>
              (hs[i].1 in RowVariables(row, hs) <==> Cell(row, hs[i].0) != "")
    ensures forall i :: 0 <= i < |hs| && hs[i].1 in RowVariables(row, hs) ==>
              RowVariables(row, hs)[hs[i].1] == Cell(row, hs[i].0)
    ensures forall c :: c in RowVariables(row, hs) ==> exists i :: 0 <= i < |hs| && hs[i].1 == c
  {
    if hs != [] {
      var n := |hs| - 1;
      RowVariablesKeepNonEmpty(row, hs[..n]);
      assert forall i :: 0 <= i < n ==> hs[..n][i] == hs[i];
    }
  }

  /** The cache row mapping of the four module-id columns. */
  lemma CacheColumns(row: map<string, string>)
    ensures var v := RowVariables(row, HeaderToCategory);
      && v.Keys <= CachedCategories
      && ("temperature" in v <==> Cell(row, "t_id") != "")
      && ("humidity" in v <==> Cell(row, "h_id") != "")
      && ("pressure" in v <==> Cell(row, "p_id") != "")
      && ("rain" in v <==> Cell(row, "r_id") != "")
      && ("temperature" in v ==> v["temperature"] == row["t_id"])
      && ("humidity" in v ==> v["humidity"] == row["h_id"])
      && ("pressure" in v ==> v["pressure"] == row["p_id"])
      && ("rain" in v ==> v["rain"] == row["r_id"])
  {
    RowVariablesKeepNonEmpty(row, HeaderToCategory);
    assert HeaderToCategory[0] == ("t_id", "temperature");
    assert HeaderToCategory[1] == ("h_id", "humidity");
    assert HeaderToCategory[2] == ("p_id", "pressure");
    assert HeaderToCategory[3] == ("r_id", "rain");
  }

  /** The descriptor built from one parsed row; `toNumber` is JavaScript's
      `Number`, left uninterpreted. */
  function StationOfRow(row: map<string, string>, toNumber: string -> real): Station {
    Station(Cell(row, "device_id"), toNumber(Cell(row, "lon")), toNumber(Cell(row, "lat")),
            toNumber(Cell(row, "altitude")), Cell(row, "timezone"), RowVariables(row, HeaderToCategory))
  }

  /** The callback of `parsed.map` in `csv2stations`. */
  method RowToStation(row: map<string, string>, toNumber: string -> real) returns (s: Station)
    ensures s == StationOfRow(row, toNumber)
  {
    var variables: map<string, string> := map[];
    var i := 0;
    while i < |HeaderToCategory|
      invariant 0 <= i <= |HeaderToCategory|
      invariant variables == RowVariables(row, HeaderToCategory[..i])
    {
      assert HeaderToCategory[..i + 1][..i] == HeaderToCategory[..i];
      var (header, category) := HeaderToCategory[i];
      if header in row && row[header] != "" {
        variables := variables[category := row[header]];
      }
      i := i + 1;
    }
    assert HeaderToCategory[..i] == HeaderToCategory;
    s := Station(Cell(row, "device_id"), toNumber(Cell(row, "lon")), toNumber(Cell(row, "lat")),
                 toNumber(Cell(row, "altitude")), Cell(row, "timezone"), variables);
  }

  // ---------------------------------------------------------------------
  // The cache file's column layout, as `stations2csv` writes it
  // ---------------------------------------------------------------------

  /** The value `json2csv` writes for `variables.<category>`: the module id,
      or an empty cell when the station has none. */
  function ModuleCell(vars: map<string, string>, category: string): string {
    if category in vars then vars[category] else ""
  }

  /** The row `stations2csv` writes for a station; `show` is the number
      formatting of json2csv, left uninterpreted. Its module-id columns are
      exactly the ones `header2var` reads back, each holding the id of its
      category or an empty cell. */
  function CacheRow(s: Station, show: real -> string): (r: map<string, string>)
    ensures r.Keys == {"device_id", "lon", "lat", "altitude", "timezone", "t_id", "h_id", "p_id", "r_id"}
    ensures r["device_id"] == s.deviceId && r["timezone"] == s.timezone
    ensures forall i :: 0 <= i < |HeaderToCategory| ==>
              r[HeaderToCategory[i].0] == ModuleCell(s.variables, HeaderToCategory[i].1)
  {
    map[
      "device_id" := s.deviceId,
      "lon" := show(s.lon),
      "lat" := show(s.lat),
      "altitude" := show(s.altitude),
      "timezone" := s.timezone,
      "t_id" := ModuleCell(s.variables, "temperature"),
      "h_id" := ModuleCell(s.variables, "humidity"),
      "p_id" := ModuleCell(s.variables, "pressure"),
      "r_id" := ModuleCell(s.variables, "rain")
    ]
  }

  /** The module ids that survive the cache file: the four cached
      categories with a non-empty id. */
  function CachedVariables(vars: map<string, string>): map<string, string> {
    map c | c in vars && c in CachedCategories && vars[c] != "" :: vars[c]
  }

  /** Writing a station to the cache and reading the row back gives the
      station again, except that only the cached module ids survive: a
      wind module, having no column, is lost. */
  lemma CacheRoundTrip(s: Station, show: real -> string, toNumber: string -> real)
    requires toNumber(show(s.lon)) == s.lon
    requires toNumber(show(s.lat)) == s.lat
    requires toNumber(show(s.altitude)) == s.altitude
    ensures StationOfRow(CacheRow(s, show), toNumber) == s.(variables := CachedVariables(s.variables))
    ensures "wind" !in StationOfRow(CacheRow(s, show), toNumber).variables
  {
    var row := CacheRow(s, show);
    CachedModuleIds(s, show);
    assert Cell(row, "lon") == show(s.lon);
    assert Cell(row, "lat") == show(s.lat);
    assert Cell(row, "altitude") == show(s.altitude);
  }

  /** The module-id columns of a written row read back as the cached ids. */
  lemma CachedModuleIds(s: Station, show: real -> string)
    ensures RowVariables(CacheRow(s, show), HeaderToCategory) == CachedVariables(s.variables)
  {
    var row := CacheRow(s, show);
    var v := RowVariables(row, HeaderToCategory);
    CacheColumns(row);
    assert Cell(row, "t_id") == ModuleCell(s.variables, "temperature");
    assert Cell(row, "h_id") == ModuleCell(s.variables, "humidity");
    assert Cell(row, "p_id") == ModuleCell(s.variables, "pressure");
    assert Cell(row, "r_id") == ModuleCell(s.variables, "rain");
    assert v.Keys == CachedVariables(s.variables).Keys;
  }
}
