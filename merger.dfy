/** The variable merger (`multipleVars` in utils/netatmo-buddy.js): fetch
    every requested variable of one station in turn, fold the answers into
    an intermediate table keyed by timestamp, and emit one record per
    timestamp with a field for every requested variable. */
module Merger {
  import opened Wrappers
  import Aliases
  import Keys
  import Stations
  import P = Paginator

  /** The caller's `params`: everything of a request but the station part. */
  datatype Params = Params(accessToken: string, scale: string, dateBegin: int, dateEnd: int)

  /** The values of one timestamp, by requested variable name; `None` is
      JavaScript's `undefined`. */
  type Row = map<string, Option<real>>

  /** `inter`: timestamp to the row gathered so far. */
  type Inter = map<int, Row>

  /** One output record; `fields` holds a key for every requested variable.
      The derived `date` field is not modelled. */
  datatype Record = Record(deviceId: string, timestamp: int, fields: Row)

  /** The module that measures a variable's category on the station, when
      the station's entry for that category is a non-empty id. */
  function ModuleOf(station: Stations.Station, variable: string): (r: Option<string>)
    ensures r.Some? <==> (Aliases.Var2ModVar(variable) in station.variables
                          && station.variables[Aliases.Var2ModVar(variable)] != "")
    ensures r.Some? ==> r.value == station.variables[Aliases.Var2ModVar(variable)] && r.value != ""
  {
    var category := Aliases.Var2ModVar(variable);
    if category in station.variables && station.variables[category] != "" then
      Some(station.variables[category])
    else
      None
  }

  /** `vParams`: the request for one variable; `type` is the name the caller
      asked for, not its category. */
  function VarWindow(station: Stations.Station, params: Params, variable: string, moduleId: string): (r: P.Window)
    ensures r.varType == variable && r.deviceId == station.deviceId && r.moduleId == moduleId
    ensures r.accessToken == params.accessToken && r.scale == params.scale
    ensures r.dateBegin == params.dateBegin && r.dateEnd == params.dateEnd
  {
    P.Window(params.accessToken, station.deviceId, moduleId, variable, params.scale, params.dateBegin, params.dateEnd)
  }

  /** `obs[key][0]`: the first value of a timestamp, undefined for an empty list. */
  function First(vals: seq<real>): Option<real> {
    if vals == [] then None else Some(vals[0])
  }

  /** The outcome of paginating one variable, or `None` when the station has
      no module for it and nothing is requested. */
  ghost function VarResult(station: Stations.Station, params: Params, variable: string, fetch: P.Window -> Result<P.Page>): Option<Result<P.Page>>
    requires P.WithinWindow(fetch)
  {
    match ModuleOf(station, variable)
    case None => None
    case Some(m) => Some(P.Paginate(fetch, VarWindow(station, params, variable, m)))
  }

  /** The variable was fetched and its answer holds timestamp `t`. */
  ghost predicate HasObs(station: Stations.Station, params: Params, fetch: P.Window -> Result<P.Page>, variable: string, t: int)
    requires P.WithinWindow(fetch)
  {
    var vr := VarResult(station, params, variable, fetch);
    vr.Some? && vr.value.Success? && t in vr.value.value
  }

  /** The fetch of this variable failed. */
  ghost predicate Fails(station: Stations.Station, params: Params, fetch: P.Window -> Result<P.Page>, variable: string)
    requires P.WithinWindow(fetch)
  {
    var vr := VarResult(station, params, variable, fetch);
    vr.Some? && vr.value.Failure?
  }

  // ---------------------------------------------------------------------
  // Folding one variable's answer into the table
  // ---------------------------------------------------------------------

  function Entry(inter: Inter, t: int): Row {
    if t in inter then inter[t] else map[]
  }

  /** The table after `inter[key][variable] = obs[key][0]` for every key. */
  function MergeVar(inter: Inter, variable: string, obs: P.Page): Inter {
    map t | t in inter.Keys + obs.Keys ::
      if t in obs then Entry(inter, t)[variable := First(obs[t])] else inter[t]
  }

  /** What the fold does to one cell: a timestamp of the answer gets the
      variable's first value, every other cell keeps its value. */
  lemma MergeVarCell(inter: Inter, variable: string, obs: P.Page, t: int, u: string)
    ensures var r := MergeVar(inter, variable, obs);
      && (t in r <==> t in inter || t in obs)
      && (t in r ==> (u in r[t] <==> u in Entry(inter, t) || (u == variable && t in obs)))
      && (t in r && u in r[t] ==>
            r[t][u] == if u == variable && t in obs then First(obs[t]) else inter[t][u])
  {
  }

  /** `for (let key in obs) { … inter[key][variable] = obs[key][0]; }` */
  method FoldPage(inter: Inter, variable: string, obs: P.Page) returns (r: Inter)
    ensures r == MergeVar(inter, variable, obs)
  {
    r := inter;
    var rest := obs.Keys;
    while rest != {}
      invariant rest <= obs.Keys
      invariant r == MergeVar(inter, variable, Seen(obs, rest))
      decreases rest
    {
      Keys.HasElement(rest);
      var key :| key in rest;
      var row := if key in r then r[key] else map[];
      r := r[key := row[variable := First(obs[key])]];
      FoldOneMore(inter, variable, obs, rest, key);
      rest := rest - {key};
    }
    assert Seen(obs, rest) == obs;
  }

  /** The part of an answer already folded in. */
  function Seen(obs: P.Page, rest: set<int>): P.Page {
    map t | t in obs && t !in rest :: obs[t]
  }

  lemma FoldOneMore(inter: Inter, variable: string, obs: P.Page, rest: set<int>, key: int)
    requires key in rest && rest <= obs.Keys
    ensures var before := MergeVar(inter, variable, Seen(obs, rest));
      MergeVar(inter, variable, Seen(obs, rest - {key}))
        == before[key := Entry(before, key)[variable := First(obs[key])]]
  {
    var before := MergeVar(inter, variable, Seen(obs, rest));
    assert key !in Seen(obs, rest);
    assert Entry(before, key) == Entry(inter, key);
  }

  // ---------------------------------------------------------------------
  // The series over the requested variables
  // ---------------------------------------------------------------------

  /** The table and the request log after some variables. */
  datatype Gathered = Gathered(inter: Result<Inter>, sent: seq<P.Window>)

  /** `async.eachSeries(variables, …)`: the state after the variables
      `vars`, in order. A skipped variable changes nothing; a failed fetch
      stops the series with its error. */
  ghost function Gather(station: Stations.Station, params: Params, vars: seq<string>, fetch: P.Window -> Result<P.Page>): Gathered
    requires P.WithinWindow(fetch)
    decreases |vars|
  {
    if vars == [] then Gathered(Success(map[]), [])
    else
      var g := Gather(station, params, vars[..|vars| - 1], fetch);
      var v := vars[|vars| - 1];
      if g.inter.Failure? then g
      else
        match ModuleOf(station, v)
        case None => g
        case Some(m) =>
          var w := VarWindow(station, params, v, m);
          var sent := g.sent + P.Requests(P.Rounds(fetch, w));
          match P.Paginate(fetch, w)
          case Failure(e) => Gathered(Failure(e), sent)
          case Success(obs) => Gathered(Success(MergeVar(g.inter.value, v, obs)), sent)
  }

  /** What `multipleVars` reports: the first error, or the records. */
  ghost function Collect(station: Stations.Station, params: Params, vars: seq<string>, fetch: P.Window -> Result<P.Page>): Result<seq<Record>>
    requires P.WithinWindow(fetch)
  {
    var g := Gather(station, params, vars, fetch);
    if g.inter.Failure? then Failure(g.inter.error) else Success(Records(station.deviceId, g.inter.value, vars))
  }

  /** `tstep`: a field for every requested variable, `undefined` where the
      row has no value. */
  function Fill(row: Row, vars: seq<string>): Row {
    map v | v in vars :: if v in row then row[v] else None
  }

  /** `dataArr`: one record per timestamp of the table, in the order
      JavaScript enumerates `inter`'s keys. */
  ghost function Records(deviceId: string, inter: Inter, vars: seq<string>): seq<Record> {
    var ks := Keys.Ascending(inter.Keys);
    seq(|ks|, i requires 0 <= i < |ks| => Record(deviceId, ks[i], Fill(Entry(inter, ks[i]), vars)))
  }

  /** `for (let i = 0; i < variables.length; i++) tstep[v] = inter[key][v];` */
  method FillFields(row: Row, vars: seq<string>) returns (fields: Row)
    ensures fields == Fill(row, vars)
  {
    fields := map[];
    var i := 0;
    while i < |vars|
      invariant 0 <= i <= |vars|
      invariant fields == Fill(row, vars[..i])
    {
      var v := vars[i];
      fields := fields[v := if v in row then row[v] else None];
      assert vars[..i + 1] == vars[..i] + [v];
      i := i + 1;
    }
    assert vars[..i] == vars;
  }

  /** `for (let key in inter) dataArr.push(tstep)` */
  method EmitRecords(deviceId: string, inter: Inter, vars: seq<string>) returns (dataArr: seq<Record>)
    ensures dataArr == Records(deviceId, inter, vars)
  {
    var ks := Keys.AscendingKeys(inter.Keys);
    Keys.AscendingMembers(inter.Keys);
    dataArr := [];
    var i := 0;
    while i < |ks|
      invariant 0 <= i <= |ks|
      invariant |dataArr| == i
      invariant forall j :: 0 <= j < i ==> dataArr[j] == Record(deviceId, ks[j], Fill(Entry(inter, ks[j]), vars))
    {
      var key := ks[i];
      assert key in inter;
      var fields := FillFields(inter[key], vars);
      dataArr := dataArr + [Record(deviceId, key, fields)];
      i := i + 1;
    }
    RecordsAre(deviceId, inter, vars, dataArr);
  }

  lemma RecordsAre(deviceId: string, inter: Inter, vars: seq<string>, dataArr: seq<Record>)
    requires var ks := Keys.Ascending(inter.Keys);
      && |dataArr| == |ks|
      && forall j :: 0 <= j < |ks| ==> dataArr[j] == Record(deviceId, ks[j], Fill(Entry(inter, ks[j]), vars))
    ensures dataArr == Records(deviceId, inter, vars)
  {
  }

  /** `multipleVars`: one station, the requested variables in order. */
  method MultipleVars(sInfo: Stations.Station, params: Params, variables: seq<string>, fetch: P.Window -> Result<P.Page>)
    returns (r: Result<seq<Record>>, sent: seq<P.Window>)
    requires P.WithinWindow(fetch)
    ensures r == Collect(sInfo, params, variables, fetch)
    ensures sent == Gather(sInfo, params, variables, fetch).sent
  {
    var inter: Inter := map[];
    sent := [];
    var i := 0;
    while i < |variables|
      invariant 0 <= i <= |variables|
      invariant Gather(sInfo, params, variables[..i], fetch) == Gathered(Success(inter), sent)
    {
      var variable := variables[i];
      var modVar := Aliases.Var2ModVar(variable);
      assert variables[..i + 1][..i] == variables[..i];
      if modVar in sInfo.variables && sInfo.variables[modVar] != "" {
        var vParams := VarWindow(sInfo, params, variable, sInfo.variables[modVar]);
        var obs, log := P.GetManyMeasures(vParams, fetch);
        sent := sent + log;
        if obs.Failure? {
          FailureSticks(sInfo, params, variables, fetch, i + 1);
          r := Failure(obs.error);
          return;
        }
        inter := FoldPage(inter, variable, obs.value);
      }
      i := i + 1;
    }
    assert variables[..i] == variables;
    var dataArr := EmitRecords(sInfo.deviceId, inter, variables);
    r := Success(dataArr);
  }

  /** Once a fetch fails, the later variables change nothing. */
  lemma {:induction false} FailureSticks(station: Stations.Station, params: Params, vars: seq<string>, fetch: P.Window -> Result<P.Page>, n: nat)
    requires P.WithinWindow(fetch)
    requires n <= |vars|
    requires Gather(station, params, vars[..n], fetch).inter.Failure?
    ensures Gather(station, params, vars, fetch) == Gather(station, params, vars[..n], fetch)
    decreases |vars| - n
  {
    if n < |vars| {
      var pre := vars[..|vars| - 1];
      assert pre[..n] == vars[..n];
      FailureSticks(station, params, pre, fetch, n);
    } else {
      assert vars[..n] == vars;
    }
  }

  // ---------------------------------------------------------------------
  // What the merger promises
  // ---------------------------------------------------------------------

  /** The index of the first requested variable whose fetch fails, or -1:
      a reference definition independent of the series. */
  ghost function FirstFailure(station: Stations.Station, params: Params, vars: seq<string>, fetch: P.Window -> Result<P.Page>): (k: int)
    requires P.WithinWindow(fetch)
    ensures -1 <= k < |vars|
    ensures k >= 0 ==> Fails(station, params, fetch, vars[k])
    ensures forall i :: 0 <= i < |vars| && (k < 0 || i < k) ==> !Fails(station, params, fetch, vars[i])
    decreases |vars|
  {
    if vars == [] then -1
    else
      var pre := vars[..|vars| - 1];
      var k := FirstFailure(station, params, pre, fetch);
      assert forall i :: 0 <= i < |pre| ==> vars[i] == pre[i];
      if k >= 0 then k
      else if Fails(station, params, fetch, vars[|vars| - 1]) then |vars| - 1
      else -1
  }

  /** The series fails exactly when some requested variable's fetch fails,
      and then with the error of the first one that does. */
  lemma {:induction false} GatherFailure(station: Stations.Station, params: Params, vars: seq<string>, fetch: P.Window -> Result<P.Page>)
    requires P.WithinWindow(fetch)
    ensures var g := Gather(station, params, vars, fetch);
      var k := FirstFailure(station, params, vars, fetch);
      && (g.inter.Failure? <==> k >= 0)
      && (g.inter.Failure? ==> g.inter.error == VarResult(station, params, vars[k], fetch).value.error)
    decreases |vars|
  {
    if vars != [] {
      var pre := vars[..|vars| - 1];
      GatherFailure(station, params, pre, fetch);
    }
  }

  /** The table after a successful series: a cell holds a value exactly for
      a requested variable whose answer has that timestamp, and the value is
      the first of that answer's list there. */
  lemma {:induction false} GatherCell(station: Stations.Station, params: Params, vars: seq<string>, fetch: P.Window -> Result<P.Page>, t: int, u: string)
    requires P.WithinWindow(fetch)
    requires Gather(station, params, vars, fetch).inter.Success?
    ensures var inter := Gather(station, params, vars, fetch).inter.value;
      && (t in inter && u in inter[t] <==> u in vars && HasObs(station, params, fetch, u, t))
      && (t in inter && u in inter[t] ==>
            inter[t][u] == First(VarResult(station, params, u, fetch).value.value[t]))
    decreases |vars|
  {
    if vars != [] {
      var n := |vars| - 1;
      var pre := vars[..n];
      var v := vars[n];
      GatherCell(station, params, pre, fetch, t, u);
      assert vars == pre + [v];
      var g := Gather(station, params, pre, fetch);
      match ModuleOf(station, v)
      case None =>
      case Some(m) =>
        var obs := P.Paginate(fetch, VarWindow(station, params, v, m)).value;
        MergeVarCell(g.inter.value, v, obs, t, u);
    }
  }

  /** Every timestamp of the table has at least one value in its row. */
  lemma {:induction false} GatherKeysObserved(station: Stations.Station, params: Params, vars: seq<string>, fetch: P.Window -> Result<P.Page>, t: int)
    requires P.WithinWindow(fetch)
    requires Gather(station, params, vars, fetch).inter.Success?
    requires t in Gather(station, params, vars, fetch).inter.value
    ensures Observed(station, params, fetch, vars, t)
    decreases |vars|
  {
    var n := |vars| - 1;
    var pre := vars[..n];
    var v := vars[n];
    assert vars == pre + [v];
    var g := Gather(station, params, pre, fetch);
    match ModuleOf(station, v)
    case None =>
      GatherKeysObserved(station, params, pre, fetch, t);
    case Some(m) =>
      var obs := P.Paginate(fetch, VarWindow(station, params, v, m)).value;
      if t in obs {
        assert HasObs(station, params, fetch, v, t);
      } else {
        GatherKeysObserved(station, params, pre, fetch, t);
      }
  }

  /** Some record has timestamp `t`. */
  ghost predicate Emitted(rs: seq<Record>, t: int) {
    exists i :: 0 <= i < |rs| && rs[i].timestamp == t
  }

  /** Some requested variable was fetched and has a value list at `t`. */
  ghost predicate Observed(station: Stations.Station, params: Params, fetch: P.Window -> Result<P.Page>, vars: seq<string>, t: int)
    requires P.WithinWindow(fetch)
  {
    exists u :: u in vars && HasObs(station, params, fetch, u, t)
  }

  /** The records of a table come one per timestamp, strictly ascending. */
  lemma RecordsOrder(deviceId: string, inter: Inter, vars: seq<string>)
    ensures var rs := Records(deviceId, inter, vars);
      && |rs| == |inter|
      && (forall i, j :: 0 <= i < j < |rs| ==> rs[i].timestamp < rs[j].timestamp)
  {
    Keys.AscendingEnumerates(inter.Keys);
    var ks := Keys.Ascending(inter.Keys);
    var rs := Records(deviceId, inter, vars);
    assert forall i :: 0 <= i < |rs| ==> rs[i].timestamp == ks[i];
  }

  /** Exactly the timestamps of the table have a record, and each record
      carries the station's id and the table's row for its timestamp. */
  lemma RecordsCover(deviceId: string, inter: Inter, vars: seq<string>)
    ensures var rs := Records(deviceId, inter, vars);
      && (forall t :: t in inter <==> Emitted(rs, t))
      && (forall i :: 0 <= i < |rs| ==>
            rs[i].deviceId == deviceId && rs[i].timestamp in inter
            && rs[i].fields == Fill(inter[rs[i].timestamp], vars))
  {
    Keys.AscendingMembers(inter.Keys);
    var ks := Keys.Ascending(inter.Keys);
    var rs := Records(deviceId, inter, vars);
    forall t | t in inter
      ensures Emitted(rs, t)
    {
      var i :| 0 <= i < |ks| && ks[i] == t;
      assert rs[i].timestamp == t;
    }
    forall i | 0 <= i < |rs|
      ensures rs[i].timestamp in inter
    {
      assert rs[i].timestamp == ks[i];
    }
  }

  /** The fields of a record: every requested variable, with its first value
      at that timestamp when it was fetched and has one there, undefined
      otherwise. */
  lemma RecordFields(station: Stations.Station, params: Params, vars: seq<string>, fetch: P.Window -> Result<P.Page>, t: int, u: string)
    requires P.WithinWindow(fetch)
    requires Gather(station, params, vars, fetch).inter.Success?
    requires t in Gather(station, params, vars, fetch).inter.value
    ensures var fields := Fill(Gather(station, params, vars, fetch).inter.value[t], vars);
      && (u in fields <==> u in vars)
      && (u in vars && HasObs(station, params, fetch, u, t) ==>
            fields[u] == First(VarResult(station, params, u, fetch).value.value[t]))
      && (u in vars && !HasObs(station, params, fetch, u, t) ==> fields[u] == None)
  {
    GatherCell(station, params, vars, fetch, t, u);
  }

  /** A successful `multipleVars` emits one record per timestamp that some
      fetched variable has, in ascending order, each carrying the station's
      id and a field for every requested variable. */
  lemma MultipleVarsContents(station: Stations.Station, params: Params, vars: seq<string>, fetch: P.Window -> Result<P.Page>)
    requires P.WithinWindow(fetch)
    requires Collect(station, params, vars, fetch).Success?
    ensures var rs := Collect(station, params, vars, fetch).value;
      && (forall i, j :: 0 <= i < j < |rs| ==> rs[i].timestamp < rs[j].timestamp)
      && (forall t :: Emitted(rs, t) <==> Observed(station, params, fetch, vars, t))
      && (forall i :: 0 <= i < |rs| ==> rs[i].deviceId == station.deviceId && rs[i].fields.Keys == set u | u in vars)
  {
    var inter := Gather(station, params, vars, fetch).inter.value;
    var rs := Records(station.deviceId, inter, vars);
    RecordsOrder(station.deviceId, inter, vars);
    RecordsCover(station.deviceId, inter, vars);
    forall t
      ensures Emitted(rs, t) <==> Observed(station, params, fetch, vars, t)
    {
      if t in inter {
        GatherKeysObserved(station, params, vars, fetch, t);
      } else {
        forall u | u in vars
          ensures !HasObs(station, params, fetch, u, t)
        {
          GatherCell(station, params, vars, fetch, t, u);
        }
      }
    }
    forall i | 0 <= i < |rs|
      ensures rs[i].fields.Keys == set u | u in vars
    {
      assert rs[i].fields == Fill(inter[rs[i].timestamp], vars);
    }
  }

  /** Every request of the series is for the station, for a requested
      variable under its own name, to the station's module for that
      variable's category, over the caller's window end with the caller's
      token and scale. A variable with no module is never requested. */
  lemma {:induction false} GatherRequests(station: Stations.Station, params: Params, vars: seq<string>, fetch: P.Window -> Result<P.Page>)
    requires P.WithinWindow(fetch)
    ensures forall w :: w in Gather(station, params, vars, fetch).sent ==>
      && w.deviceId == station.deviceId
      && w.varType in vars
      && ModuleOf(station, w.varType) == Some(w.moduleId)
      && w.accessToken == params.accessToken && w.scale == params.scale
      && w.dateEnd == params.dateEnd
    decreases |vars|
  {
    if vars != [] {
      var n := |vars| - 1;
      var pre := vars[..n];
      var v := vars[n];
      GatherRequests(station, params, pre, fetch);
      assert vars == pre + [v];
      var g := Gather(station, params, pre, fetch);
      if g.inter.Success? && ModuleOf(station, v).Some? {
        var w := VarWindow(station, params, v, ModuleOf(station, v).value);
        P.RequestsKeepWindow(fetch, w);
      }
    }
  }
}
