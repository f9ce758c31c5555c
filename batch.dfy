/** The station batch (`multipleStats` in utils/netatmo-buddy.js): run the
    variable merger for each station of a list strictly one after another,
    concatenating the records in station order and stopping at the first
    station that fails. */
module Batch {
  import opened Wrappers
  import Stations
  import P = Paginator
  import M = Merger

  /** The records gathered and the requests sent after some stations. */
  datatype Batched = Batched(obs: Result<seq<M.Record>>, sent: seq<P.Window>)

  /** `async.eachSeries(statList, …)`: the state after the stations of
      `statList`, in order. */
  ghost function Run(statList: seq<Stations.Station>, params: M.Params, vars: seq<string>, fetch: P.Window -> Result<P.Page>): Batched
    requires P.WithinWindow(fetch)
    decreases |statList|
  {
    if statList == [] then Batched(Success([]), [])
    else
      var b := Run(statList[..|statList| - 1], params, vars, fetch);
      var station := statList[|statList| - 1];
      if b.obs.Failure? then b
      else
        var sent := b.sent + M.Gather(station, params, vars, fetch).sent;
        match M.Collect(station, params, vars, fetch)
        case Failure(e) => Batched(Failure(e), sent)
        case Success(sObs) => Batched(Success(b.obs.value + sObs), sent)
  }

  /** `multipleStats` */
  method MultipleStats(statList: seq<Stations.Station>, params: M.Params, variables: seq<string>, fetch: P.Window -> Result<P.Page>)
    returns (r: Result<seq<M.Record>>, sent: seq<P.Window>)
    requires P.WithinWindow(fetch)
    ensures r == Run(statList, params, variables, fetch).obs
    ensures sent == Run(statList, params, variables, fetch).sent
  {
    var allObs: seq<M.Record> := [];
    sent := [];
    var i := 0;
    while i < |statList|
      invariant 0 <= i <= |statList|
      invariant Run(statList[..i], params, variables, fetch) == Batched(Success(allObs), sent)
    {
      var station := statList[i];
      assert statList[..i + 1][..i] == statList[..i];
      var sObs, log := M.MultipleVars(station, params, variables, fetch);
      sent := sent + log;
      if sObs.Failure? {
        FailureSticks(statList, params, variables, fetch, i + 1);
        r := Failure(sObs.error);
        return;
      }
      allObs := allObs + sObs.value;
      i := i + 1;
    }
    assert statList[..i] == statList;
    r := Success(allObs);
  }

  /** Once a station fails, the later stations change nothing. */
  lemma {:induction false} FailureSticks(statList: seq<Stations.Station>, params: M.Params, vars: seq<string>, fetch: P.Window -> Result<P.Page>, n: nat)
    requires P.WithinWindow(fetch)
    requires n <= |statList|
    requires Run(statList[..n], params, vars, fetch).obs.Failure?
    ensures Run(statList, params, vars, fetch) == Run(statList[..n], params, vars, fetch)
    decreases |statList| - n
  {
    if n < |statList| {
      var pre := statList[..|statList| - 1];
      assert pre[..n] == statList[..n];
      FailureSticks(pre, params, vars, fetch, n);
    } else {
      assert statList[..n] == statList;
    }
  }

  // ---------------------------------------------------------------------
  // What the batch promises
  // ---------------------------------------------------------------------

  /** The concatenation of a list of record lists, first to last: a
      reference definition folding from the front. */
  function Concat(outs: seq<seq<M.Record>>): seq<M.Record> {
    if outs == [] then [] else outs[0] + Concat(outs[1..])
  }

  lemma {:induction false} ConcatSnoc(outs: seq<seq<M.Record>>, last: seq<M.Record>)
    ensures Concat(outs + [last]) == Concat(outs) + last
  {
    if outs == [] {
      assert [last][1..] == [];
    } else {
      assert (outs + [last])[1..] == outs[1..] + [last];
      ConcatSnoc(outs[1..], last);
    }
  }

  /** What each station's merge on its own reports, in station order. */
  ghost function Outcomes(statList: seq<Stations.Station>, params: M.Params, vars: seq<string>, fetch: P.Window -> Result<P.Page>): seq<Result<seq<M.Record>>>
    requires P.WithinWindow(fetch)
  {
    seq(|statList|, i requires 0 <= i < |statList| => M.Collect(statList[i], params, vars, fetch))
  }

  /** The records of the outcomes that succeeded, each in its place. */
  function Values(outs: seq<Result<seq<M.Record>>>): seq<seq<M.Record>> {
    seq(|outs|, i requires 0 <= i < |outs| => if outs[i].Success? then outs[i].value else [])
  }

  /** The index of the first failed outcome, or -1. */
  function FirstError(outs: seq<Result<seq<M.Record>>>): (k: int)
    ensures -1 <= k < |outs|
    ensures k >= 0 ==> outs[k].Failure?
    ensures forall i :: 0 <= i < |outs| && (k < 0 || i < k) ==> outs[i].Success?
  {
    if outs == [] then -1
    else
      var pre := outs[..|outs| - 1];
      var k := FirstError(pre);
      assert forall i :: 0 <= i < |pre| ==> outs[i] == pre[i];
      if k >= 0 then k
      else if outs[|outs| - 1].Failure? then |outs| - 1
      else -1
  }

  /** The batch fails exactly when some station fails, and then with the
      error of the first one that does. */
  lemma {:induction false} RunFailure(statList: seq<Stations.Station>, params: M.Params, vars: seq<string>, fetch: P.Window -> Result<P.Page>)
    requires P.WithinWindow(fetch)
    ensures var b := Run(statList, params, vars, fetch);
      var outs := Outcomes(statList, params, vars, fetch);
      var k := FirstError(outs);
      && (b.obs.Failure? <==> k >= 0)
      && (b.obs.Failure? ==> b.obs.error == outs[k].error)
    decreases |statList|
  {
    if statList != [] {
      var n := |statList| - 1;
      var pre := statList[..n];
      RunFailure(pre, params, vars, fetch);
      var outs := Outcomes(statList, params, vars, fetch);
      assert Outcomes(pre, params, vars, fetch) == outs[..n];
      FirstErrorSnoc(outs[..n], outs[n]);
      assert outs[..n] + [outs[n]] == outs;
    }
  }

  /** A batch that succeeds returns every station's records concatenated in
      station order. */
  lemma {:induction false} RunConcat(statList: seq<Stations.Station>, params: M.Params, vars: seq<string>, fetch: P.Window -> Result<P.Page>)
    requires P.WithinWindow(fetch)
    requires Run(statList, params, vars, fetch).obs.Success?
    ensures Run(statList, params, vars, fetch).obs.value == Concat(Values(Outcomes(statList, params, vars, fetch)))
    decreases |statList|
  {
    if statList != [] {
      var n := |statList| - 1;
      var pre := statList[..n];
      RunStep(statList, params, vars, fetch);
      RunConcat(pre, params, vars, fetch);
      var vals := Values(Outcomes(statList, params, vars, fetch));
      ValuesPrefix(statList, params, vars, fetch);
      ConcatLast(vals);
    }
  }

  lemma ConcatLast(outs: seq<seq<M.Record>>)
    requires outs != []
    ensures Concat(outs) == Concat(outs[..|outs| - 1]) + outs[|outs| - 1]
  {
    var n := |outs| - 1;
    assert outs == outs[..n] + [outs[n]];
    ConcatSnoc(outs[..n], outs[n]);
  }

  /** The last station of a successful batch: all before it succeeded, and
      its records follow theirs. */
  lemma RunStep(statList: seq<Stations.Station>, params: M.Params, vars: seq<string>, fetch: P.Window -> Result<P.Page>)
    requires P.WithinWindow(fetch)
    requires statList != [] && Run(statList, params, vars, fetch).obs.Success?
    ensures var n := |statList| - 1;
      var b := Run(statList[..n], params, vars, fetch);
      var last := M.Collect(statList[n], params, vars, fetch);
      && b.obs.Success? && last.Success?
      && Run(statList, params, vars, fetch).obs.value == b.obs.value + last.value
  {
  }

  lemma ValuesPrefix(statList: seq<Stations.Station>, params: M.Params, vars: seq<string>, fetch: P.Window -> Result<P.Page>)
    requires P.WithinWindow(fetch)
    requires statList != []
    ensures var n := |statList| - 1;
      var vals := Values(Outcomes(statList, params, vars, fetch));
      && Values(Outcomes(statList[..n], params, vars, fetch)) == vals[..n]
      && (M.Collect(statList[n], params, vars, fetch).Success? ==>
            vals[n] == M.Collect(statList[n], params, vars, fetch).value)
  {
  }

  /** Appending an outcome moves the first error only when there was none. */
  lemma FirstErrorSnoc(outs: seq<Result<seq<M.Record>>>, last: Result<seq<M.Record>>)
    ensures FirstError(outs) >= 0 ==> FirstError(outs + [last]) == FirstError(outs)
    ensures FirstError(outs) < 0 ==> FirstError(outs + [last]) == if last.Failure? then |outs| else -1
  {
    assert (outs + [last])[..|outs|] == outs;
  }

  /** Every request of the batch is for a listed station and one of the
      requested variables. */
  lemma {:induction false} RunRequests(statList: seq<Stations.Station>, params: M.Params, vars: seq<string>, fetch: P.Window -> Result<P.Page>)
    requires P.WithinWindow(fetch)
    ensures forall w :: w in Run(statList, params, vars, fetch).sent ==>
      w.varType in vars && exists i :: 0 <= i < |statList| && statList[i].deviceId == w.deviceId
    decreases |statList|
  {
    if statList != [] {
      var n := |statList| - 1;
      var pre := statList[..n];
      RunRequests(pre, params, vars, fetch);
      M.GatherRequests(statList[n], params, vars, fetch);
      forall w | w in Run(pre, params, vars, fetch).sent
        ensures exists i :: 0 <= i < |statList| && statList[i].deviceId == w.deviceId
      {
        var i :| 0 <= i < |pre| && pre[i].deviceId == w.deviceId;
        assert statList[i] == pre[i];
      }
    }
  }
}
