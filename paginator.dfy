/** The measurement paginator (`getManyMeasures` in utils/netatmo-buddy.js):
    fetch one station/module/variable over a time window past the API's cap
    of 1024 timestamps per response, by asking again from the last
    timestamp received for as long as a response comes back full.

    The remote call `getMeasures` is the oracle `fetch`: a function from the
    request parameters to a page of observations or an error. Since the
    oracle is a function, the requests issued are returned as a log. */
module Paginator {
  import opened Wrappers
  import Keys

  /** The number of timestamps in a full response. */
  const Cap := 1024

  /** The parameters of one `getmeasure` request (`mmparams`). */
  datatype Window = Window(
    accessToken: string,
    deviceId: string,
    moduleId: string,
    varType: string,
    scale: string,
    dateBegin: int,
    dateEnd: int)

  /** One response body: epoch seconds to the list of values there. */
  type Page = map<int, seq<real>>

  /** One request of a pagination run and the answer to it. */
  datatype Round = Round(window: Window, response: Result<Page>)

  /** What the loop relies on to end: every timestamp the server returns
      lies inside the requested window. */
  ghost predicate WithinWindow(fetch: Window -> Result<Page>) {
    forall w, t :: fetch(w).Success? && t in fetch(w).value ==> w.dateBegin <= t <= w.dateEnd
  }

  /** `nObs === 1024`: the answer that makes the loop ask again. */
  predicate Full(response: Result<Page>) {
    response.Success? && |response.value| == Cap
  }

  /** The part of the window still ahead of `date_begin`. */
  function Span(w: Window): nat {
    if w.dateBegin <= w.dateEnd then w.dateEnd - w.dateBegin else 0
  }

  /** A full page inside the window ends strictly after the window's start,
      so moving `date_begin` to its last timestamp shrinks the window. */
  lemma FullPageAdvances(fetch: Window -> Result<Page>, w: Window)
    requires WithinWindow(fetch) && Full(fetch(w))
    ensures w.dateBegin < Keys.Max(fetch(w).value.Keys) <= w.dateEnd
    ensures Span(w.(dateBegin := Keys.Max(fetch(w).value.Keys))) < Span(w)
  {
    var page := fetch(w).value;
    assert |page.Keys| == Cap;
  }

  /** The requests a run issues, with their answers, in order. The first
      asks for the caller's window; each full answer is followed by a
      request whose `date_begin` is that answer's last timestamp. */
  ghost function Rounds(fetch: Window -> Result<Page>, w: Window): seq<Round>
    requires WithinWindow(fetch)
    decreases Span(w)
  {
    var response := fetch(w);
    if Full(response) then
      FullPageAdvances(fetch, w);
      [Round(w, response)] + Rounds(fetch, w.(dateBegin := Keys.Max(response.value.Keys)))
    else
      [Round(w, response)]
  }

  /** One step of the definition of a run. */
  lemma RoundsStep(fetch: Window -> Result<Page>, w: Window)
    requires WithinWindow(fetch)
    ensures !Full(fetch(w)) ==> Rounds(fetch, w) == [Round(w, fetch(w))]
    ensures Full(fetch(w)) ==>
              Rounds(fetch, w) == [Round(w, fetch(w))] + Rounds(fetch, w.(dateBegin := Keys.Max(fetch(w).value.Keys)))
  {
  }

  function PageOf(r: Round): Page {
    if r.response.Success? then r.response.value else map[]
  }

  /** `allObs` after the given rounds: each answer is merged in, later
      answers overwriting earlier ones on shared timestamps. */
  function Accumulate(rs: seq<Round>): Page {
    if rs == [] then map[] else Accumulate(rs[..|rs| - 1]) + PageOf(rs[|rs| - 1])
  }

  /** What the run reports: the error of a failed last request, or the
      accumulated observations. */
  function Outcome(rs: seq<Round>): Result<Page> {
    if rs != [] && rs[|rs| - 1].response.Failure? then Failure(rs[|rs| - 1].response.error)
    else Success(Accumulate(rs))
  }

  function Requests(rs: seq<Round>): seq<Window> {
    seq(|rs|, i requires 0 <= i < |rs| => rs[i].window)
  }

  /** The result of `getManyMeasures` for a window. */
  ghost function Paginate(fetch: Window -> Result<Page>, w: Window): Result<Page>
    requires WithinWindow(fetch)
  {
    Outcome(Rounds(fetch, w))
  }

  // ---------------------------------------------------------------------
  // The loop
  // ---------------------------------------------------------------------

  /** `for (let key in obs) allObs[key] = obs[key]` */
  method MergePage(allObs: Page, obs: Page) returns (merged: Page)
    ensures merged == allObs + obs
  {
    merged := allObs;
    var rest := obs.Keys;
    while rest != {}
      invariant rest <= obs.Keys
      invariant merged == allObs + (map t | t in obs && t !in rest :: obs[t])
      decreases rest
    {
      Keys.HasElement(rest);
      var key :| key in rest;
      merged := merged[key := obs[key]];
      rest := rest - {key};
    }
    assert (map t | t in obs && t !in rest :: obs[t]) == obs;
  }

  /** `mmparams.date_begin = lasttime` after a non-empty answer. */
  method NextWindow(asked: Window, obs: Page) returns (next: Window)
    ensures obs != map[] ==> next == asked.(dateBegin := Keys.Max(obs.Keys))
    ensures obs == map[] ==> next == asked
  {
    next := asked;
    if obs != map[] {
      assert obs.Keys != {};
      var lasttime := Keys.LastKey(obs.Keys);
      next := asked.(dateBegin := lasttime);
    }
  }

  /** `getManyMeasures`: request pages until one comes back with fewer than
      1024 timestamps, moving a private copy of the parameters forward. */
  method GetManyMeasures(params: Window, fetch: Window -> Result<Page>) returns (r: Result<Page>, sent: seq<Window>)
    requires WithinWindow(fetch)
    ensures r == Paginate(fetch, params)
    ensures sent == Requests(Rounds(fetch, params))
  {
    var mmparams := params;
    var allObs: Page := map[];
    var nObs := Cap;
    sent := [];
    ghost var done: seq<Round> := [];
    while nObs == Cap
      invariant Progress(fetch, params, done, mmparams, nObs)
      invariant allObs == Accumulate(done)
      invariant done != [] ==> done[|done| - 1].response.Success?
      invariant sent == Requests(done)
      decreases if nObs == Cap then Span(mmparams) + 1 else 0
    {
      var response := fetch(mmparams);
      ghost var round := Round(mmparams, response);
      RoundAppended(done, round);
      sent := sent + [mmparams];
      if response.Failure? {
        RoundFailed(fetch, params, done, mmparams);
        r := Failure(response.error);
        return;
      }
      nObs, mmparams, allObs := Advance(fetch, params, done, mmparams, allObs, response.value);
      done := done + [round];
    }
    r := Success(allObs);
  }

  /** The loop body after an answered request: count the answer, move
      `date_begin` to its last timestamp and merge it into `allObs`. */
  method Advance(ghost fetch: Window -> Result<Page>, ghost params: Window, ghost done: seq<Round>,
                 mmparams: Window, allObs: Page, obs: Page)
    returns (nObs: int, next: Window, merged: Page)
    requires WithinWindow(fetch)
    requires done + Rounds(fetch, mmparams) == Rounds(fetch, params)
    requires fetch(mmparams) == Success(obs)
    requires allObs == Accumulate(done)
    ensures Progress(fetch, params, done + [Round(mmparams, fetch(mmparams))], next, nObs)
    ensures merged == Accumulate(done + [Round(mmparams, fetch(mmparams))])
    ensures nObs == Cap ==> Span(next) < Span(mmparams)
  {
    nObs := |obs|;
    next := NextWindow(mmparams, obs);
    merged := MergePage(allObs, obs);
    RoundDone(fetch, params, done, mmparams, next);
    RoundAppended(done, Round(mmparams, fetch(mmparams)));
  }

  /** Where a run stands after the rounds `done`: while the last answer was
      full, the rest of the run is the run from the moved window `mm`;
      after a short answer, `done` is the whole run. */
  ghost predicate Progress(fetch: Window -> Result<Page>, params: Window, done: seq<Round>, mm: Window, nObs: int)
    requires WithinWindow(fetch)
  {
    && (nObs == Cap ==> done + Rounds(fetch, mm) == Rounds(fetch, params))
    && (nObs != Cap ==> done == Rounds(fetch, params) && done != [])
  }

  /** A failed request ends the run with its error. */
  lemma RoundFailed(fetch: Window -> Result<Page>, params: Window, done: seq<Round>, asked: Window)
    requires WithinWindow(fetch)
    requires done + Rounds(fetch, asked) == Rounds(fetch, params)
    requires fetch(asked).Failure?
    ensures Rounds(fetch, params) == done + [Round(asked, fetch(asked))]
    ensures Paginate(fetch, params) == Failure(fetch(asked).error)
  {
    RoundsStep(fetch, asked);
  }

  /** One turn of the loop: an answered request either leads on to the
      rest of the run from the moved window, which is smaller, or was the
      last one. */
  lemma RoundDone(fetch: Window -> Result<Page>, params: Window, done: seq<Round>, asked: Window, next: Window)
    requires WithinWindow(fetch)
    requires done + Rounds(fetch, asked) == Rounds(fetch, params)
    requires fetch(asked).Success?
    requires fetch(asked).value != map[] ==> next == asked.(dateBegin := Keys.Max(fetch(asked).value.Keys))
    ensures Progress(fetch, params, done + [Round(asked, fetch(asked))], next, |fetch(asked).value|)
    ensures Full(fetch(asked)) ==> Span(next) < Span(asked)
  {
    RoundsStep(fetch, asked);
    var round := Round(asked, fetch(asked));
    if Full(fetch(asked)) {
      assert fetch(asked).value.Keys != {};
      FullPageAdvances(fetch, asked);
      assert (done + [round]) + Rounds(fetch, next) == done + ([round] + Rounds(fetch, next));
    }
  }

  /** Appending a round extends the log and the accumulated map by it. */
  lemma RoundAppended(done: seq<Round>, round: Round)
    ensures Requests(done + [round]) == Requests(done) + [round.window]
    ensures Accumulate(done + [round]) == Accumulate(done) + PageOf(round)
  {
    assert (done + [round])[..|done|] == done;
  }

  // ---------------------------------------------------------------------
  // What a run does
  // ---------------------------------------------------------------------

  /** The shape of a run: at least one request, the first for the caller's
      window; another request exactly after a full answer, starting at that
      answer's last timestamp; the run stops at the first answer that is an
      error or has fewer than 1024 timestamps; and every request keeps the
      caller's parameters except `date_begin`. */
  lemma {:induction false} RoundsShape(fetch: Window -> Result<Page>, w: Window)
    requires WithinWindow(fetch)
    ensures var rs := Rounds(fetch, w);
      && |rs| >= 1 && rs[0].window == w
      && (forall i :: 0 <= i < |rs| ==> rs[i].response == fetch(rs[i].window))
      && (forall i :: 0 <= i < |rs| - 1 ==>
            Full(rs[i].response)
            && rs[i + 1].window == rs[i].window.(dateBegin := Keys.Max(rs[i].response.value.Keys)))
      && !Full(rs[|rs| - 1].response)
      && (forall i :: 0 <= i < |rs| ==> rs[i].window.(dateBegin := w.dateBegin) == w)
    decreases Span(w)
  {
    var response := fetch(w);
    if Full(response) {
      FullPageAdvances(fetch, w);
      var next := w.(dateBegin := Keys.Max(response.value.Keys));
      RoundsShape(fetch, next);
      var tail := Rounds(fetch, next);
      assert Rounds(fetch, w) == [Round(w, response)] + tail;
      assert forall i :: 1 <= i < |tail| + 1 ==> Rounds(fetch, w)[i] == tail[i - 1];
    }
  }

  /** The log of a run: the caller's window first, and every request keeps
      the caller's parameters except `date_begin`, so the caller's own
      parameters are never what moves. */
  lemma RequestsKeepWindow(fetch: Window -> Result<Page>, w: Window)
    requires WithinWindow(fetch)
    ensures var sent := Requests(Rounds(fetch, w));
      && |sent| >= 1 && sent[0] == w
      && forall x :: x in sent ==> x.(dateBegin := w.dateBegin) == w
  {
    RoundsShape(fetch, w);
    var rs := Rounds(fetch, w);
    var sent := Requests(rs);
    forall x | x in sent
      ensures x.(dateBegin := w.dateBegin) == w
    {
      var i :| 0 <= i < |sent| && sent[i] == x;
      assert x == rs[i].window;
    }
  }

  /** The index of the last round whose answer holds timestamp `t`, or -1:
      a reference definition scanning the rounds from the end. */
  function LastHolding(rs: seq<Round>, t: int): (k: int)
    ensures -1 <= k < |rs|
    ensures k >= 0 ==> t in PageOf(rs[k])
    ensures forall j :: k < j < |rs| ==> t !in PageOf(rs[j])
  {
    if rs == [] then -1
    else if t in PageOf(rs[|rs| - 1]) then |rs| - 1
    else LastHolding(rs[..|rs| - 1], t)
  }

  /** The accumulated map holds exactly the timestamps of all answers, each
      once, with the values of the last answer that holds it. */
  lemma {:induction false} AccumulateIsUnion(rs: seq<Round>, t: int)
    ensures t in Accumulate(rs) <==> LastHolding(rs, t) >= 0
    ensures t in Accumulate(rs) ==> Accumulate(rs)[t] == PageOf(rs[LastHolding(rs, t)])[t]
  {
    if rs != [] {
      var n := |rs| - 1;
      AccumulateIsUnion(rs[..n], t);
      if t !in PageOf(rs[n]) && LastHolding(rs[..n], t) >= 0 {
        assert rs[LastHolding(rs[..n], t)] == rs[..n][LastHolding(rs[..n], t)];
      }
    }
  }

  /** A timestamp in any answer is in the result. */
  lemma AnswerIsKept(rs: seq<Round>, i: int, t: int)
    requires 0 <= i < |rs| && t in PageOf(rs[i])
    ensures t in Accumulate(rs) && i <= LastHolding(rs, t)
  {
    AccumulateIsUnion(rs, t);
  }

  /** A run fails exactly when its last request fails, with that error;
      every earlier request was answered with a full page. */
  lemma PaginateFailsOnlyAtLast(fetch: Window -> Result<Page>, w: Window)
    requires WithinWindow(fetch)
    ensures var rs := Rounds(fetch, w);
      && (Paginate(fetch, w).Failure? <==> rs[|rs| - 1].response.Failure?)
      && (Paginate(fetch, w).Failure? ==> Paginate(fetch, w).error == rs[|rs| - 1].response.error)
      && (forall i :: 0 <= i < |rs| - 1 ==> rs[i].response.Success?)
  {
    RoundsShape(fetch, w);
  }

  /** A window the server has nothing for costs one request and yields an
      empty map, not an error. */
  lemma EmptyWindowTerminates(fetch: Window -> Result<Page>, w: Window)
    requires WithinWindow(fetch) && fetch(w) == Success(map[])
    ensures Rounds(fetch, w) == [Round(w, Success(map[]))]
    ensures Paginate(fetch, w) == Success(map[])
  {
    assert Accumulate([Round(w, Success(map[]))]) == map[] + map[];
  }

  /** Two pages that meet only at the boundary timestamp: the run makes
      exactly two requests and the boundary is counted once, so a full page
      and a second page of 977 give 2000 observations. */
  lemma BoundaryCountedOnce(fetch: Window -> Result<Page>, w: Window)
    requires WithinWindow(fetch) && Full(fetch(w))
    requires var next := w.(dateBegin := Keys.Max(fetch(w).value.Keys));
      && fetch(next).Success? && !Full(fetch(next))
      && fetch(w).value.Keys * fetch(next).value.Keys == {Keys.Max(fetch(w).value.Keys)}
    ensures var next := w.(dateBegin := Keys.Max(fetch(w).value.Keys));
      && |Rounds(fetch, w)| == 2
      && Paginate(fetch, w).Success?
      && |Paginate(fetch, w).value| == Cap + |fetch(next).value| - 1
  {
    var first := fetch(w).value;
    FullPageAdvances(fetch, w);
    var next := w.(dateBegin := Keys.Max(first.Keys));
    var second := fetch(next).value;
    var rs := Rounds(fetch, w);
    RoundsStep(fetch, w);
    RoundsStep(fetch, next);
    assert rs == [Round(w, fetch(w)), Round(next, fetch(next))];
    assert rs[..1] == [Round(w, fetch(w))];
    assert Accumulate(rs[..1]) == map[] + first;
    assert Accumulate(rs) == (map[] + first) + second;
    var union := (map[] + first) + second;
    assert union.Keys == first.Keys + second.Keys;
    assert |first.Keys + second.Keys| + |first.Keys * second.Keys| == |first.Keys| + |second.Keys|;
  }
}
