/** Resolution of the ordering period ("orderanke") of a submission. */
module Period {
  import opened Wrappers
  import opened OrderModel

  /** The window query's filter: active, started and not yet ended. */
  predicate Covers(w: Window, now: Time) {
    w.isActive && w.startTime <= now && now <= w.endTime
  }

  /** `p` is the greatest `orderanke` among the windows covering `now`. */
  predicate IsLatestActive(ws: seq<Window>, now: Time, p: int) {
    (exists i :: 0 <= i < |ws| && Covers(ws[i], now) && ws[i].orderanke == p)
    && forall i :: 0 <= i < |ws| && Covers(ws[i], now) ==> ws[i].orderanke <= p
  }

  /** The window query: covering windows ordered by `orderanke` descending,
      the first one taken. */
  function LatestActive(ws: seq<Window>, now: Time): (r: Option<int>)
    ensures r.None? <==> forall i :: 0 <= i < |ws| ==> !Covers(ws[i], now)
    ensures r.Some? ==> IsLatestActive(ws, now, r.value)
  {
    if ws == [] then None
    else
      var rest := LatestActive(ws[1..], now);
      assert forall i :: 1 <= i < |ws| ==> ws[i] == ws[1..][i - 1];
      if !Covers(ws[0], now) then rest
      else if rest.Some? && rest.value >= ws[0].orderanke then rest
      else Some(ws[0].orderanke)
  }

  /** The same query as the route issues it: a store error reads like
      "no window". */
  function ActiveWindow(windows: Fetch<seq<Window>>, now: Time): (r: Option<int>)
    ensures windows.QueryFailed? ==> r.None?
    ensures windows.Fetched? ==> r == LatestActive(windows.data, now)
  {
    match windows
    case QueryFailed => None
    case Fetched(ws) => LatestActive(ws, now)
  }

  /** The period of a submission: a truthy `payload.orderanke` as parsed,
      without any window check; otherwise the latest window covering `now`;
      None when there is none (or the query failed). */
  function ResolvePeriod(explicit: Option<int>, windows: Fetch<seq<Window>>, now: Time): (r: Option<int>)
    ensures explicit.Some? ==> r == explicit
    ensures explicit.None? && windows.QueryFailed? ==> r.None?
    ensures explicit.None? && windows.Fetched? ==>
      (r.None? <==> forall i :: 0 <= i < |windows.data| ==> !Covers(windows.data[i], now))
      && (r.Some? ==> IsLatestActive(windows.data, now, r.value))
  {
    if explicit.Some? then explicit else ActiveWindow(windows, now)
  }
}
