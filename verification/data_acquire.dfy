/**
 * data_acquire.py: downloading the CSV with a fixed number of attempts, projecting its
 * columns, one ingestion cycle (download, filter, upsert), and the loop that reschedules
 * itself after every cycle whatever the cycle did.
 */
module DataAcquire {
  import opened Outcomes
  import opened Documents
  import opened Store
  import opened Database

  /** MAX_DOWNLOAD_ATTEMPT, the default `retries` of `download_csv`. */
  const MaxDownloadAttempt: int := 5

  // ---------------------------------------------------------------------------------------
  // download_csv

  /** How one `requests.get(url, timeout=30.0)` followed by `raise_for_status()` ended. */
  datatype Attempt =
    | Response(text: string)  // status accepted; `req.text`
    | HttpError               // `raise_for_status` raised HTTPError
    | OtherError              // any other exception (connection error, timeout, ...)

  /** The network as the download sees it: the outcome of the i-th attempt. */
  type Network = nat -> Attempt

  /** Number of iterations of `for i in range(retries)`. */
  function Attempts(retries: int): (n: nat)
    ensures retries <= 0 ==> n == 0
    ensures retries > 0 ==> n == retries
  {
    if retries > 0 then retries else 0
  }

  /** The last attempt before `n` whose response passed `raise_for_status`. */
  function LastResponse(net: Network, n: nat): (r: Option<nat>)
    ensures r.Some? ==> r.value < n && net(r.value).Response?
    ensures r.Some? ==> forall j :: r.value < j < n ==> !net(j).Response?
    ensures r.None? ==> forall j :: 0 <= j < n ==> !net(j).Response?
  {
    if n == 0 then None
    else if net(n - 1).Response? then Some(n - 1)
    else LastResponse(net, n - 1)
  }

  /** The first attempt before `n` that raised something other than HTTPError. */
  function FirstOther(net: Network, n: nat): (r: Option<nat>)
    ensures r.Some? ==> r.value < n && net(r.value).OtherError?
    ensures r.Some? ==> forall j :: 0 <= j < r.value ==> !net(j).OtherError?
    ensures r.None? ==> forall j :: 0 <= j < n ==> !net(j).OtherError?
  {
    if n == 0 then None
    else match FirstOther(net, n - 1)
      case Some(i) => Some(i)
      case None => if net(n - 1).OtherError? then Some(n - 1) else None
  }

  lemma FirstOtherIs(net: Network, n: nat, i: nat)
    requires i < n && net(i).OtherError?
    requires forall j :: 0 <= j < i ==> !net(j).OtherError?
    ensures FirstOther(net, n) == Some(i)
  {
  }

  lemma LastResponseIs(net: Network, n: nat, i: nat)
    requires i < n && net(i).Response?
    requires forall j :: i < j < n ==> !net(j).Response?
    ensures LastResponse(net, n) == Some(i)
  {
  }

  /** What `download_csv(retries=retries)` returns or raises. */
  function Download(retries: int, net: Network): (r: Result<Option<string>>)
    ensures r.Err? <==> exists j :: 0 <= j < Attempts(retries) && net(j).OtherError?
    ensures r.Err? ==> r.error == RequestError
    ensures r == Ok(None) <==> forall j :: 0 <= j < Attempts(retries) ==> net(j) == HttpError
    ensures r.Ok? && r.value.Some? ==> exists j :: 0 <= j < Attempts(retries) && net(j) == Response(r.value.value)
  {
    if FirstOther(net, Attempts(retries)).Some? then Err(RequestError)
    else match LastResponse(net, Attempts(retries))
      case None => Ok(None)
      case Some(i) => Ok(Some(net(i).text))
  }

  /** `download_csv(retries=retries)`. `made` counts the requests sent; `errorLogged` tells
      whether 'download_csv too many FAILED attempts' was logged. */
  method DownloadCsv(retries: int, net: Network)
    returns (r: Result<Option<string>>, ghost made: nat, ghost errorLogged: bool)
    ensures r == Download(retries, net)
    ensures made == match FirstOther(net, Attempts(retries)) case Some(i) => i + 1 case None => Attempts(retries)
    ensures errorLogged <==> r == Ok(None)
  {
    var text: Option<string> := None;
    made := 0;
    var i := 0;
    while i < retries
      invariant 0 <= i <= Attempts(retries)
      invariant made == i
      invariant FirstOther(net, i).None?
      invariant text == match LastResponse(net, i) case None => None case Some(j) => Some(net(j).text)
    {
      made := made + 1;
      match net(i) {
        case Response(t) =>
          text := Some(t);
        case HttpError =>
          // logged as a warning; the loop goes on
        case OtherError =>
          FirstOtherIs(net, Attempts(retries), i);
          return Err(RequestError), made, false;
      }
      i := i + 1;
    }
    errorLogged := text.None?;
    r := Ok(text);
  }

  /** A stub that fails with HTTP errors k < retries times and then keeps answering `t`
      makes the download return `t`. */
  lemma DownloadAfterTransientErrors(retries: int, net: Network, k: nat, t: string)
    requires k < retries
    requires forall j :: 0 <= j < k ==> net(j) == HttpError
    requires forall j :: k <= j ==> net(j) == Response(t)
    ensures Download(retries, net) == Ok(Some(t))
  {
    assert net(retries - 1) == Response(t);
  }

  /** A success is kept even when every later attempt fails with an HTTP error: the result
      is the text of the last attempt that passed. */
  lemma DownloadKeepsLastSuccess(retries: int, net: Network, i: nat, t: string)
    requires i < retries && net(i) == Response(t)
    requires forall j :: 0 <= j < retries ==> !net(j).OtherError?
    requires forall j :: i < j < retries ==> net(j) == HttpError
    ensures Download(retries, net) == Ok(Some(t))
  {
    LastResponseIs(net, Attempts(retries), i);
  }

  /** A source that answers every attempt with an HTTP error yields no data, not an exception. */
  lemma DownloadPersistentOutage(retries: int, net: Network)
    requires forall j :: 0 <= j < Attempts(retries) ==> net(j) == HttpError
    ensures Download(retries, net) == Ok(None)
  {
    var n := Attempts(retries);
    assert forall j :: 0 <= j < n ==> !net(j).Response? && !net(j).OtherError?;
  }

  /** With `retries <= 0` nothing is requested and the result is None. */
  lemma DownloadWithoutAttempts(retries: int, net: Network)
    requires retries <= 0
    ensures Download(retries, net) == Ok(None)
  {
  }

  // ---------------------------------------------------------------------------------------
  // filter_csv

  /** The `usecols` of `read_csv`. */
  const UseCols: set<string> := {"created_at", "pnew_case", "new_case", "tot_cases", "state"}

  /** The columns of the frame `filter_csv` returns. */
  const OutCols: set<string> := {"pnew_case", "new_case", "tot_cases", "state", "date"}

  /** A parsed CSV: its header and its rows. */
  datatype Table = Table(header: seq<string>, rows: seq<Document>)

  /** As in a pandas data frame, every row has exactly the header's columns. */
  predicate Rectangular(t: Table) {
    forall i :: 0 <= i < |t.rows| ==> t.rows[i].Keys == set c | c in t.header
  }

  type Frame = t: Table | Rectangular(t) witness Table([], [])

  /** The two pandas calls `filter_csv` relies on: parsing CSV text (None: it raises) and
      converting one `created_at` cell with `to_datetime` (None: it raises). */
  datatype Pandas = Pandas(readCsv: string -> Option<Frame>, toDatetime: Value -> Option<Value>)

  predicate HasUseCols(f: Frame) {
    forall c :: c in UseCols ==> c in f.header
  }

  /** One row after the projection: the four kept columns, and `date` in place of `created_at`. */
  function Project(row: Document, date: Value): (d: Document)
    requires UseCols <= row.Keys
    ensures d.Keys == OutCols && "created_at" !in d
    ensures d["state"] == row["state"] && d["pnew_case"] == row["pnew_case"]
    ensures d["new_case"] == row["new_case"] && d["tot_cases"] == row["tot_cases"] && d["date"] == date
  {
    map["pnew_case" := row["pnew_case"], "new_case" := row["new_case"],
        "tot_cases" := row["tot_cases"], "state" := row["state"], "date" := date]
  }

  /** `df['date'] = pandas.to_datetime(df['created_at'])` followed by dropping `created_at`:
      None as soon as one cell does not convert. */
  function ConvertDates(rows: seq<Document>, pd: Pandas): (r: Option<seq<Document>>)
    requires forall i :: 0 <= i < |rows| ==> UseCols <= rows[i].Keys
    ensures r.None? <==> exists i :: 0 <= i < |rows| && pd.toDatetime(rows[i]["created_at"]).None?
    ensures r.Some? ==> |r.value| == |rows|
    ensures r.Some? ==> forall i :: 0 <= i < |rows| ==>
      pd.toDatetime(rows[i]["created_at"]).Some? &&
      r.value[i] == Project(rows[i], pd.toDatetime(rows[i]["created_at"]).value)
  {
    if rows == [] then Some([])
    else match (pd.toDatetime(rows[0]["created_at"]), ConvertDates(rows[1..], pd))
      case (Some(date), Some(rest)) => Some([Project(rows[0], date)] + rest)
      case _ => None
  }

  /** `filter_csv(text)`, the frame given as its records. A None text reads as an empty
      buffer, which pandas refuses, so it fails like unparsable text. */
  function FilterCsv(text: Option<string>, pd: Pandas): (r: Result<seq<Document>>)
    ensures text.None? ==> r == Err(ParseError)
    ensures r.Err? ==> r.error == ParseError
  {
    if text.None? then Err(ParseError)
    else match pd.readCsv(text.value)
      case None => Err(ParseError)
      case Some(f) =>
        if !HasUseCols(f) then Err(ParseError)
        else match ConvertDates(f.rows, pd)
          case None => Err(ParseError)
          case Some(rows) => Ok(rows)
  }

  /** A successful `filter_csv` keeps every row, in order, with exactly the five output
      columns: the four kept cells unchanged and `date` converted from `created_at`. */
  lemma FilterCsvProjects(text: Option<string>, pd: Pandas)
    requires FilterCsv(text, pd).Ok?
    ensures text.Some? && pd.readCsv(text.value).Some? && HasUseCols(pd.readCsv(text.value).value)
    ensures var rows := pd.readCsv(text.value).value.rows; var out := FilterCsv(text, pd).value;
      |out| == |rows| &&
      forall i :: 0 <= i < |out| ==>
        && out[i].Keys == OutCols
        && out[i]["state"] == rows[i]["state"]
        && out[i]["pnew_case"] == rows[i]["pnew_case"]
        && out[i]["new_case"] == rows[i]["new_case"]
        && out[i]["tot_cases"] == rows[i]["tot_cases"]
        && Some(out[i]["date"]) == pd.toDatetime(rows[i]["created_at"])
  {
    var f := pd.readCsv(text.value).value;
    var out := FilterCsv(text, pd).value;
    forall i | 0 <= i < |out|
      ensures Some(out[i]["date"]) == pd.toDatetime(f.rows[i]["created_at"])
    {
      assert out[i] == Project(f.rows[i], pd.toDatetime(f.rows[i]["created_at"]).value);
    }
  }

  /** A frame without one of the used columns, or with an unconvertible `created_at`, fails. */
  lemma FilterRejects(text: string, pd: Pandas)
    requires pd.readCsv(text).Some?
    requires !HasUseCols(pd.readCsv(text).value) ||
      exists i :: 0 <= i < |pd.readCsv(text).value.rows| &&
        "created_at" in pd.readCsv(text).value.rows[i] &&
        pd.toDatetime(pd.readCsv(text).value.rows[i]["created_at"]).None?
    ensures FilterCsv(Some(text), pd) == Err(ParseError)
  {
  }

  /** `filter_csv` does not normalise `state`: each of its records is routed to the
      lower-cased `state` exactly when that cell is text, at its converted `date`. */
  lemma FilterThenRoute(text: Option<string>, pd: Pandas)
    requires FilterCsv(text, pd).Ok?
    ensures forall d: Document :: d in FilterCsv(text, pd).value ==>
      (KeyOf(d).Some? <==> d["state"].Str?) &&
      (KeyOf(d).Some? ==> KeyOf(d).value == Key(Lower(d["state"].s), d["date"]))
  {
  }

  // ---------------------------------------------------------------------------------------
  // update_once

  /** The database after one cycle and how the cycle ended. */
  datatype CycleOutcome = CycleOutcome(db: DbState, status: Status)

  /** `update_once()`: download, then filter, then upsert; the first stage that raises ends
      the cycle. */
  function Cycle(db: DbState, net: Network, pd: Pandas): (c: CycleOutcome)
    ensures c.status.Failed? && c.status.error != StoreError ==> c.db == db
    ensures Download(MaxDownloadAttempt, net) == Ok(None) ==> c == CycleOutcome(db, Failed(ParseError))
    ensures c.db != db ==>
      Download(MaxDownloadAttempt, net).Ok? && FilterCsv(Download(MaxDownloadAttempt, net).value, pd).Ok?
  {
    match Download(MaxDownloadAttempt, net)
    case Err(e) => CycleOutcome(db, Failed(e))
    case Ok(text) =>
      match FilterCsv(text, pd)
      case Err(e) => CycleOutcome(db, Failed(e))
      case Ok(records) =>
        var u := Upsert(db, records);
        CycleOutcome(u.db, if u.ok then Done else Failed(StoreError))
  }

  /** `update_once()` against the database handle. */
  method UpdateOnce(db: CoronaDb, net: Network, pd: Pandas) returns (status: Status)
    modifies db
    ensures db.State() == Cycle(old(db.State()), net, pd).db
    ensures status == Cycle(old(db.State()), net, pd).status
  {
    var csv;
    ghost var made, logged;
    csv, made, logged := DownloadCsv(MaxDownloadAttempt, net);
    if csv.Err? {
      return Failed(csv.error);
    }
    var df := FilterCsv(csv.value, pd);
    if df.Err? {
      return Failed(df.error);
    }
    var ok;
    ghost var log;
    ok, log := db.UpsertData(df.value);
    status := if ok then Done else Failed(StoreError);
  }

  // ---------------------------------------------------------------------------------------
  // main_loop

  type Duration = r: real | r >= 0.0

  /** One run of `_worker`: the network during its download, and how long it took. */
  datatype Tick = Tick(net: Network, duration: Duration)

  function Max(a: real, b: real): real {
    if a < b then b else a
  }

  /** The database and the statuses after `_worker` has run once per tick. */
  function Loop(db: DbState, ticks: seq<Tick>, pd: Pandas): (r: (DbState, seq<Status>))
    ensures |r.1| == |ticks|
    decreases |ticks|
  {
    if ticks == [] then (db, [])
    else
      var prev := Loop(db, ticks[..|ticks| - 1], pd);
      var c := Cycle(prev.0, ticks[|ticks| - 1].net, pd);
      (c.db, prev.1 + [c.status])
  }

  /** One more tick runs one more cycle on the database the earlier ticks left. */
  lemma LoopSnoc(db: DbState, s: seq<Tick>, ts: seq<Tick>, t: Tick, pd: Pandas)
    requires s == ts + [t]
    ensures var prev := Loop(db, ts, pd); var c := Cycle(prev.0, t.net, pd);
      Loop(db, s, pd).0 == c.db && Loop(db, s, pd).1 == prev.1 + [c.status]
  {
    assert s[..|ts|] == ts;
  }

  lemma SplitLast(a: seq<Tick>, b: seq<Tick>)
    requires b != []
    ensures b == b[..|b| - 1] + [b[|b| - 1]]
    ensures a + b == (a + b[..|b| - 1]) + [b[|b| - 1]]
  {
  }

  lemma TakeSnoc(ts: seq<Tick>, i: nat)
    requires i < |ts|
    ensures ts[..i + 1] == ts[..i] + [ts[i]]
  {
  }

  /** Running two stretches of ticks one after the other is running them together. */
  lemma {:induction false} LoopAppend(db: DbState, a: seq<Tick>, b: seq<Tick>, pd: Pandas)
    ensures var mid := Loop(db, a, pd).0;
      Loop(db, a + b, pd).0 == Loop(mid, b, pd).0 && Loop(db, a + b, pd).1 == Loop(db, a, pd).1 + Loop(mid, b, pd).1
    decreases |b|
  {
    if b == [] {
      assert a + b == a;
    } else {
      var b', t := b[..|b| - 1], b[|b| - 1];
      SplitLast(a, b);
      LoopAppend(db, a, b', pd);
      LoopSnoc(db, a + b, a + b', t, pd);
      LoopSnoc(Loop(db, a, pd).0, b, b', t, pd);
    }
  }

  /** A cycle whose download or filter raised changes nothing: every later cycle sees the
      database and produces the status it would have without that cycle. */
  lemma FailedCycleIsSkipped(db: DbState, a: seq<Tick>, t: Tick, b: seq<Tick>, pd: Pandas)
    requires var c := Cycle(Loop(db, a, pd).0, t.net, pd); c.status.Failed? && c.status.error != StoreError
    ensures Loop(db, a + [t] + b, pd).0 == Loop(db, a + b, pd).0
    ensures Loop(db, a + [t] + b, pd).1 ==
      Loop(db, a, pd).1 + [Cycle(Loop(db, a, pd).0, t.net, pd).status] + Loop(Loop(db, a, pd).0, b, pd).1
  {
    LoopAppend(db, a + [t], b, pd);
    LoopAppend(db, a, b, pd);
    assert (a + [t])[..|a + [t]| - 1] == a;
  }

  /** No sequence of cycles ever puts two documents with the same date in a collection. */
  lemma {:induction false} LoopKeepsUnique(db: DbState, ticks: seq<Tick>, pd: Pandas)
    requires UniqueStore(db)
    ensures UniqueStore(Loop(db, ticks, pd).0)
    decreases |ticks|
  {
    if ticks != [] {
      var prev := Loop(db, ticks[..|ticks| - 1], pd).0;
      LoopKeepsUnique(db, ticks[..|ticks| - 1], pd);
      var net := ticks[|ticks| - 1].net;
      match Download(MaxDownloadAttempt, net)
      case Err(_) =>
      case Ok(text) =>
        match FilterCsv(text, pd)
        case Err(_) =>
        case Ok(records) => UpsertKeepsUnique(prev, records);
    }
  }

  /** The `sched.scheduler` of `main_loop` with its clock. Its queue holds the due times of the
      pending `_worker` events; the loop never has more than one pending. */
  class Scheduler {
    var clock: real
    var queue: seq<real>

    constructor (start: real)
      ensures clock == start && queue == []
    {
      clock, queue := start, [];
    }

    /** `scheduler.enter(delay, 1, _worker)`. */
    method Enter(delay: real)
      modifies this
      ensures clock == old(clock) && queue == old(queue) + [old(clock) + delay]
    {
      queue := queue + [clock + delay];
    }

    /** Time spent inside a running event. */
    method Elapse(d: Duration)
      modifies this
      ensures clock == old(clock) + d && queue == old(queue)
    {
      clock := clock + d;
    }

    /** One step of `scheduler.run`: take the pending event and sleep until it is due. */
    method Next() returns (due: real)
      requires queue != []
      modifies this
      ensures due == old(queue[0]) && queue == old(queue[1..]) && clock == Max(old(clock), due)
    {
      due := queue[0];
      queue := queue[1..];
      clock := Max(clock, due);
    }
  }

  /** `_worker()`: run `update_once`, swallow whatever it raised (the status only reaches the
      log), then schedule the next run `timeout` seconds after this one finished. */
  method Worker(db: CoronaDb, sched: Scheduler, tick: Tick, pd: Pandas, timeout: real) returns (status: Status)
    modifies db, sched
    ensures db.State() == Cycle(old(db.State()), tick.net, pd).db
    ensures status == Cycle(old(db.State()), tick.net, pd).status
    ensures sched.clock == old(sched.clock) + tick.duration
    ensures sched.queue == old(sched.queue) + [sched.clock + timeout]
  {
    status := UpdateOnce(db, tick.net, pd);
    sched.Elapse(tick.duration);
    sched.Enter(timeout);
  }

  /** Consecutive run start times `runs` are `gap` apart beyond each run's own duration. */
  predicate Spaced(runs: seq<real>, ticks: seq<Tick>, gap: real)
    requires |runs| <= |ticks|
  {
    forall j :: 0 <= j < |runs| - 1 ==> runs[j + 1] == runs[j] + ticks[j].duration + gap
  }

  lemma SpacedSnoc(runs: seq<real>, ticks: seq<Tick>, gap: real, r: real)
    requires |runs| < |ticks| && Spaced(runs, ticks, gap)
    requires |runs| > 0 ==> r == runs[|runs| - 1] + ticks[|runs| - 1].duration + gap
    ensures Spaced(runs + [r], ticks, gap)
  {
  }

  /** `main_loop(timeout)` observed for `|ticks|` runs of `_worker`, starting at time `start`:
      when each run started, and how each ended. */
  method MainLoop(db: CoronaDb, timeout: real, start: real, ticks: seq<Tick>, pd: Pandas)
    returns (runs: seq<real>, statuses: seq<Status>)
    modifies db
    ensures |runs| == |ticks| && |statuses| == |ticks|
    ensures |ticks| > 0 ==> runs[0] == start
    ensures forall i :: 0 <= i < |ticks| - 1 ==> runs[i + 1] == runs[i] + ticks[i].duration + Max(timeout, 0.0)
    ensures (db.State(), statuses) == Loop(old(db.State()), ticks, pd)
  {
    var sched := new Scheduler(start);
    sched.Enter(0.0);
    runs, statuses := [], [];
    ghost var db0 := db.State();
    var i := 0;
    while i < |ticks|
      invariant 0 <= i <= |ticks|
      invariant |runs| == i && |statuses| == i
      invariant |sched.queue| == 1
      invariant i == 0 ==> sched.clock == start && sched.queue[0] == start
      invariant i > 0 ==> runs[0] == start
      invariant i > 0 ==> sched.clock == runs[i - 1] + ticks[i - 1].duration
      invariant i > 0 ==> sched.queue[0] == sched.clock + timeout
      invariant Spaced(runs, ticks, Max(timeout, 0.0))
      invariant Loop(db0, ticks[..i], pd) == (db.State(), statuses)
    {
      ghost var finished := sched.clock;
      var due := sched.Next();
      assert i > 0 ==> sched.clock == finished + Max(timeout, 0.0);
      SpacedSnoc(runs, ticks, Max(timeout, 0.0), sched.clock);
      runs := runs + [sched.clock];
      var status := Worker(db, sched, ticks[i], pd, timeout);
      TakeSnoc(ticks, i);
      LoopSnoc(db0, ticks[..i + 1], ticks[..i], ticks[i], pd);
      statuses := statuses + [status];
      i := i + 1;
    }
    assert ticks[..i] == ticks;
  }
}
