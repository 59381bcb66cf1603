/**
 The per-client request limiter: a table of fixed windows, swept lazily. A client's window starts
 with a request and admits `limit` requests; the sweep drops windows that have run out.

 Times and the window are integers in the clock's unit. The clock never goes back, which is what
 the traces below assume.
 */
module RateLimiter {
  import opened Wrappers

  type Client = string

  datatype Window = Window(started: int, count: int)

  datatype Config = Config(limit: int, window: int)

  datatype Table = Table(visitors: map<Client, Window>, lastSweep: Option<int>)

  const EMPTY := Table(map[], None)

  predicate SweepDue(cfg: Config, lastSweep: Option<int>, now: int) {
    lastSweep == None || now - lastSweep.value >= cfg.window
  }

  function Live(cfg: Config, visitors: map<Client, Window>, now: int): map<Client, Window> {
    map k | k in visitors && now - visitors[k].started < cfg.window :: visitors[k]
  }

  /** What a request does to its own client's window. */
  function Serve(cfg: Config, entry: Option<Window>, now: int): (Window, bool) {
    if entry == None || now - entry.value.started >= cfg.window then (Window(now, 1), true)
    else if entry.value.count >= cfg.limit then (entry.value, false)
    else (Window(entry.value.started, entry.value.count + 1), true)
  }

  function EntryOf(visitors: map<Client, Window>, client: Client): Option<Window> {
    if client in visitors then Some(visitors[client]) else None
  }

  function Allow(cfg: Config, t: Table, client: Client, now: int): (Table, bool) {
    var swept := if SweepDue(cfg, t.lastSweep, now) then Table(Live(cfg, t.visitors, now), Some(now)) else t;
    var (entry, ok) := Serve(cfg, EntryOf(swept.visitors, client), now);
    (Table(swept.visitors[client := entry], swept.lastSweep), ok)
  }

  class ClientRateLimiter {
    const limit: int
    const window: int
    var visitors: map<Client, Window>
    var lastSweep: Option<int>

    constructor (limit: int, window: int)
      ensures this.limit == limit && this.window == window && visitors == map[] && lastSweep == None
    {
      this.limit, this.window := limit, window;
      visitors, lastSweep := map[], None;
    }

    method Admit(client: Client, now: int) returns (ok: bool)
      modifies this
      ensures (Table(visitors, lastSweep), ok)
           == Allow(Config(limit, window), old(Table(visitors, lastSweep)), client, now)
      ensures lastSweep == if old(lastSweep) == None || now - old(lastSweep).value >= window then Some(now) else old(lastSweep)
      ensures forall k | k != client ::
                && (k in visitors <==>
                      (k in old(visitors)
                       && (now - old(visitors)[k].started < window || (old(lastSweep).Some? && now - old(lastSweep).value < window))))
                && (k in visitors ==> visitors[k] == old(visitors)[k])
      ensures client in visitors && var mine := visitors[client];
              if client in old(visitors) && now - old(visitors)[client].started < window
              then && mine.started == old(visitors)[client].started && (ok <==> old(visitors)[client].count < limit)
                   && mine.count == old(visitors)[client].count + if ok then 1 else 0
              else ok && mine.started == now && mine.count == 1
    {
      if lastSweep == None || now - lastSweep.value >= window {
        Sweep(now);
        lastSweep := Some(now);
      }
      if client !in visitors || now - visitors[client].started >= window {
        visitors := visitors[client := Window(now, 1)];
        return true;
      }
      var entry := visitors[client];
      if entry.count >= limit {
        assert visitors[client := entry] == visitors;
        return false;
      }
      visitors := visitors[client := entry.(count := entry.count + 1)];
      ok := true;
    }

    method Sweep(now: int)
      modifies this`visitors
      ensures visitors == Live(Config(limit, window), old(visitors), now)
    {
      var keys := visitors.Keys;
      while keys != {}
        invariant keys <= visitors.Keys <= old(visitors).Keys
        invariant forall k | k in visitors :: visitors[k] == old(visitors)[k]
        invariant forall k | k in old(visitors) && k !in keys ::
                    k in visitors <==> now - old(visitors)[k].started < window
        decreases keys
      {
        var key :| key in keys;
        if now - visitors[key].started >= window {
          visitors := visitors - {key};
        }
        keys := keys - {key};
      }
    }
  }

  // ---------------------------------------------------------------- traces

  datatype Request = Request(client: Client, at: int)

  /** The clock does not go back. */
  ghost predicate Timely(now: int, trace: seq<Request>) {
    && (forall i | 0 <= i < |trace| :: now <= trace[i].at)
    && (forall i, j | 0 <= i < j < |trace| :: trace[i].at <= trace[j].at)
  }

  ghost function Decisions(cfg: Config, t: Table, trace: seq<Request>): (ds: seq<bool>)
    ensures |ds| == |trace|
    decreases |trace|
  {
    if trace == [] then [] else
      var (next, ok) := Allow(cfg, t, trace[0].client, trace[0].at);
      [ok] + Decisions(cfg, next, trace[1..])
  }

  ghost function After(cfg: Config, t: Table, trace: seq<Request>): Table
    decreases |trace|
  {
    if trace == [] then t else After(cfg, Allow(cfg, t, trace[0].client, trace[0].at).0, trace[1..])
  }

  /** A limiter that never sweeps. */
  ghost function Unswept(cfg: Config, visitors: map<Client, Window>, trace: seq<Request>): (ds: seq<bool>)
    ensures |ds| == |trace|
    decreases |trace|
  {
    if trace == [] then [] else
      var (entry, ok) := Serve(cfg, EntryOf(visitors, trace[0].client), trace[0].at);
      [ok] + Unswept(cfg, visitors[trace[0].client := entry], trace[1..])
  }

  /** The swept table lacks only windows that have run out. */
  ghost predicate Simulates(cfg: Config, swept: map<Client, Window>, full: map<Client, Window>, now: int) {
    && (forall k | k in swept :: k in full && full[k] == swept[k])
    && (forall k | k in full && k !in swept :: now - full[k].started >= cfg.window)
  }

  lemma {:induction false} SimulationHolds(cfg: Config, t: Table, full: map<Client, Window>, trace: seq<Request>, now: int)
    requires Simulates(cfg, t.visitors, full, now) && Timely(now, trace)
    ensures Decisions(cfg, t, trace) == Unswept(cfg, full, trace)
    decreases |trace|
  {
    if trace == [] {
    } else {
      var at, client := trace[0].at, trace[0].client;
      var swept := if SweepDue(cfg, t.lastSweep, at) then Live(cfg, t.visitors, at) else t.visitors;
      assert Simulates(cfg, swept, full, at);
      var entry := Serve(cfg, EntryOf(full, client), at).0;
      assert Serve(cfg, EntryOf(swept, client), at) == Serve(cfg, EntryOf(full, client), at);
      SimulationHolds(cfg, Allow(cfg, t, client, at).0, full[client := entry], trace[1..], at);
    }
  }

  /** The sweep cannot be observed. */
  lemma SweepIsUnobservable(cfg: Config, trace: seq<Request>, now: int)
    requires Timely(now, trace)
    ensures Decisions(cfg, EMPTY, trace) == Unswept(cfg, map[], trace)
  {
    SimulationHolds(cfg, EMPTY, map[], trace, now);
  }

  // ---------------------------------------------------------------- one client

  function Only(client: Client, trace: seq<Request>): seq<Request> {
    if trace == [] then []
    else (if trace[0].client == client then [trace[0]] else []) + Only(client, trace[1..])
  }

  /** The decisions taken on one client's requests. */
  function DecisionsFor(client: Client, trace: seq<Request>, ds: seq<bool>): seq<bool>
    requires |ds| == |trace|
  {
    if trace == [] then []
    else (if trace[0].client == client then [ds[0]] else []) + DecisionsFor(client, trace[1..], ds[1..])
  }

  /** One client alone: its window and its request times. */
  ghost function Solo(cfg: Config, entry: Option<Window>, times: seq<int>): (ds: seq<bool>)
    ensures |ds| == |times|
    decreases |times|
  {
    if times == [] then [] else
      var (next, ok) := Serve(cfg, entry, times[0]);
      [ok] + Solo(cfg, Some(next), times[1..])
  }

  function Times(trace: seq<Request>): seq<int> {
    if trace == [] then [] else [trace[0].at] + Times(trace[1..])
  }

  lemma {:induction false} UnsweptIsSolo(cfg: Config, full: map<Client, Window>, trace: seq<Request>, client: Client)
    ensures DecisionsFor(client, trace, Unswept(cfg, full, trace))
            == Solo(cfg, EntryOf(full, client), Times(Only(client, trace)))
    decreases |trace|
  {
    if trace == [] {
    } else {
      var r := trace[0];
      var (entry, ok) := Serve(cfg, EntryOf(full, r.client), r.at);
      var rest := Unswept(cfg, full[r.client := entry], trace[1..]);
      assert Unswept(cfg, full, trace)[1..] == rest;
      UnsweptIsSolo(cfg, full[r.client := entry], trace[1..], client);
      if r.client == client {
        assert Only(client, trace)[1..] == Only(client, trace[1..]);
        assert Times(Only(client, trace)) == [r.at] + Times(Only(client, trace[1..]));
        assert Times(Only(client, trace))[1..] == Times(Only(client, trace[1..]));
      } else {
        assert Only(client, trace) == Only(client, trace[1..]);
      }
    }
  }

  lemma {:induction false} OnlyTimely(client: Client, trace: seq<Request>, now: int)
    requires Timely(now, trace)
    ensures Timely(now, Only(client, trace)) && forall r | r in Only(client, trace) :: r.client == client
    decreases |trace|
  {
    if trace == [] {
    } else {
      assert Timely(trace[0].at, trace[1..]);
      OnlyTimely(client, trace[1..], trace[0].at);
    }
  }

  lemma {:induction false} AllTheirs(client: Client, trace: seq<Request>, ds: seq<bool>)
    requires |ds| == |trace| && forall r | r in trace :: r.client == client
    ensures Only(client, trace) == trace && DecisionsFor(client, trace, ds) == ds
    decreases |trace|
  {
    if trace == [] {
    } else {
      AllTheirs(client, trace[1..], ds[1..]);
    }
  }

  /** A client's decisions are those of its window alone. */
  lemma DecisionsAreSolo(cfg: Config, trace: seq<Request>, client: Client, now: int)
    requires Timely(now, trace)
    ensures DecisionsFor(client, trace, Decisions(cfg, EMPTY, trace)) == Solo(cfg, None, Times(Only(client, trace)))
  {
    SweepIsUnobservable(cfg, trace, now);
    UnsweptIsSolo(cfg, map[], trace, client);
  }

  /** Clients do not affect each other: the same decisions as if the others had made no request. */
  lemma ClientsAreIsolated(cfg: Config, trace: seq<Request>, client: Client, now: int)
    requires Timely(now, trace)
    ensures DecisionsFor(client, trace, Decisions(cfg, EMPTY, trace)) == Decisions(cfg, EMPTY, Only(client, trace))
  {
    var mine := Only(client, trace);
    OnlyTimely(client, trace, now);
    DecisionsAreSolo(cfg, trace, client, now);
    DecisionsAreSolo(cfg, mine, client, now);
    AllTheirs(client, mine, Decisions(cfg, EMPTY, mine));
  }

  // ---------------------------------------------------------------- the sliding bound

  /** Even a limit below one admits the request that opens a window. */
  function Cap(cfg: Config): int {
    if cfg.limit < 1 then 1 else cfg.limit
  }

  /** Admitted requests at times in [from, to). */
  function Count(times: seq<int>, ds: seq<bool>, from: int, to: int): nat
    requires |ds| == |times|
  {
    if times == [] then 0
    else (if ds[0] && from <= times[0] < to then 1 else 0) + Count(times[1..], ds[1..], from, to)
  }

  ghost predicate Sorted(now: int, times: seq<int>)
    decreases |times|
  {
    times != [] ==> now <= times[0] && Sorted(times[0], times[1..])
  }

  lemma {:induction false} NoneBackIsSorted(now: int, times: seq<int>)
    requires forall i | 0 <= i < |times| :: now <= times[i]
    requires forall i, j | 0 <= i < j < |times| :: times[i] <= times[j]
    ensures Sorted(now, times)
    decreases |times|
  {
    if times == [] {
    } else {
      NoneBackIsSorted(times[0], times[1..]);
    }
  }

  lemma {:induction false} TimesSorted(trace: seq<Request>, now: int)
    requires Timely(now, trace)
    ensures |Times(trace)| == |trace| && (forall i | 0 <= i < |trace| :: Times(trace)[i] == trace[i].at)
    ensures Sorted(now, Times(trace))
    decreases |trace|
  {
    if trace == [] {
    } else {
      TimesSorted(trace[1..], trace[0].at);
    }
  }

  ghost predicate WindowOk(cfg: Config, entry: Option<Window>, now: int) {
    entry.Some? ==> 1 <= entry.value.count <= Cap(cfg) && entry.value.started <= now
  }

  /** How many more requests can be admitted in [a, a + window), at time now with this window. */
  function Room(cfg: Config, entry: Option<Window>, now: int, a: int): int {
    if now >= a + cfg.window then 0
    else if now < a then 2 * Cap(cfg) - 1
    else if entry == None then Cap(cfg)
    else if entry.value.started < a then 2 * Cap(cfg) - entry.value.count
    else Cap(cfg) - entry.value.count
  }

  lemma {:induction false} RoomBounds(cfg: Config, entry: Option<Window>, times: seq<int>, now: int, a: int)
    requires WindowOk(cfg, entry, now) && Sorted(now, times)
    ensures Count(times, Solo(cfg, entry, times), a, a + cfg.window) <= Room(cfg, entry, now, a)
    decreases |times|
  {
    if times == [] {
    } else {
      var (next, ok) := Serve(cfg, entry, times[0]);
      assert Solo(cfg, entry, times)[1..] == Solo(cfg, Some(next), times[1..]);
      RoomBounds(cfg, Some(next), times[1..], times[0], a);
    }
  }

  /** Over any trace, any half-open interval one window long contains at most 2 * limit - 1 admitted
      requests of one client. */
  lemma SlidingBound(cfg: Config, trace: seq<Request>, client: Client, now: int, a: int)
    requires Timely(now, trace)
    ensures var times := Times(Only(client, trace));
            var ds := DecisionsFor(client, trace, Decisions(cfg, EMPTY, trace));
            |ds| == |times| && Count(times, ds, a, a + cfg.window) <= 2 * Cap(cfg) - 1
  {
    OnlyTimely(client, trace, now);
    TimesSorted(Only(client, trace), now);
    DecisionsAreSolo(cfg, trace, client, now);
    RoomBounds(cfg, None, Times(Only(client, trace)), now, a);
  }

  // ---------------------------------------------------------------- one window

  /** The window a client alone is left with. */
  ghost function SoloEntry(cfg: Config, entry: Option<Window>, times: seq<int>): Option<Window>
    decreases |times|
  {
    if times == [] then entry else SoloEntry(cfg, Some(Serve(cfg, entry, times[0]).0), times[1..])
  }

  lemma {:induction false} SoloSplit(cfg: Config, entry: Option<Window>, early: seq<int>, late: seq<int>)
    ensures Solo(cfg, entry, early + late) == Solo(cfg, entry, early) + Solo(cfg, SoloEntry(cfg, entry, early), late)
    decreases |early|
  {
    if early == [] {
      assert early + late == late;
    } else {
      var (next, ok) := Serve(cfg, entry, early[0]);
      assert (early + late)[0] == early[0] && (early + late)[1..] == early[1..] + late;
      SoloSplit(cfg, Some(next), early[1..], late);
    }
  }

  lemma {:induction false} CountSplit(early: seq<int>, late: seq<int>, ds: seq<bool>, es: seq<bool>, from: int, to: int)
    requires |ds| == |early| && |es| == |late|
    ensures Count(early + late, ds + es, from, to) == Count(early, ds, from, to) + Count(late, es, from, to)
    decreases |early|
  {
    if early == [] {
      assert early + late == late && ds + es == es;
    } else {
      assert (early + late)[1..] == early[1..] + late && (ds + es)[1..] == ds[1..] + es;
      CountSplit(early[1..], late, ds[1..], es, from, to);
    }
  }

  lemma {:induction false} CountNone(times: seq<int>, ds: seq<bool>, from: int, to: int)
    requires |ds| == |times| && (to <= from || forall i | 0 <= i < |times| :: times[i] < from)
    ensures Count(times, ds, from, to) == 0
    decreases |times|
  {
    if times == [] {
    } else {
      CountNone(times[1..], ds[1..], from, to);
    }
  }

  function Last(now: int, times: seq<int>): int {
    if times == [] then now else times[|times| - 1]
  }

  lemma {:induction false} SortedParts(now: int, early: seq<int>, late: seq<int>)
    requires Sorted(now, early + late)
    ensures Sorted(now, early) && Sorted(Last(now, early), late)
    decreases |early|
  {
    if early == [] {
      assert early + late == late;
    } else {
      assert (early + late)[0] == early[0] && (early + late)[1..] == early[1..] + late;
      assert Last(now, early) == Last(early[0], early[1..]);
      SortedParts(early[0], early[1..], late);
    }
  }

  lemma {:induction false} LastIsLatest(now: int, times: seq<int>)
    requires Sorted(now, times)
    ensures now <= Last(now, times) && forall i | 0 <= i < |times| :: times[i] <= Last(now, times)
    decreases |times|
  {
    if times == [] {
    } else {
      LastIsLatest(times[0], times[1..]);
      assert Last(now, times) == Last(times[0], times[1..]);
      assert forall i | 0 < i < |times| :: times[i] == times[1..][i - 1];
    }
  }

  /** A client's last request falls into the window it leaves, which is sound. */
  lemma {:induction false} SoloEntryOk(cfg: Config, entry: Option<Window>, times: seq<int>, now: int)
    requires WindowOk(cfg, entry, now) && Sorted(now, times)
    ensures WindowOk(cfg, SoloEntry(cfg, entry, times), Last(now, times))
    ensures times != [] && cfg.window > 0 ==>
              var after := SoloEntry(cfg, entry, times); after.Some? && Last(now, times) - after.value.started < cfg.window
    decreases |times|
  {
    if times == [] {
    } else {
      SoloEntryOk(cfg, Some(Serve(cfg, entry, times[0]).0), times[1..], times[0]);
    }
  }

  /** The table's entry is the client's window, or the window has run out and been swept. */
  ghost predicate Tracks(cfg: Config, entry: Option<Window>, full: Option<Window>, now: int) {
    entry == full || (entry == None && full.Some? && now - full.value.started >= cfg.window)
  }

  lemma {:induction false} TableTracksSolo(cfg: Config, t: Table, full: Option<Window>, trace: seq<Request>, now: int, client: Client, later: int)
    requires Timely(now, trace) && now <= later && (forall r | r in trace :: r.at <= later)
    requires Tracks(cfg, EntryOf(t.visitors, client), full, now)
    ensures Tracks(cfg, EntryOf(After(cfg, t, trace).visitors, client), SoloEntry(cfg, full, Times(Only(client, trace))), later)
    decreases |trace|
  {
    if trace == [] {
    } else {
      var r := trace[0];
      var next := Allow(cfg, t, r.client, r.at).0;
      if r.client == client {
        assert Only(client, trace) == [r] + Only(client, trace[1..]);
        assert Times(Only(client, trace)) == [r.at] + Times(Only(client, trace[1..]));
        TableTracksSolo(cfg, next, Some(Serve(cfg, full, r.at).0), trace[1..], r.at, client, later);
      } else {
        assert Only(client, trace) == Only(client, trace[1..]);
        TableTracksSolo(cfg, next, full, trace[1..], r.at, client, later);
      }
    }
  }

  lemma {:induction false} OnlySplit(client: Client, early: seq<Request>, late: seq<Request>)
    ensures Only(client, early + late) == Only(client, early) + Only(client, late)
    decreases |early|
  {
    if early == [] {
      assert early + late == late;
    } else {
      var mine := if early[0].client == client then [early[0]] else [];
      assert (early + late)[0] == early[0] && (early + late)[1..] == early[1..] + late;
      OnlySplit(client, early[1..], late);
      assert Only(client, early) == mine + Only(client, early[1..]);
      assert mine + (Only(client, early[1..]) + Only(client, late)) == mine + Only(client, early[1..]) + Only(client, late);
    }
  }

  lemma {:induction false} TimesSplit(early: seq<Request>, late: seq<Request>)
    ensures Times(early + late) == Times(early) + Times(late)
    decreases |early|
  {
    if early == [] {
      assert early + late == late;
    } else {
      assert (early + late)[0] == early[0] && (early + late)[1..] == early[1..] + late;
      TimesSplit(early[1..], late);
    }
  }

  /** From its first request until it runs out. */
  lemma SoloWindowBound(cfg: Config, entry: Option<Window>, times: seq<int>, now: int)
    requires WindowOk(cfg, entry, now) && Sorted(now, times) && times != []
    requires entry == None || times[0] - entry.value.started >= cfg.window
    ensures Count(times, Solo(cfg, entry, times), times[0], times[0] + cfg.window) <= Cap(cfg)
  {
    assert Solo(cfg, entry, times)[1..] == Solo(cfg, Some(Window(times[0], 1)), times[1..]);
    RoomBounds(cfg, Some(Window(times[0], 1)), times[1..], times[0], times[0]);
  }

  /** Nothing admitted before a window opens falls into it. */
  lemma EarlierNotCounted(cfg: Config, early: seq<int>, at: int, now: int)
    requires Sorted(now, early) && Last(now, early) <= at
    requires var entry := SoloEntry(cfg, None, early); entry == None || at - entry.value.started >= cfg.window
    ensures Count(early, Solo(cfg, None, early), at, at + cfg.window) == 0
  {
    SoloEntryOk(cfg, None, early, now);
    LastIsLatest(now, early);
    if cfg.window > 0 {
      assert forall i | 0 <= i < |early| :: early[i] <= Last(now, early) < at;
    }
    CountNone(early, Solo(cfg, None, early), at, at + cfg.window);
  }

  lemma LaterCounted(cfg: Config, early: seq<int>, late: seq<int>, now: int)
    requires Sorted(now, early) && late != [] && Sorted(Last(now, early), late)
    requires var entry := SoloEntry(cfg, None, early); entry == None || late[0] - entry.value.started >= cfg.window
    ensures Count(late, Solo(cfg, SoloEntry(cfg, None, early), late), late[0], late[0] + cfg.window) <= Cap(cfg)
  {
    SoloEntryOk(cfg, None, early, now);
    SoloWindowBound(cfg, SoloEntry(cfg, None, early), late, Last(now, early));
  }

  lemma OpenedWindowBound(cfg: Config, early: seq<int>, late: seq<int>, now: int)
    requires Sorted(now, early) && late != [] && Sorted(Last(now, early), late)
    requires var entry := SoloEntry(cfg, None, early); entry == None || late[0] - entry.value.started >= cfg.window
    ensures Count(early + late, Solo(cfg, None, early + late), late[0], late[0] + cfg.window) <= Cap(cfg)
  {
    EarlierNotCounted(cfg, early, late[0], now);
    LaterCounted(cfg, early, late, now);
    CountOfBoth(cfg, None, early, late, late[0], late[0] + cfg.window);
  }

  lemma CountOfBoth(cfg: Config, entry: Option<Window>, early: seq<int>, late: seq<int>, from: int, to: int)
    ensures Count(early + late, Solo(cfg, entry, early + late), from, to)
            == Count(early, Solo(cfg, entry, early), from, to) + Count(late, Solo(cfg, SoloEntry(cfg, entry, early), late), from, to)
  {
    SoloSplit(cfg, entry, early, late);
    CountSplit(early, late, Solo(cfg, entry, early), Solo(cfg, SoloEntry(cfg, entry, early), late), from, to);
  }

  lemma TheirTimes(trace: seq<Request>, j: nat)
    requires j < |trace|
    ensures var client := trace[j].client;
            var late := Times(Only(client, trace[j..]));
            late != [] && late[0] == trace[j].at && Times(Only(client, trace)) == Times(Only(client, trace[..j])) + late
  {
    var client := trace[j].client;
    assert trace == trace[..j] + trace[j..];
    OnlySplit(client, trace[..j], trace[j..]);
    TimesSplit(Only(client, trace[..j]), Only(client, trace[j..]));
  }

  /** A request that starts a window: its client has none in the table, or one that has run out. */
  ghost predicate Opens(cfg: Config, t: Table, r: Request) {
    var entry := EntryOf(t.visitors, r.client);
    entry == None || r.at - entry.value.started >= cfg.window
  }

  /** In every trace, every window admits at most `limit` requests of its client until it runs out. */
  lemma WindowBound(cfg: Config, trace: seq<Request>, j: nat, now: int)
    requires Timely(now, trace) && j < |trace| && Opens(cfg, After(cfg, EMPTY, trace[..j]), trace[j])
    ensures var client, at := trace[j].client, trace[j].at;
            var times := Times(Only(client, trace));
            var ds := DecisionsFor(client, trace, Decisions(cfg, EMPTY, trace));
            |ds| == |times| && Count(times, ds, at, at + cfg.window) <= Cap(cfg)
  {
    var client, at := trace[j].client, trace[j].at;
    var early, late := Times(Only(client, trace[..j])), Times(Only(client, trace[j..]));
    TheirTimes(trace, j);
    OnlyTimely(client, trace, now);
    TimesSorted(Only(client, trace), now);
    DecisionsAreSolo(cfg, trace, client, now);
    TableTracksSolo(cfg, EMPTY, None, trace[..j], now, client, at);
    SortedParts(now, early, late);
    OpenedWindowBound(cfg, early, late, now);
  }

  // ---------------------------------------------------------------- the bound is reached

  function Repeat(t: int, n: nat): seq<int> {
    seq(n, _ => t)
  }

  lemma {:induction false} RepeatSorted(now: int, t: int, n: nat, rest: seq<int>)
    requires now <= t && Sorted(t, rest)
    ensures Sorted(now, Repeat(t, n) + rest)
    decreases n
  {
    if n == 0 {
      assert Repeat(t, n) + rest == rest;
    } else {
      RepeatSorted(t, t, n - 1, rest);
      assert (Repeat(t, n) + rest)[1..] == Repeat(t, n - 1) + rest;
    }
  }

  lemma BurstSorted(cfg: Config)
    requires cfg.limit >= 1 && cfg.window >= 1
    ensures Sorted(0, Burst(cfg))
  {
    var w, n := cfg.window, cfg.limit - 1;
    var late := [w] + (Repeat(w, n) + []);
    RepeatSorted(w, w, n, []);
    assert late[1..] == Repeat(w, n) + [];
    RepeatSorted(0, w - 1, n, late);
    assert Burst(cfg)[1..] == Repeat(w - 1, n) + late;
  }

  lemma {:induction false} AllOfRepeat(cfg: Config, w: Window, t: int, n: nat, a: int, b: int)
    requires 0 <= t - w.started < cfg.window && w.count + n <= cfg.limit && a <= t < b
    ensures Count(Repeat(t, n), Solo(cfg, Some(w), Repeat(t, n)), a, b) == n
    ensures SoloEntry(cfg, Some(w), Repeat(t, n)) == Some(Window(w.started, w.count + n))
    decreases n
  {
    if n == 0 {
    } else {
      var next := Window(w.started, w.count + 1);
      AllOfRepeat(cfg, next, t, n - 1, a, b);
      assert Repeat(t, n)[1..] == Repeat(t, n - 1);
      assert Solo(cfg, Some(w), Repeat(t, n))[1..] == Solo(cfg, Some(next), Repeat(t, n - 1));
    }
  }

  lemma SoloRepeat(cfg: Config, w: Window, t: int, n: nat, rest: seq<int>, a: int, b: int)
    requires 0 <= t - w.started < cfg.window && w.count + n <= cfg.limit && a <= t < b
    ensures var times := Repeat(t, n) + rest;
            Count(times, Solo(cfg, Some(w), times), a, b)
            == n + Count(rest, Solo(cfg, Some(Window(w.started, w.count + n)), rest), a, b)
  {
    AllOfRepeat(cfg, w, t, n, a, b);
    CountOfBoth(cfg, Some(w), Repeat(t, n), rest, a, b);
  }

  /** A first request at t opens a window; more follow at the same time. */
  lemma SoloOpens(cfg: Config, entry: Option<Window>, t: int, n: nat, rest: seq<int>, a: int, b: int)
    requires entry == None || t - entry.value.started >= cfg.window
    requires cfg.window > 0 && n + 1 <= cfg.limit && a <= t < b
    ensures var times := [t] + (Repeat(t, n) + rest);
            Count(times, Solo(cfg, entry, times), a, b)
            == n + 1 + Count(rest, Solo(cfg, Some(Window(t, n + 1)), rest), a, b)
  {
    var more := Repeat(t, n) + rest;
    var times := [t] + more;
    assert times[1..] == more;
    assert Solo(cfg, entry, times)[1..] == Solo(cfg, Some(Window(t, 1)), more);
    SoloRepeat(cfg, Window(t, 1), t, n, rest, a, b);
  }

  /** One request, then limit - 1 at the end of its window and limit at the start of the next. */
  function Burst(cfg: Config): seq<int>
    requires cfg.limit >= 1
  {
    var w, n := cfg.window, cfg.limit - 1;
    [0] + (Repeat(w - 1, n) + ([w] + (Repeat(w, n) + [])))
  }

  /** The bound cannot be improved: the burst is admitted whole, 2 * limit - 1 requests of it within
      one window's length. */
  lemma SlidingBoundIsTight(cfg: Config)
    requires cfg.limit >= 1 && cfg.window >= 2
    ensures var w := cfg.window;
            Sorted(0, Burst(cfg)) && Count(Burst(cfg), Solo(cfg, None, Burst(cfg)), w - 1, w - 1 + w) == 2 * cfg.limit - 1
  {
    var w, n := cfg.window, cfg.limit - 1;
    var late := [w] + (Repeat(w, n) + []);
    var early := Repeat(w - 1, n) + late;
    var times := Burst(cfg);
    BurstSorted(cfg);
    assert times == [0] + early;
    SoloOpens(cfg, Some(Window(0, n + 1)), w, n, [], w - 1, w - 1 + w);
    SoloRepeat(cfg, Window(0, 1), w - 1, n, late, w - 1, w - 1 + w);
    assert times[1..] == early;
    assert Solo(cfg, None, times)[1..] == Solo(cfg, Some(Window(0, 1)), early);
  }

  // ---------------------------------------------------------------- conforming clients

  /** Requests made in the interval of the given length. */
  function Made(times: seq<int>, from: int, length: int): nat {
    if times == [] then 0
    else (if from <= times[0] < from + length then 1 else 0) + Made(times[1..], from, length)
  }

  ghost predicate Conforming(cfg: Config, times: seq<int>) {
    forall a :: Made(times, a, cfg.window) <= cfg.limit
  }

  lemma {:induction false} MadeSplit(times: seq<int>, i: nat, from: int, length: int)
    requires i <= |times|
    ensures Made(times, from, length) == Made(times[..i], from, length) + Made(times[i..], from, length)
    decreases i
  {
    if i > 0 {
      MadeSplit(times[1..], i - 1, from, length);
      assert times[..i][1..] == times[1..][..i - 1];
      assert times[1..][i - 1..] == times[i..];
    } else {
      assert times[i..] == times;
    }
  }

  lemma {:induction false} MadeNone(times: seq<int>, from: int, length: int)
    requires forall i | 0 <= i < |times| :: times[i] < from
    ensures Made(times, from, length) == 0
    decreases |times|
  {
    if times == [] {
    } else {
      MadeNone(times[1..], from, length);
    }
  }

  /** One more request after times[..i]. */
  lemma MadeNext(times: seq<int>, i: nat, from: int, length: int)
    requires i < |times|
    ensures Made(times[..i + 1], from, length)
            == Made(times[..i], from, length) + (if from <= times[i] < from + length then 1 else 0)
    ensures Made(times[..i + 1], from, length) <= Made(times, from, length)
  {
    MadeSplit(times[..i + 1], i, from, length);
    assert times[..i + 1][..i] == times[..i] && times[..i + 1][i..] == [times[i]];
    assert [times[i]][1..] == [];
    MadeSplit(times, i + 1, from, length);
  }

  /** After times[..i], all admitted, the current window has counted every request since it began. */
  lemma {:induction false} ConformingSuffix(cfg: Config, times: seq<int>, i: nat, entry: Option<Window>)
    requires i <= |times| && forall j, k | 0 <= j < k < |times| :: times[j] <= times[k]
    requires cfg.window > 0 && Conforming(cfg, times)
    requires entry == None <==> i == 0
    requires entry.Some? ==> var w := entry.value;
               && w.started <= times[i - 1] < w.started + cfg.window
               && w.count == Made(times[..i], w.started, cfg.window)
    ensures forall j | 0 <= j < |times| - i :: Solo(cfg, entry, times[i..])[j]
    decreases |times| - i
  {
    if i == |times| {
    } else {
      var t := times[i];
      var (next, ok) := Serve(cfg, entry, t);
      assert times[i..][1..] == times[i + 1..];
      if entry.Some? && t - entry.value.started < cfg.window {
        MadeNext(times, i, entry.value.started, cfg.window);
        assert Made(times, entry.value.started, cfg.window) <= cfg.limit;
      } else {
        MadeNone(times[..i], t, cfg.window);
        MadeNext(times, i, t, cfg.window);
      }
      assert ok;
      ConformingSuffix(cfg, times, i + 1, Some(next));
    }
  }

  /** A window without length has always run out. */
  lemma {:induction false} NoWindowNoRefusal(cfg: Config, times: seq<int>, now: int, entry: Option<Window>)
    requires cfg.window <= 0 && Sorted(now, times) && (entry.Some? ==> entry.value.started <= now)
    ensures forall j | 0 <= j < |times| :: Solo(cfg, entry, times)[j]
    decreases |times|
  {
    if times == [] {
    } else {
      NoWindowNoRefusal(cfg, times[1..], times[0], Some(Serve(cfg, entry, times[0]).0));
    }
  }

  /** A client that makes at most `limit` requests in every interval one window long is never refused. */
  lemma ConformingNeverRefused(cfg: Config, trace: seq<Request>, client: Client, now: int)
    requires Timely(now, trace) && Conforming(cfg, Times(Only(client, trace)))
    ensures var ds := DecisionsFor(client, trace, Decisions(cfg, EMPTY, trace));
            forall i | 0 <= i < |ds| :: ds[i]
  {
    var times := Times(Only(client, trace));
    OnlyTimely(client, trace, now);
    TimesSorted(Only(client, trace), now);
    DecisionsAreSolo(cfg, trace, client, now);
    if cfg.window <= 0 {
      NoWindowNoRefusal(cfg, times, now, None);
    } else {
      ConformingSuffix(cfg, times, 0, None);
      assert times[0..] == times;
    }
  }

  // ---------------------------------------------------------------- the table

  /** Entries are no older than the last sweep allows, and each one was opened by a request. */
  ghost predicate TableOk(cfg: Config, t: Table, now: int) {
    && (t.lastSweep == None ==> t.visitors == map[])
    && (t.lastSweep.Some? ==> t.lastSweep.value <= now < t.lastSweep.value + cfg.window)
    && forall k | k in t.visitors ::
         t.visitors[k].started <= now && t.lastSweep.Some? && t.lastSweep.value < t.visitors[k].started + cfg.window
  }

  lemma AllowKeepsTable(cfg: Config, t: Table, client: Client, before: int, now: int)
    requires cfg.window > 0 && before <= now && TableOk(cfg, t, before)
    ensures TableOk(cfg, Allow(cfg, t, client, now).0, now)
  {
  }

  ghost predicate Opened(trace: seq<Request>, client: Client, at: int) {
    exists i | 0 <= i < |trace| :: trace[i] == Request(client, at)
  }

  lemma {:induction false} TableInvariant(cfg: Config, t: Table, past: seq<Request>, trace: seq<Request>, now: int)
    requires cfg.window > 0 && TableOk(cfg, t, now) && Timely(now, trace)
    requires forall k | k in t.visitors :: Opened(past, k, t.visitors[k].started)
    ensures TableOk(cfg, After(cfg, t, trace), if trace == [] then now else trace[|trace| - 1].at)
    ensures forall k | k in After(cfg, t, trace).visitors :: Opened(past + trace, k, After(cfg, t, trace).visitors[k].started)
    decreases |trace|
  {
    if trace == [] {
      assert past + trace == past;
    } else {
      var r := trace[0];
      var next := Allow(cfg, t, r.client, r.at).0;
      AllowKeepsTable(cfg, t, r.client, now, r.at);
      forall k | k in next.visitors ensures Opened(past + [r], k, next.visitors[k].started) {
        if k in t.visitors && t.visitors[k].started == next.visitors[k].started {
          var i :| 0 <= i < |past| && past[i] == Request(k, t.visitors[k].started);
          assert (past + [r])[i] == past[i];
        } else {
          assert (past + [r])[|past|] == r;
        }
      }
      TableInvariant(cfg, next, past + [r], trace[1..], r.at);
      assert past + [r] + trace[1..] == past + trace;
    }
  }

  /** After any call every retained entry was opened by a request of its client less than two windows
      ago, so the table never outgrows the clients seen in the last two windows. */
  lemma TableIsRecent(cfg: Config, trace: seq<Request>, now: int)
    requires cfg.window > 0 && Timely(now, trace) && trace != []
    ensures var t, last := After(cfg, EMPTY, trace), trace[|trace| - 1].at;
            forall k | k in t.visitors ::
              last - t.visitors[k].started < 2 * cfg.window && Opened(trace, k, t.visitors[k].started)
  {
    TableInvariant(cfg, EMPTY, [], trace, now);
    assert [] + trace == trace;
  }
}
