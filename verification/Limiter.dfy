/**
 The per-IP sliding-window rate limiter (internal/api/middleware.go:16-71). Times are instants on one
 clock that does not go back; the cleanup runs at arbitrary points.
 */
module Limiter {
  import opened Text
  import opened Sorting
  import opened Compaction

  function After(cutoff: int): int -> bool {
    t => t > cutoff
  }

  /** The instants later than the cutoff. */
  function Recent(ts: seq<int>, cutoff: int): seq<int> {
    Filter(ts, After(cutoff))
  }

  function HitsOf(hits: map<string, seq<int>>, ip: string): seq<int> {
    if ip in hits then hits[ip] else []
  }

  datatype Config = Config(max: nat, window: nat)

  /** The decision: fewer than max instants within the last window. */
  predicate Allows(c: Config, ts: seq<int>, now: int) {
    |Recent(ts, now - c.window)| < c.max
  }

  /** `allow`: old instants are dropped, an admitted request is recorded. */
  function Allow(c: Config, hits: map<string, seq<int>>, ip: string, now: int): map<string, seq<int>> {
    var recent := Recent(HitsOf(hits, ip), now - c.window);
    hits[ip := if Allows(c, HitsOf(hits, ip), now) then recent + [now] else recent]
  }

  /** One pass of the background cleanup. */
  function Clean(hits: map<string, seq<int>>, cutoff: int): map<string, seq<int>> {
    map ip | ip in hits && Recent(hits[ip], cutoff) != [] :: Recent(hits[ip], cutoff)
  }

  // ---------------------------------------------------------------- the methods

  class IPRateLimiter {
    const config: Config
    var hits: map<string, seq<int>>

    constructor (max: nat, window: nat)
      ensures hits == map[] && config == Config(max, window)
    {
      config, hits := Config(max, window), map[];
    }

    method Admit(ip: string, now: int) returns (ok: bool)
      modifies this
      ensures ok == Allows(config, HitsOf(old(hits), ip), now)
      ensures hits == Allow(config, old(hits), ip, now)
    {
      var recent := CompactSlice(HitsOf(hits, ip), After(now - config.window));
      if |recent| >= config.max {
        hits := hits[ip := recent];
        return false;
      }
      hits := hits[ip := recent + [now]];
      ok := true;
    }

    method Cleanup(now: int)
      modifies this
      ensures hits == Clean(old(hits), now - config.window)
    {
      var cutoff := now - config.window;
      ghost var before := hits;
      var left := hits.Keys;
      CleanNothing(before, cutoff);
      assert before.Keys - left == {};
      while left != {}
        invariant left <= before.Keys
        invariant hits == CleanedSome(before, before.Keys - left, cutoff)
        decreases left
      {
        var ip :| ip in left;
        CleanNext(before, before.Keys - left, ip, cutoff);
        assert before.Keys - (left - {ip}) == before.Keys - left + {ip};
        hits := CleanOne(hits, ip, cutoff);
        left := left - {ip};
      }
      CleanAll(before, cutoff);
    }
  }

  /** The cleanup of one address. */
  method CleanOne(hits: map<string, seq<int>>, ip: string, cutoff: int) returns (after: map<string, seq<int>>)
    requires ip in hits
    ensures after == if Recent(hits[ip], cutoff) == [] then hits - {ip} else hits[ip := Recent(hits[ip], cutoff)]
  {
    var kept := CompactSlice(hits[ip], After(cutoff));
    if |kept| == 0 {
      after := hits - {ip};
    } else {
      after := hits[ip := kept];
    }
  }

  /** The table when only some addresses have been cleaned yet. */
  function CleanedSome(hits: map<string, seq<int>>, done: set<string>, cutoff: int): map<string, seq<int>> {
    map ip | ip in hits && (ip in done ==> Recent(hits[ip], cutoff) != []) ::
      if ip in done then Recent(hits[ip], cutoff) else hits[ip]
  }

  lemma CleanNothing(hits: map<string, seq<int>>, cutoff: int)
    ensures CleanedSome(hits, {}, cutoff) == hits
  {
  }

  lemma CleanNext(hits: map<string, seq<int>>, done: set<string>, ip: string, cutoff: int)
    requires ip in hits && ip !in done
    ensures var some := CleanedSome(hits, done, cutoff);
            && ip in some && some[ip] == hits[ip]
            && CleanedSome(hits, done + {ip}, cutoff) ==
                 if Recent(hits[ip], cutoff) == [] then some - {ip} else some[ip := Recent(hits[ip], cutoff)]
  {
  }

  lemma CleanAll(hits: map<string, seq<int>>, cutoff: int)
    ensures CleanedSome(hits, hits.Keys - {}, cutoff) == Clean(hits, cutoff)
  {
  }

  // ---------------------------------------------------------------- runs

  datatype Event = Request(ip: string, now: int) | Sweep(now: int)

  ghost predicate Ordered(evs: seq<Event>) {
    forall i, j | 0 <= i < j < |evs| :: evs[i].now <= evs[j].now
  }

  function StepTable(c: Config, table: map<string, seq<int>>, e: Event): map<string, seq<int>> {
    match e
    case Request(ip, now) => Allow(c, table, ip, now)
    case Sweep(now) => Clean(table, now - c.window)
  }

  /** The limiter's table after some events. */
  ghost function TableAfter(c: Config, evs: seq<Event>): map<string, seq<int>> {
    if evs == [] then map[] else StepTable(c, TableAfter(c, evs[..|evs| - 1]), evs[|evs| - 1])
  }

  function StepHistory(c: Config, history: seq<int>, e: Event, ip: string): seq<int> {
    if e.Request? && e.ip == ip && Allows(c, history, e.now) then history + [e.now] else history
  }

  /** Every admission of an address so far, nothing ever forgotten: the reference. */
  ghost function Admissions(c: Config, evs: seq<Event>, ip: string): seq<int> {
    if evs == [] then [] else StepHistory(c, Admissions(c, evs[..|evs| - 1], ip), evs[|evs| - 1], ip)
  }

  lemma RecentTwice(ts: seq<int>, early: int, late: int)
    requires early <= late
    ensures Recent(Recent(ts, early), late) == Recent(ts, late)
  {
    FilterTwice(ts, After(early), After(late));
  }

  lemma RecentBack(ts: seq<int>, t: int, cutoff: int)
    ensures Recent(ts + [t], cutoff) == Recent(ts, cutoff) + (if t > cutoff then [t] else [])
  {
    FilterBack(ts, t, After(cutoff));
  }

  lemma AfterAllow(c: Config, hits: map<string, seq<int>>, who: string, now: int, ip: string, cutoff: int)
    requires cutoff >= now - c.window
    ensures Recent(HitsOf(Allow(c, hits, who, now), ip), cutoff) ==
              Recent(HitsOf(hits, ip), cutoff)
              + (if ip == who && Allows(c, HitsOf(hits, ip), now) && now > cutoff then [now] else [])
  {
    if ip == who {
      var ts := HitsOf(hits, ip);
      RecentTwice(ts, now - c.window, cutoff);
      RecentBack(Recent(ts, now - c.window), now, cutoff);
    }
  }

  lemma AfterClean(hits: map<string, seq<int>>, swept: int, ip: string, cutoff: int)
    requires cutoff >= swept
    ensures Recent(HitsOf(Clean(hits, swept), ip), cutoff) == Recent(HitsOf(hits, ip), cutoff)
  {
    RecentTwice(HitsOf(hits, ip), swept, cutoff);
  }

  lemma OtherRequest(c: Config, table: map<string, seq<int>>, who: string, now: int, ip: string)
    requires ip != who
    ensures HitsOf(Allow(c, table, who, now), ip) == HitsOf(table, ip)
  {
  }

  lemma OwnRequest(c: Config, table: map<string, seq<int>>, history: seq<int>, now: int, ip: string, cutoff: int)
    requires cutoff >= now - c.window && Recent(HitsOf(table, ip), cutoff) == Recent(history, cutoff)
    requires Allows(c, HitsOf(table, ip), now) == Allows(c, history, now)
    ensures Recent(HitsOf(Allow(c, table, ip, now), ip), cutoff) ==
              Recent(if Allows(c, history, now) then history + [now] else history, cutoff)
  {
    AfterAllow(c, table, ip, now, ip, cutoff);
    if Allows(c, history, now) {
      RecentBack(history, now, cutoff);
    }
  }

  /** The table and the history agree on what is later than the cutoff. */
  ghost predicate Agree(table: map<string, seq<int>>, history: seq<int>, ip: string, cutoff: int) {
    Recent(HitsOf(table, ip), cutoff) == Recent(history, cutoff)
  }

  lemma EventStep(c: Config, table: map<string, seq<int>>, history: seq<int>, e: Event, ip: string, cutoff: int)
    requires cutoff >= e.now - c.window
    requires Agree(table, history, ip, cutoff) && Agree(table, history, ip, e.now - c.window)
    ensures Agree(StepTable(c, table, e), StepHistory(c, history, e, ip), ip, cutoff)
  {
    match e
    case Request(who, now) =>
      if who == ip {
        OwnRequest(c, table, history, now, ip, cutoff);
      } else {
        OtherRequest(c, table, who, now, ip);
      }
    case Sweep(now) => AfterClean(table, now - c.window, ip, cutoff);
  }

  /** On everything recent enough to matter, the table and the full history agree. */
  lemma {:induction false} TableMatchesHistory(c: Config, evs: seq<Event>, ip: string, cutoff: int)
    requires Ordered(evs) && (evs != [] ==> cutoff >= evs[|evs| - 1].now - c.window)
    ensures Agree(TableAfter(c, evs), Admissions(c, evs, ip), ip, cutoff)
    decreases |evs|
  {
    if evs != [] {
      OrderedPrefix(evs);
      TableMatchesHistory(c, evs[..|evs| - 1], ip, cutoff);
      TableMatchesHistory(c, evs[..|evs| - 1], ip, evs[|evs| - 1].now - c.window);
      EventStep(c, TableAfter(c, evs[..|evs| - 1]), Admissions(c, evs[..|evs| - 1], ip), evs[|evs| - 1], ip, cutoff);
    }
  }

  lemma OrderedPrefix(evs: seq<Event>)
    requires Ordered(evs) && evs != []
    ensures Ordered(evs[..|evs| - 1])
    ensures |evs| > 1 ==> evs[..|evs| - 1][|evs| - 2].now <= evs[|evs| - 1].now
  {
  }

  /** THE LIMITER FORGETS NOTHING THAT MATTERS. After any events in time order, cleanups included, a request
      is decided as the full history of admissions would decide it. */
  lemma DecidesByHistory(c: Config, evs: seq<Event>, ip: string, now: int)
    requires Ordered(evs) && (evs != [] ==> now >= evs[|evs| - 1].now)
    ensures Allows(c, HitsOf(TableAfter(c, evs), ip), now) <==> Allows(c, Admissions(c, evs, ip), now)
  {
    TableMatchesHistory(c, evs, ip, now - c.window);
  }

  /** The events without the cleanups. */
  ghost function Requests(evs: seq<Event>): seq<Event> {
    Filter(evs, (e: Event) => e.Request?)
  }

  lemma {:induction false} HistoryIgnoresSweeps(c: Config, evs: seq<Event>, ip: string)
    ensures Admissions(c, evs, ip) == Admissions(c, Requests(evs), ip)
    decreases |evs|
  {
    if evs != [] {
      var init, e := evs[..|evs| - 1], evs[|evs| - 1];
      HistoryIgnoresSweeps(c, init, ip);
      if e.Request? {
        assert Requests(evs)[..|Requests(evs)| - 1] == Requests(init);
      }
    }
  }

  /** CLEANUP CHANGES NO DECISION. Two runs with the same requests, however many cleanups either has and
      wherever they fall, decide the next request alike. */
  lemma CleanupChangesNothing(c: Config, evs: seq<Event>, evs': seq<Event>, ip: string, now: int)
    requires Ordered(evs) && Ordered(evs') && Requests(evs) == Requests(evs')
    requires (evs != [] ==> now >= evs[|evs| - 1].now) && (evs' != [] ==> now >= evs'[|evs'| - 1].now)
    ensures Allows(c, HitsOf(TableAfter(c, evs), ip), now) <==> Allows(c, HitsOf(TableAfter(c, evs'), ip), now)
  {
    DecidesByHistory(c, evs, ip, now);
    DecidesByHistory(c, evs', ip, now);
    HistoryIgnoresSweeps(c, evs, ip);
    HistoryIgnoresSweeps(c, evs', ip);
  }

  // ---------------------------------------------------------------- the bound

  function Within(start: int, length: nat): int -> bool {
    t => start < t <= start + length
  }

  lemma {:induction false} HistoryBound(c: Config, evs: seq<Event>, ip: string, start: int)
    requires Ordered(evs)
    ensures |Filter(Admissions(c, evs, ip), Within(start, c.window))| <= c.max
    decreases |evs|
  {
    if evs != [] {
      var n := |evs| - 1;
      var init, e := evs[..n], evs[n];
      HistoryBound(c, init, ip, start);
      var history := Admissions(c, init, ip);
      if e.Request? && e.ip == ip && Allows(c, history, e.now) {
        FilterBack(history, e.now, Within(start, c.window));
        if start < e.now <= start + c.window {
          FilterFewer(history, Within(start, c.window), After(e.now - c.window));
        }
      }
    }
  }

  /** The instants at which the limiter itself, deciding on its table, admitted an address. */
  ghost function Admitted(c: Config, evs: seq<Event>, ip: string): seq<int> {
    if evs == [] then []
    else
      var init, e := evs[..|evs| - 1], evs[|evs| - 1];
      Admitted(c, init, ip)
      + (if e.Request? && e.ip == ip && Allows(c, HitsOf(TableAfter(c, init), ip), e.now) then [e.now] else [])
  }

  /** What the table admits is what the full history admits. */
  lemma {:induction false} AdmittedIsHistory(c: Config, evs: seq<Event>, ip: string)
    requires Ordered(evs)
    ensures Admitted(c, evs, ip) == Admissions(c, evs, ip)
    decreases |evs|
  {
    if evs != [] {
      var init, e := evs[..|evs| - 1], evs[|evs| - 1];
      OrderedPrefix(evs);
      AdmittedIsHistory(c, init, ip);
      DecidesByHistory(c, init, ip, e.now);
    }
  }

  lemma AdmittedNext(c: Config, evs: seq<Event>, e: Event, ip: string)
    ensures Admitted(c, evs + [e], ip) == Admitted(c, evs, ip) +
              (if e.Request? && e.ip == ip && Allows(c, HitsOf(TableAfter(c, evs), ip), e.now) then [e.now] else [])
  {
    var all := evs + [e];
    assert all[..|all| - 1] == evs && all[|evs|] == e;
  }

  lemma AllowsIff(c: Config, ts: seq<int>, now: int)
    ensures Allows(c, ts, now) <==> |Filter(ts, t => now - c.window < t)| < c.max
  {
    SameFilter(ts, After(now - c.window), t => now - c.window < t);
  }

  /** WHO IS ADMITTED: a request, if and only if fewer than max of the address have been admitted within the last
      window, its own instant included and the one a window ago not. */
  lemma AdmittedIff(c: Config, evs: seq<Event>, ip: string, now: int, other: string)
    requires Ordered(evs) && (evs != [] ==> now >= evs[|evs| - 1].now)
    ensures Admitted(c, evs + [Request(ip, now)], ip) ==
              if |Filter(Admitted(c, evs, ip), t => now - c.window < t)| < c.max then Admitted(c, evs, ip) + [now]
              else Admitted(c, evs, ip)
    ensures other != ip ==> Admitted(c, evs + [Request(ip, now)], other) == Admitted(c, evs, other)
    ensures Admitted(c, evs + [Sweep(now)], other) == Admitted(c, evs, other)
  {
    AdmittedNext(c, evs, Request(ip, now), ip);
    AdmittedNext(c, evs, Request(ip, now), other);
    AdmittedNext(c, evs, Sweep(now), other);
    AdmittedIsHistory(c, evs, ip);
    DecidesByHistory(c, evs, ip, now);
    AllowsIff(c, Admitted(c, evs, ip), now);
  }

  /** THE WINDOW BOUND. Whatever the requests and cleanups, no half-open window of the configured length
      holds more than max requests of one address that the limiter admitted. */
  lemma WindowBound(c: Config, evs: seq<Event>, ip: string, start: int)
    requires Ordered(evs)
    ensures |Filter(Admitted(c, evs, ip), Within(start, c.window))| <= c.max
  {
    AdmittedIsHistory(c, evs, ip);
    HistoryBound(c, evs, ip, start);
  }
}
