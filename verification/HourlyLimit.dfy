/**
  The per-VM hourly mail limiter.  Inbound delivery (internal/gateway/email.go)
  and outbound sending (internal/gateway/email_send.go) use the same counter: a
  fixed window that starts on the clock hour.  Times are nanoseconds since the
  zero time.
*/
module HourlyLimit {

  const HOUR := 3_600_000_000_000
  const INBOUND_DEFAULT := 100
  const OUTBOUND_DEFAULT := 10

  /** Rounding down to a multiple of one hour. */
  function HourStart(now: int): int {
    now - now % HOUR
  }

  function EffectiveLimit(configured: int, default: int): (limit: int)
    requires default >= 1
    ensures limit == (if configured >= 1 then configured else default) >= 1
  {
    if configured <= 0 then default else configured
  }

  datatype Window = Window(count: int, windowAt: int)

  type Table = map<string, Window>

  predicate InWindow(table: Table, vm: string, now: int) {
    vm in table && table[vm].windowAt == HourStart(now)
  }

  predicate Allowed(limit: int, table: Table, vm: string, now: int) {
    InWindow(table, vm, now) ==> table[vm].count < limit
  }

  function AfterCheck(limit: int, table: Table, vm: string, now: int): Table {
    if !InWindow(table, vm, now) then table[vm := Window(1, HourStart(now))]
    else if table[vm].count >= limit then table
    else table[vm := Window(table[vm].count + 1, table[vm].windowAt)]
  }

  class Bucket {
    var count: int
    var windowAt: int

    constructor (windowAt: int)
      ensures count == 1 && this.windowAt == windowAt
    {
      count := 1;
      this.windowAt := windowAt;
    }

    function State(): Window
      reads this
    {
      Window(count, windowAt)
    }
  }

  class HourlyLimiter {
    const limit: int
    var vmRates: map<string, Bucket>

    ghost predicate Valid()
      reads this
    {
      limit >= 1 && forall v, w :: v in vmRates && w in vmRates && v != w ==> vmRates[v] != vmRates[w]
    }

    ghost function Contents(): Table
      reads this, vmRates.Values
    {
      map v | v in vmRates :: vmRates[v].State()
    }

    constructor Inbound(configured: int)
      ensures Valid() && limit == (if configured >= 1 then configured else 100) && Contents() == map[]
    {
      limit := EffectiveLimit(configured, INBOUND_DEFAULT);
      vmRates := map[];
    }

    constructor Outbound(configured: int)
      ensures Valid() && limit == (if configured >= 1 then configured else 10) && Contents() == map[]
    {
      limit := EffectiveLimit(configured, OUTBOUND_DEFAULT);
      vmRates := map[];
    }

    /** checkVMRate inbound, checkSendRate outbound. */
    method Check(vm: string, now: int) returns (ok: bool)
      requires Valid()
      modifies this, vmRates.Values
      ensures Valid()
      ensures ok == Allowed(limit, old(Contents()), vm, now)
      ensures Contents() == AfterCheck(limit, old(Contents()), vm, now)
    {
      var currentHour := HourStart(now);
      if vm !in vmRates || vmRates[vm].windowAt != currentHour {
        var bucket := new Bucket(currentHour);
        vmRates := vmRates[vm := bucket];
        return true;
      }
      var bucket := vmRates[vm];
      if bucket.count >= limit {
        return false;
      }
      bucket.count := bucket.count + 1;
      assert forall v :: v in vmRates && v != vm ==> vmRates[v].State() == old(Contents())[v];
      return true;
    }
  }

  // ---- runs -------------------------------------------------------------

  datatype Call = Call(vm: string, at: int)

  predicate Ordered(calls: seq<Call>) {
    forall i, j :: 0 <= i < j < |calls| ==> calls[i].at <= calls[j].at
  }

  function TableAfter(limit: int, calls: seq<Call>): Table {
    if calls == [] then map[]
    else
      var last := calls[|calls| - 1];
      AfterCheck(limit, TableAfter(limit, calls[..|calls| - 1]), last.vm, last.at)
  }

  /** The answer to call `i` of a run that started with an empty table. */
  predicate Admitted(limit: int, calls: seq<Call>, i: nat)
    requires i < |calls|
  {
    Allowed(limit, TableAfter(limit, calls[..i]), calls[i].vm, calls[i].at)
  }

  /** Calls by `vm` in the clock hour that starts at `hour`. */
  function CallsInHour(calls: seq<Call>, vm: string, hour: int): nat {
    if calls == [] then 0
    else
      var last := calls[|calls| - 1];
      CallsInHour(calls[..|calls| - 1], vm, hour) + (if last.vm == vm && HourStart(last.at) == hour then 1 else 0)
  }

  /** Calls by `vm` admitted at a time in [lo, hi]. */
  function AdmittedIn(limit: int, calls: seq<Call>, vm: string, lo: int, hi: int): nat {
    if calls == [] then 0
    else
      var n := |calls| - 1;
      AdmittedIn(limit, calls[..n], vm, lo, hi)
        + (if calls[n].vm == vm && lo <= calls[n].at <= hi && Admitted(limit, calls, n) then 1 else 0)
  }

  function Min(a: int, b: int): int {
    if a < b then a else b
  }

  /** What the table knows of an hour that no call has passed yet. */
  predicate Tracks(limit: int, calls: seq<Call>, table: Table, vm: string, hour: int) {
    if vm in table && table[vm].windowAt == hour
    then table[vm].count == Min(limit, CallsInHour(calls, vm, hour)) >= 1
    else CallsInHour(calls, vm, hour) == 0
  }

  lemma HourStartMono(a: int, b: int)
    requires a <= b
    ensures HourStart(a) <= HourStart(b)
  {
  }

  lemma {:induction false} TableTracks(limit: int, calls: seq<Call>, vm: string, hour: int)
    requires limit >= 1 && Ordered(calls)
    requires forall i :: 0 <= i < |calls| ==> HourStart(calls[i].at) <= hour
    ensures Tracks(limit, calls, TableAfter(limit, calls), vm, hour)
  {
    if calls != [] {
      var n := |calls| - 1;
      var last := calls[n];
      TableTracks(limit, calls[..n], vm, hour);
      if last.vm == vm && HourStart(last.at) < hour {
        NotBeyond(limit, calls[..n], vm, last.at);
        if n > 0 {
          HourStartMono(calls[n - 1].at, last.at);
        }
      }
    }
  }

  /** No window lies beyond the hour of the last call. */
  lemma {:induction false} NotBeyond(limit: int, calls: seq<Call>, vm: string, end: int)
    requires forall i :: 0 <= i < |calls| ==> calls[i].at <= end
    ensures var table := TableAfter(limit, calls); vm in table ==> table[vm].windowAt <= HourStart(end)
  {
    if calls != [] {
      var n := |calls| - 1;
      NotBeyond(limit, calls[..n], vm, end);
      HourStartMono(calls[n].at, end);
    }
  }

  /** A call is admitted exactly when fewer than `limit` earlier calls by the
      same VM fell in the same clock hour. */
  lemma AdmittedIff(limit: int, calls: seq<Call>, i: nat)
    requires limit >= 1 && Ordered(calls) && i < |calls|
    ensures Admitted(limit, calls, i) <==> CallsInHour(calls[..i], calls[i].vm, HourStart(calls[i].at)) < limit
  {
    forall j | 0 <= j < i
      ensures HourStart(calls[..i][j].at) <= HourStart(calls[i].at)
    {
      HourStartMono(calls[j].at, calls[i].at);
    }
    TableTracks(limit, calls[..i], calls[i].vm, HourStart(calls[i].at));
  }

  /** In each clock hour a VM gets its first `limit` calls and no more. */
  lemma {:induction false} HourExact(limit: int, calls: seq<Call>, vm: string, hour: int)
    requires limit >= 1 && Ordered(calls) && hour % HOUR == 0
    ensures AdmittedIn(limit, calls, vm, hour, hour + HOUR - 1) == Min(limit, CallsInHour(calls, vm, hour))
  {
    if calls != [] {
      var n := |calls| - 1;
      HourExact(limit, calls[..n], vm, hour);
      AdmittedIff(limit, calls, n);
      SameHour(calls[n].at, hour);
    }
  }

  lemma SameHour(at: int, hour: int)
    requires hour % HOUR == 0
    ensures hour <= at <= hour + HOUR - 1 <==> HourStart(at) == hour
  {
  }

  /** Admissions in [lo, hi] are those in [lo, mid] and those in (mid, hi]. */
  lemma {:induction false} SplitInterval(limit: int, calls: seq<Call>, vm: string, lo: int, mid: int, hi: int)
    requires lo <= mid + 1 && mid <= hi
    ensures AdmittedIn(limit, calls, vm, lo, hi)
      == AdmittedIn(limit, calls, vm, lo, mid) + AdmittedIn(limit, calls, vm, mid + 1, hi)
  {
    if calls != [] {
      SplitInterval(limit, calls[..|calls| - 1], vm, lo, mid, hi);
    }
  }

  lemma {:induction false} WiderInterval(limit: int, calls: seq<Call>, vm: string, lo: int, hi: int, lo': int, hi': int)
    requires lo' <= lo && hi <= hi'
    ensures AdmittedIn(limit, calls, vm, lo, hi) <= AdmittedIn(limit, calls, vm, lo', hi')
  {
    if calls != [] {
      WiderInterval(limit, calls[..|calls| - 1], vm, lo, hi, lo', hi');
    }
  }

  /** At most twice the limit in any interval of one hour, both ends included. */
  lemma AnyHourAtMostTwice(limit: int, calls: seq<Call>, vm: string, lo: int)
    requires limit >= 1 && Ordered(calls)
    ensures AdmittedIn(limit, calls, vm, lo, lo + HOUR) <= 2 * limit
  {
    var first := HourStart(lo);
    var second := first + HOUR;
    HourExact(limit, calls, vm, first);
    HourExact(limit, calls, vm, second);
    SplitInterval(limit, calls, vm, first, second - 1, second + HOUR - 1);
    WiderInterval(limit, calls, vm, lo, lo + HOUR, first, second + HOUR - 1);
  }

  function Repeat(n: nat, vm: string, at: int): (calls: seq<Call>)
    ensures |calls| == n && forall i :: 0 <= i < n ==> calls[i] == Call(vm, at)
  {
    seq(n, i => Call(vm, at))
  }

  lemma {:induction false} CountRepeat(calls: seq<Call>, n: nat, vm: string, at: int, hour: int)
    ensures CallsInHour(calls + Repeat(n, vm, at), vm, hour)
      == CallsInHour(calls, vm, hour) + (if HourStart(at) == hour then n else 0)
  {
    var all := calls + Repeat(n, vm, at);
    if n == 0 {
      assert all == calls;
    } else {
      CountRepeat(calls, n - 1, vm, at, hour);
      assert all[..|all| - 1] == calls + Repeat(n - 1, vm, at);
    }
  }

  /** Two intervals that hold the same calls have the same admissions. */
  lemma {:induction false} SameCalls(limit: int, calls: seq<Call>, vm: string, lo: int, hi: int, lo': int, hi': int)
    requires forall i :: 0 <= i < |calls| ==> (lo <= calls[i].at <= hi <==> lo' <= calls[i].at <= hi')
    ensures AdmittedIn(limit, calls, vm, lo, hi) == AdmittedIn(limit, calls, vm, lo', hi')
  {
    if calls != [] {
      SameCalls(limit, calls[..|calls| - 1], vm, lo, hi, lo', hi');
    }
  }

  function AroundTheHour(limit: nat, vm: string): (calls: seq<Call>)
    ensures Ordered(calls)
    ensures forall i :: 0 <= i < |calls| ==> calls[i].at == HOUR - 1 || calls[i].at == HOUR
  {
    Repeat(limit, vm, HOUR - 1) + Repeat(limit, vm, HOUR)
  }

  lemma CountAroundTheHour(limit: nat, vm: string, hour: int)
    requires hour == 0 || hour == HOUR
    ensures CallsInHour(AroundTheHour(limit, vm), vm, hour) == limit
  {
    SameHour(HOUR - 1, hour);
    SameHour(HOUR, hour);
    var before := Repeat(limit, vm, HOUR - 1);
    CountRepeat(before, limit, vm, HOUR, hour);
    CountRepeat([], limit, vm, HOUR - 1, hour);
    assert [] + before == before;
  }

  /** The window does not slide: for every limit, some run admits twice the
      limit within one nanosecond, on either side of a full hour. */
  lemma TwiceTheLimitAtTheHour(limit: nat, vm: string)
    requires limit >= 1
    ensures Ordered(AroundTheHour(limit, vm))
    ensures AdmittedIn(limit, AroundTheHour(limit, vm), vm, HOUR - 1, HOUR) == 2 * limit
  {
    var calls := AroundTheHour(limit, vm);
    CountAroundTheHour(limit, vm, 0);
    CountAroundTheHour(limit, vm, HOUR);
    HourExact(limit, calls, vm, 0);
    HourExact(limit, calls, vm, HOUR);
    SameCalls(limit, calls, vm, 0, HOUR - 1, HOUR - 1, HOUR - 1);
    SameCalls(limit, calls, vm, HOUR, HOUR + HOUR - 1, HOUR, HOUR);
    SplitInterval(limit, calls, vm, HOUR - 1, HOUR - 1, HOUR);
  }
}
