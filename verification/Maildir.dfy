/**
  Delivery into the Maildir of one VM by concurrent connection handlers
  (deliverToMaildir in internal/gateway/email.go): pass the hourly limit, count the
  unread files, write a file in tmp, rename it into new.  The steps of different
  handlers, and those of the VM's user taking files out of new, interleave in any
  order; any file operation may fail, and takes any time.
*/
module Maildir {
  import HL = HourlyLimit

  /** A generated file name; no name is generated twice. */
  type Name = nat

  const VM := "vm"

  datatype Limits = Limits(maxUnread: int, perHour: int)

  datatype Phase =
    | Idle
    | Admitted(message: string)
    | Passed(message: string)
    | Writing(name: Name, message: string, written: nat)

  /** `unread` and `tmp` are the directories new and tmp, `taken` what the user
      has removed from new, `acked` the messages reported as delivered, `offered`
      the message for which each file was opened, and `rates` the hourly counter. */
  datatype State = State(unread: map<Name, string>, tmp: map<Name, string>, taken: map<Name, string>,
                         acked: map<Name, string>, offered: map<Name, string>, rates: HL.Table, handlers: seq<Phase>)

  datatype Event =
    | Arrive(h: nat, message: string, at: int)
    | Check(h: nat)
    | Open(h: nat, name: Name)
    | Write(h: nat, upTo: nat)
    | Rename(h: nat)
    | FailCheck(h: nat)
    | FailMkdir(h: nat)
    | FailWrite(h: nat)
    | FailRename(h: nat)
    | Take(name: Name)

  // ---- steps ------------------------------------------------------------

  predicate Complete(p: Phase) {
    p.Writing? && p.written == |p.message|
  }

  /** The step is possible. */
  predicate Enabled(s: State, e: Event) {
    match e
    case Arrive(h, _, _) => h < |s.handlers| && s.handlers[h].Idle?
    case Check(h) => h < |s.handlers| && s.handlers[h].Admitted?
    case Open(h, name) => h < |s.handlers| && s.handlers[h].Passed? && name !in s.offered
    case Write(h, k) => h < |s.handlers| && s.handlers[h].Writing? && s.handlers[h].written <= k <= |s.handlers[h].message|
    case Rename(h) => h < |s.handlers| && Complete(s.handlers[h]) && s.handlers[h].name in s.tmp
    case FailCheck(h) => h < |s.handlers| && s.handlers[h].Admitted?
    case FailMkdir(h) => h < |s.handlers| && s.handlers[h].Passed?
    case FailWrite(h) => h < |s.handlers| && s.handlers[h].Writing?
    case FailRename(h) => h < |s.handlers| && Complete(s.handlers[h])
    case Take(name) => name in s.unread
  }

  function SetPhase(s: State, h: nat, p: Phase): State
    requires h < |s.handlers|
  {
    s.(handlers := s.handlers[h := p])
  }

  function Step(lim: Limits, s: State, e: Event): State {
    if !Enabled(s, e) then s
    else
      match e
      case Arrive(h, message, at) =>
        (if HL.Allowed(lim.perHour, s.rates, VM, at) then SetPhase(s, h, Admitted(message)) else s)
        .(rates := HL.AfterCheck(lim.perHour, s.rates, VM, at))
      case Check(h) =>
        SetPhase(s, h, if |s.unread| >= lim.maxUnread then Idle else Passed(s.handlers[h].message))
      case Open(h, name) =>
        var message := s.handlers[h].message;
        SetPhase(s, h, Writing(name, message, 0)).(tmp := s.tmp[name := ""], offered := s.offered[name := message])
      case Write(h, k) =>
        var Writing(name, message, _) := s.handlers[h];
        SetPhase(s, h, Writing(name, message, k)).(tmp := s.tmp[name := message[..k]])
      case Rename(h) =>
        var name := s.handlers[h].name;
        SetPhase(s, h, Idle).(tmp := s.tmp - {name}, unread := s.unread[name := s.tmp[name]],
                              acked := s.acked[name := s.handlers[h].message])
      case FailCheck(h) => SetPhase(s, h, Idle)
      case FailMkdir(h) => SetPhase(s, h, Idle)
      case FailWrite(h) => SetPhase(s, h, Idle)
      case FailRename(h) => SetPhase(s, h, Idle).(tmp := s.tmp - {s.handlers[h].name})
      case Take(name) => s.(unread := s.unread - {name}, taken := s.taken[name := s.unread[name]])
  }

  function Run(lim: Limits, s: State, es: seq<Event>): State
    decreases |es|
  {
    if es == [] then s else Run(lim, Step(lim, s, es[0]), es[1..])
  }

  /** The clock of the hourly limit does not go back. */
  predicate Timed(from: int, es: seq<Event>, to: int)
    decreases |es|
  {
    if es == [] then from <= to
    else if es[0].Arrive? then from <= es[0].at && Timed(es[0].at, es[1..], to)
    else Timed(from, es[1..], to)
  }

  /** A new server with nothing under way, new within the limit, its files
      delivered earlier. */
  predicate Initial(lim: Limits, n: nat, s: State) {
    && |s.unread| <= lim.maxUnread && s.tmp == map[] && s.taken == map[] && s.rates == map[]
    && s.acked == s.unread && s.offered == s.unread
    && |s.handlers| == n && forall h :: 0 <= h < n ==> s.handlers[h].Idle?
  }

  // ---- the bound --------------------------------------------------------

  /** The handler has passed the check and not yet finished. */
  predicate Busy(p: Phase) {
    p.Passed? || p.Writing?
  }

  /** Handlers that have passed the check and not yet finished. */
  function Pending(hs: seq<Phase>): (n: nat)
    ensures n <= |hs|
  {
    if hs == [] then 0 else (if Busy(hs[0]) then 1 else 0) + Pending(hs[1..])
  }

  lemma {:induction false} PendingSet(hs: seq<Phase>, h: nat, p: Phase)
    requires h < |hs|
    ensures Pending(hs[h := p]) == Pending(hs) - (if Busy(hs[h]) then 1 else 0) + (if Busy(p) then 1 else 0)
  {
    if h > 0 {
      PendingSet(hs[1..], h - 1, p);
      assert hs[h := p][1..] == hs[1..][h - 1 := p];
    } else {
      assert hs[h := p][1..] == hs[1..];
    }
  }

  lemma {:induction false} NonePending(hs: seq<Phase>)
    requires forall h :: 0 <= h < |hs| ==> hs[h].Idle?
    ensures Pending(hs) == 0
  {
    if hs != [] {
      NonePending(hs[1..]);
    }
  }

  /** A passed check reserves a place; at most the checks of the other handlers
      were made without knowing of it. */
  predicate Reserved(lim: Limits, n: nat, s: State) {
    |s.handlers| == n && |s.unread| + Pending(s.handlers) <= lim.maxUnread + n - 1
  }

  lemma PhaseReserves(lim: Limits, n: nat, s: State, h: nat, p: Phase)
    requires Reserved(lim, n, s) && h < n
    requires Busy(p) ==> Busy(s.handlers[h]) || |s.unread| < lim.maxUnread
    ensures Reserved(lim, n, SetPhase(s, h, p))
  {
    PendingSet(s.handlers, h, p);
  }

  lemma StepReserves(lim: Limits, n: nat, s: State, e: Event)
    requires n >= 1 && Reserved(lim, n, s)
    ensures Reserved(lim, n, Step(lim, s, e))
  {
    if Enabled(s, e) {
      match e {
        case Arrive(h, message, _) => PhaseReserves(lim, n, s, h, Admitted(message));
        case Check(h) =>
          PhaseReserves(lim, n, s, h, if |s.unread| >= lim.maxUnread then Idle else Passed(s.handlers[h].message));
        case FailCheck(h) => PhaseReserves(lim, n, s, h, Idle);
        case Open(h, name) => PhaseReserves(lim, n, s, h, Writing(name, s.handlers[h].message, 0));
        case Write(h, k) => PhaseReserves(lim, n, s, h, Writing(s.handlers[h].name, s.handlers[h].message, k));
        case Rename(h) =>
          PendingSet(s.handlers, h, Idle);
          AddOne(s.unread, s.handlers[h].name, s.tmp[s.handlers[h].name]);
        case FailMkdir(h) => PhaseReserves(lim, n, s, h, Idle);
        case FailWrite(h) => PhaseReserves(lim, n, s, h, Idle);
        case FailRename(h) => PhaseReserves(lim, n, s, h, Idle);
        case Take(name) => assert (s.unread - {name}).Keys == s.unread.Keys - {name};
      }
    }
  }

  lemma AddOne(m: map<Name, string>, name: Name, text: string)
    ensures |m[name := text]| <= |m| + 1
  {
    assert m[name := text].Keys == m.Keys + {name};
  }

  lemma {:induction false} RunReserves(lim: Limits, n: nat, s: State, es: seq<Event>)
    requires n >= 1 && Reserved(lim, n, s)
    ensures Reserved(lim, n, Run(lim, s, es))
    decreases |es|
  {
    if es != [] {
      StepReserves(lim, n, s, es[0]);
      RunReserves(lim, n, Step(lim, s, es[0]), es[1..]);
    }
  }

  lemma NewStaysBounded(lim: Limits, n: nat, s: State, es: seq<Event>)
    requires n >= 1 && Initial(lim, n, s)
    ensures |Run(lim, s, es).unread| <= lim.maxUnread + n - 1
  {
    NonePending(s.handlers);
    RunReserves(lim, n, s, es);
  }

  // ---- a run that reaches the bound -------------------------------------

  ghost predicate Reaches(lim: Limits, s: State, from: int, t: State, to: int) {
    exists es :: Run(lim, s, es) == t && Timed(from, es, to)
  }

  lemma {:induction false} RunAppend(lim: Limits, s: State, first: seq<Event>, second: seq<Event>, from: int, mid: int, to: int)
    requires Timed(from, first, mid) && Timed(mid, second, to)
    ensures Run(lim, s, first + second) == Run(lim, Run(lim, s, first), second)
    ensures Timed(from, first + second, to)
    decreases |first|
  {
    if first == [] {
      assert first + second == second;
      TimedEarlier(from, mid, second, to);
    } else {
      assert (first + second)[1..] == first[1..] + second;
      RunAppend(lim, Step(lim, s, first[0]), first[1..], second, if first[0].Arrive? then first[0].at else from, mid, to);
    }
  }

  lemma {:induction false} TimedEarlier(from: int, later: int, es: seq<Event>, to: int)
    requires from <= later && Timed(later, es, to)
    ensures Timed(from, es, to)
    decreases |es|
  {
    if es != [] && !es[0].Arrive? {
      TimedEarlier(from, later, es[1..], to);
    }
  }

  lemma ReachesOn(lim: Limits, s: State, from: int, t: State, mid: int, u: State, to: int)
    requires Reaches(lim, s, from, t, mid) && Reaches(lim, t, mid, u, to)
    ensures Reaches(lim, s, from, u, to)
  {
    var first :| Run(lim, s, first) == t && Timed(from, first, mid);
    var second :| Run(lim, t, second) == u && Timed(mid, second, to);
    RunAppend(lim, s, first, second, from, mid, to);
  }

  lemma ReachesByStep(lim: Limits, s: State, e: Event, from: int, to: int)
    requires if e.Arrive? then from <= e.at <= to else from <= to
    ensures Reaches(lim, s, from, Step(lim, s, e), to)
  {
    assert [e][1..] == [];
    assert Run(lim, s, [e]) == Run(lim, Step(lim, s, e), [e][1..]);
    assert Timed(from, [e], to);
  }

  function Files(k: nat): (m: map<Name, string>)
    ensures |m| == k && forall i: nat :: i in m <==> i < k
  {
    if k == 0 then map[] else Files(k - 1)[k - 1 := ""]
  }

  /** The start of the `k`-th hour. */
  function Hour(k: nat): int {
    k * HL.HOUR
  }

  /** The counter when one message has arrived in each of the first `k` hours. */
  function Hourly(k: nat): HL.Table {
    if k == 0 then map[] else map[VM := HL.Window(1, Hour(k - 1))]
  }

  function Delivered(files: nat, hours: nat, handlers: seq<Phase>): State {
    State(Files(files), map[], map[], Files(files), Files(files), Hourly(hours), handlers)
  }

  /** The first `k` of `n` handlers are in phase `p`, the others in phase `q`. */
  function Line(n: nat, k: nat, p: Phase, q: Phase): (hs: seq<Phase>)
    ensures |hs| == n && forall h :: 0 <= h < n ==> hs[h] == if h < k then p else q
  {
    seq(n, h => if h < k then p else q)
  }

  /** A new hour admits a message whatever the limit. */
  lemma NewHour(perHour: int, k: nat)
    ensures HL.Allowed(perHour, Hourly(k), VM, Hour(k))
    ensures HL.AfterCheck(perHour, Hourly(k), VM, Hour(k)) == Hourly(k + 1)
  {
    assert HL.HourStart(Hour(k)) == Hour(k);
    if k > 0 {
      assert Hour(k - 1) < Hour(k);
      assert Hourly(k)[VM := HL.Window(1, Hour(k))] == Hourly(k + 1);
    }
  }

  lemma NextChecks(lim: Limits, files: nat, n: nat, k: nat)
    requires files < lim.maxUnread && k < n
    ensures Reaches(lim, Delivered(files, k, Line(n, k, Passed(""), Idle)), Hour(k),
                    Delivered(files, k + 1, Line(n, k + 1, Passed(""), Idle)), Hour(k + 1))
  {
    var before := Line(n, k, Passed(""), Idle);
    var s := Delivered(files, k, before);
    var t := Delivered(files, k + 1, before[k := Admitted("")]);
    var u := Delivered(files, k + 1, Line(n, k + 1, Passed(""), Idle));
    NewHour(lim.perHour, k);
    assert Step(lim, s, Arrive(k, "", Hour(k))) == t;
    assert before[k := Admitted("")][k := Passed("")] == Line(n, k + 1, Passed(""), Idle);
    assert Step(lim, t, Check(k)) == u;
    ReachesByStep(lim, s, Arrive(k, "", Hour(k)), Hour(k), Hour(k));
    ReachesByStep(lim, t, Check(k), Hour(k), Hour(k + 1));
    ReachesOn(lim, s, Hour(k), t, Hour(k), u, Hour(k + 1));
  }

  lemma NextDelivers(lim: Limits, s: State, u: State, files: nat, hours: nat, n: nat, k: nat, now: int)
    requires k < n && s == Delivered(files, hours, Line(n, k, Idle, Passed("")))
    requires u == Delivered(files + 1, hours, Line(n, k + 1, Idle, Passed("")))
    ensures Reaches(lim, s, now, u, now)
  {
    var t := State(s.unread, map[files := ""], map[], s.acked, s.offered[files := ""], s.rates,
                   s.handlers[k := Writing(files, "", 0)]);
    OpensAndRenames(lim, s, t, u, files, hours, n, k);
    TwoSteps(lim, s, Open(k, files), t, Rename(k), u, now);
  }

  lemma TwoSteps(lim: Limits, s: State, e: Event, t: State, f: Event, u: State, now: int)
    requires !e.Arrive? && !f.Arrive? && Step(lim, s, e) == t && Step(lim, t, f) == u
    ensures Reaches(lim, s, now, u, now)
  {
    ReachesByStep(lim, s, e, now, now);
    ReachesByStep(lim, t, f, now, now);
    ReachesOn(lim, s, now, t, now, u, now);
  }

  lemma OpensAndRenames(lim: Limits, s: State, t: State, u: State, files: nat, hours: nat, n: nat, k: nat)
    requires k < n && s == Delivered(files, hours, Line(n, k, Idle, Passed("")))
    requires u == Delivered(files + 1, hours, Line(n, k + 1, Idle, Passed("")))
    requires t == State(s.unread, map[files := ""], map[], s.acked, s.offered[files := ""], s.rates,
                        s.handlers[k := Writing(files, "", 0)])
    ensures Step(lim, s, Open(k, files)) == t && Step(lim, t, Rename(k)) == u
  {
    assert s.handlers[k := Writing(files, "", 0)][k := Idle] == u.handlers;
    assert Step(lim, t, Rename(k)).tmp == map[];
  }

  lemma ReachesItself(lim: Limits, s: State, now: int)
    ensures Reaches(lim, s, now, s, now)
  {
    assert Run(lim, s, []) == s && Timed(now, [], now);
  }

  lemma {:induction false} AllCheck(lim: Limits, files: nat, n: nat, k: nat)
    requires files < lim.maxUnread && k <= n
    ensures Reaches(lim, Delivered(files, 0, Line(n, 0, Passed(""), Idle)), Hour(0),
                    Delivered(files, k, Line(n, k, Passed(""), Idle)), Hour(k))
    decreases k
  {
    var first := Delivered(files, 0, Line(n, 0, Passed(""), Idle));
    if k == 0 {
      ReachesItself(lim, first, Hour(0));
    } else {
      AllCheck(lim, files, n, k - 1);
      NextChecks(lim, files, n, k - 1);
      ReachesOn(lim, first, Hour(0), Delivered(files, k - 1, Line(n, k - 1, Passed(""), Idle)), Hour(k - 1),
                Delivered(files, k, Line(n, k, Passed(""), Idle)), Hour(k));
    }
  }

  lemma {:induction false} AllDeliver(lim: Limits, files: nat, hours: nat, n: nat, k: nat, now: int, first: State, last: State)
    requires k <= n && first == Delivered(files, hours, Line(n, 0, Idle, Passed("")))
    requires last == Delivered(files + k, hours, Line(n, k, Idle, Passed("")))
    ensures Reaches(lim, first, now, last, now)
    decreases k
  {
    if k == 0 {
      ReachesItself(lim, first, now);
    } else {
      var before := Delivered(files + (k - 1), hours, Line(n, k - 1, Idle, Passed("")));
      AllDeliver(lim, files, hours, n, k - 1, now, first, before);
      NextDelivers(lim, before, last, files + (k - 1), hours, n, k - 1, now);
      ReachesOn(lim, first, now, before, now, last, now);
    }
  }

  /** One message arrives in each hour and passes both checks; then all are
      delivered. */
  lemma BoundReached(lim: Limits, n: nat) returns (s: State, es: seq<Event>)
    requires lim.maxUnread >= 1
    ensures Initial(lim, n, s) && Timed(0, es, Hour(n)) && |Run(lim, s, es).unread| == lim.maxUnread + n - 1
  {
    var files := lim.maxUnread - 1;
    s := Delivered(files, 0, Line(n, 0, Passed(""), Idle));
    var t := Delivered(files + n, n, Line(n, n, Idle, Passed("")));
    AllCheck(lim, files, n, n);
    assert Line(n, n, Passed(""), Idle) == Line(n, 0, Idle, Passed(""));
    AllDeliver(lim, files, n, n, n, Hour(n), Delivered(files, n, Line(n, 0, Idle, Passed(""))), t);
    ReachesOn(lim, s, Hour(0), Delivered(files, n, Line(n, n, Passed(""), Idle)), Hour(n), t, Hour(n));
    es :| Run(lim, s, es) == t && Timed(Hour(0), es, Hour(n));
  }

  /** In every run of `n` handlers new holds at most `bound` files. */
  ghost predicate NewWithin(lim: Limits, n: nat, bound: int) {
    forall s, es, from, to :: Initial(lim, n, s) && Timed(from, es, to) ==> |Run(lim, s, es).unread| <= bound
  }

  /** The exact bound is MaxUnread + n - 1, whatever the hourly limit: a delivery
      that passed in one hour may still be under way in the next.  MaxUnread itself
      is kept in every run exactly when there is one handler at a time. */
  lemma NewWithinIff(lim: Limits, n: nat, bound: int)
    requires lim.maxUnread >= 1 && n >= 1
    ensures NewWithin(lim, n, bound) <==> bound >= lim.maxUnread + n - 1
  {
    if bound >= lim.maxUnread + n - 1 {
      forall s, es, from, to | Initial(lim, n, s) && Timed(from, es, to)
        ensures |Run(lim, s, es).unread| <= bound
      {
        NewStaysBounded(lim, n, s, es);
      }
    } else {
      var s, es := BoundReached(lim, n);
    }
  }

  // ---- no message is lost or cut ----------------------------------------

  predicate Holds(s: State, p: Phase) {
    p.Writing? ==>
      && p.written <= |p.message| && p.name in s.tmp && s.tmp[p.name] == p.message[..p.written]
      && p.name in s.offered && s.offered[p.name] == p.message && p.name !in s.acked
  }

  predicate Sound(s: State) {
    && s.acked.Keys <= s.offered.Keys
    && (forall name :: name in s.acked ==> s.acked[name] == s.offered[name])
    && s.unread.Keys !! s.taken.Keys && s.acked == s.unread + s.taken
    && (forall h :: 0 <= h < |s.handlers| ==> Holds(s, s.handlers[h]))
    && (forall h, k :: 0 <= h < k < |s.handlers| && s.handlers[h].Writing? && s.handlers[k].Writing? ==>
          s.handlers[h].name != s.handlers[k].name)
  }

  /** A step of one handler, or of none, disturbs no other handler. */
  lemma OthersHold(s: State, t: State, h: int)
    requires Sound(s) && |t.handlers| == |s.handlers|
    requires forall k :: 0 <= k < |s.handlers| && k != h ==> t.handlers[k] == s.handlers[k]
    requires forall name :: name in s.offered ==> name in t.offered && t.offered[name] == s.offered[name]
    requires forall k :: 0 <= k < |s.handlers| && k != h && s.handlers[k].Writing? ==>
      var name := s.handlers[k].name;
      name in s.tmp ==> name in t.tmp && t.tmp[name] == s.tmp[name] && (name in t.acked ==> name in s.acked)
    ensures forall k :: 0 <= k < |t.handlers| && k != h ==> Holds(t, t.handlers[k])
  {
    forall k | 0 <= k < |t.handlers| && k != h
      ensures Holds(t, t.handlers[k])
    {
      assert Holds(s, s.handlers[k]);
    }
  }

  lemma StepSound(lim: Limits, s: State, e: Event)
    requires Sound(s)
    ensures Sound(Step(lim, s, e))
  {
    if Enabled(s, e) {
      match e {
        case Open(h, name) => OpenSound(lim, s, h, name);
        case Write(h, k) => WriteSound(lim, s, h, k);
        case Rename(h) => RenameSound(lim, s, h);
        case FailRename(h) => FailRenameSound(lim, s, h);
        case Take(name) => TakeSound(lim, s, name);
        case Arrive(h, message, at) =>
          PhaseSound(s, h, Admitted(message));
          RatesSound(s, HL.AfterCheck(lim.perHour, s.rates, VM, at));
          RatesSound(SetPhase(s, h, Admitted(message)), HL.AfterCheck(lim.perHour, s.rates, VM, at));
        case Check(h) =>
          PhaseSound(s, h, Idle);
          PhaseSound(s, h, Passed(s.handlers[h].message));
        case FailCheck(h) => PhaseSound(s, h, Idle);
        case FailMkdir(h) => PhaseSound(s, h, Idle);
        case FailWrite(h) => PhaseSound(s, h, Idle);
      }
    }
  }

  /** A step that touches no file. */
  lemma PhaseSound(s: State, h: nat, p: Phase)
    requires Sound(s) && h < |s.handlers| && !p.Writing?
    ensures Sound(SetPhase(s, h, p))
  {
    OthersHold(s, SetPhase(s, h, p), h);
  }

  lemma RatesSound(s: State, rates: HL.Table)
    requires Sound(s)
    ensures Sound(s.(rates := rates))
  {
    OthersHold(s, s.(rates := rates), -1);
  }

  lemma FailRenameSound(lim: Limits, s: State, h: nat)
    requires Sound(s) && Enabled(s, FailRename(h))
    ensures Sound(Step(lim, s, FailRename(h)))
  {
    OthersHold(s, Step(lim, s, FailRename(h)), h);
  }

  lemma TakeSound(lim: Limits, s: State, name: Name)
    requires Sound(s) && Enabled(s, Take(name))
    ensures Sound(Step(lim, s, Take(name)))
  {
    var t := Step(lim, s, Take(name));
    assert t.acked == t.unread + t.taken;
    OthersHold(s, t, -1);
  }

  lemma OpenSound(lim: Limits, s: State, h: nat, name: Name)
    requires Sound(s) && Enabled(s, Open(h, name))
    ensures Sound(Step(lim, s, Open(h, name)))
  {
    forall k | 0 <= k < |s.handlers| && s.handlers[k].Writing?
      ensures s.handlers[k].name != name
    {
      assert Holds(s, s.handlers[k]);
    }
    OthersHold(s, Step(lim, s, Open(h, name)), h);
  }

  lemma WriteSound(lim: Limits, s: State, h: nat, upTo: nat)
    requires Sound(s) && Enabled(s, Write(h, upTo))
    ensures Sound(Step(lim, s, Write(h, upTo)))
  {
    assert Holds(s, s.handlers[h]);
    OthersHold(s, Step(lim, s, Write(h, upTo)), h);
  }

  lemma RenameSound(lim: Limits, s: State, h: nat)
    requires Sound(s) && Enabled(s, Rename(h))
    ensures Sound(Step(lim, s, Rename(h)))
  {
    var p := s.handlers[h];
    var t := Step(lim, s, Rename(h));
    assert Holds(s, p) && p.message[..p.written] == p.message;
    assert t.acked == t.unread + t.taken;
    OthersHold(s, t, h);
  }

  lemma {:induction false} RunSound(lim: Limits, s: State, es: seq<Event>)
    requires Sound(s)
    ensures Sound(Run(lim, s, es))
    decreases |es|
  {
    if es != [] {
      StepSound(lim, s, es[0]);
      RunSound(lim, Step(lim, s, es[0]), es[1..]);
    }
  }

  /** In every run the messages reported as delivered are exactly those in new
      and those the user has taken, and each file holds its message complete. */
  lemma DeliveredComplete(lim: Limits, n: nat, s: State, es: seq<Event>)
    requires Initial(lim, n, s)
    ensures var t := Run(lim, s, es);
      && t.acked == t.unread + t.taken && t.unread.Keys !! t.taken.Keys
      && forall name :: name in t.unread ==> name in t.offered && t.unread[name] == t.offered[name]
  {
    assert s.unread + map[] == s.unread;
    RunSound(lim, s, es);
    var t := Run(lim, s, es);
    forall name | name in t.unread
      ensures name in t.offered && t.unread[name] == t.offered[name]
    {
      assert name in t.acked && name !in t.taken;
    }
  }

  // ---- what stays in tmp ------------------------------------------------

  ghost predicate InUse(s: State, name: Name) {
    exists h :: 0 <= h < |s.handlers| && s.handlers[h].Writing? && s.handlers[h].name == name
  }

  /** A failed write leaves its file behind. */
  function LeftBy(s: State, e: Event, left: set<Name>): set<Name> {
    if e.FailWrite? && Enabled(s, e) then left + {s.handlers[e.h].name} else left
  }

  function LeftIn(lim: Limits, s: State, es: seq<Event>, left: set<Name>): set<Name>
    decreases |es|
  {
    if es == [] then left else LeftIn(lim, Step(lim, s, es[0]), es[1..], LeftBy(s, es[0], left))
  }

  /** Every file in tmp is being written or has been left there. */
  ghost predicate Leaves(s: State, left: set<Name>) {
    && (forall name :: name in left ==> name in s.tmp && name in s.offered && !InUse(s, name))
    && (forall name :: name in s.tmp ==> InUse(s, name) || name in left)
  }

  /** When handler `h` goes from one phase to another. */
  lemma InUseNow(s: State, t: State, h: nat, name: Name)
    requires h < |s.handlers| == |t.handlers|
    requires forall k :: 0 <= k < |s.handlers| && k != h ==> t.handlers[k] == s.handlers[k]
    ensures InUse(s, name) ==> InUse(t, name) || (s.handlers[h].Writing? && s.handlers[h].name == name)
    ensures InUse(t, name) ==> InUse(s, name) || (t.handlers[h].Writing? && t.handlers[h].name == name)
  {
    if InUse(s, name) {
      var k :| 0 <= k < |s.handlers| && s.handlers[k].Writing? && s.handlers[k].name == name;
      assert k != h ==> t.handlers[k] == s.handlers[k];
    }
    if InUse(t, name) {
      var k :| 0 <= k < |t.handlers| && t.handlers[k].Writing? && t.handlers[k].name == name;
      assert k != h ==> t.handlers[k] == s.handlers[k];
    }
  }

  /** A handler that ends its file is the only one that used it. */
  lemma FreedByEnd(s: State, h: nat)
    requires Sound(s) && h < |s.handlers| && s.handlers[h].Writing?
    ensures InUse(s, s.handlers[h].name) && !InUse(SetPhase(s, h, Idle), s.handlers[h].name)
    ensures s.handlers[h].name in s.tmp && s.handlers[h].name in s.offered
  {
    assert Holds(s, s.handlers[h]);
    assert InUse(s, s.handlers[h].name);
  }

  lemma PhaseLeaves(s: State, h: nat, p: Phase, left: set<Name>)
    requires Leaves(s, left) && h < |s.handlers| && !p.Writing? && !s.handlers[h].Writing?
    ensures Leaves(SetPhase(s, h, p), left)
  {
    forall name
      ensures InUse(s, name) == InUse(SetPhase(s, h, p), name)
    {
      InUseNow(s, SetPhase(s, h, p), h, name);
    }
  }

  lemma OpenLeaves(lim: Limits, s: State, h: nat, name: Name, left: set<Name>)
    requires Sound(s) && Leaves(s, left) && Enabled(s, Open(h, name))
    ensures Leaves(Step(lim, s, Open(h, name)), left)
  {
    var t := Step(lim, s, Open(h, name));
    assert t.handlers[h].name == name;
    forall k: Name
      ensures InUse(t, k) <==> InUse(s, k) || k == name
    {
      InUseNow(s, t, h, k);
    }
  }

  lemma WriteLeaves(lim: Limits, s: State, h: nat, upTo: nat, left: set<Name>)
    requires Sound(s) && Leaves(s, left) && Enabled(s, Write(h, upTo))
    ensures Leaves(Step(lim, s, Write(h, upTo)), left)
  {
    var t := Step(lim, s, Write(h, upTo));
    assert Holds(s, s.handlers[h]) && t.handlers[h].name == s.handlers[h].name;
    forall k: Name
      ensures InUse(t, k) <==> InUse(s, k)
    {
      InUseNow(s, t, h, k);
    }
  }

  /** A handler that gives up its file without removing it, or removes it. */
  lemma EndLeaves(s: State, t: State, h: nat, left: set<Name>, kept: bool)
    requires Sound(s) && Leaves(s, left) && h < |s.handlers| && s.handlers[h].Writing?
    requires t.handlers == s.handlers[h := Idle] && t.offered == s.offered
    requires t.tmp == if kept then s.tmp else s.tmp - {s.handlers[h].name}
    ensures Leaves(t, if kept then left + {s.handlers[h].name} else left)
  {
    FreedByEnd(s, h);
    forall k: Name
      ensures InUse(t, k) <==> InUse(s, k) && k != s.handlers[h].name
    {
      InUseNow(s, t, h, k);
      InUseNow(t, SetPhase(s, h, Idle), h, k);
    }
  }

  /** The steps that give up a file, and those that change no phase. */
  lemma EndStepLeaves(lim: Limits, s: State, e: Event, left: set<Name>)
    requires Sound(s) && Leaves(s, left) && Enabled(s, e)
    requires e.Rename? || e.FailRename? || e.FailWrite? || e.Take?
    ensures Leaves(Step(lim, s, e), LeftBy(s, e, left))
  {
    if e.Take? {
      LeavesAgain(s, Step(lim, s, e), left);
    } else {
      EndLeaves(s, Step(lim, s, e), e.h, left, e.FailWrite?);
    }
  }

  lemma ArriveLeaves(lim: Limits, s: State, h: nat, message: string, at: int, left: set<Name>)
    requires Leaves(s, left) && Enabled(s, Arrive(h, message, at))
    ensures Leaves(Step(lim, s, Arrive(h, message, at)), left)
  {
    PhaseLeaves(s, h, Admitted(message), left);
    var t := if HL.Allowed(lim.perHour, s.rates, VM, at) then SetPhase(s, h, Admitted(message)) else s;
    LeavesAgain(t, Step(lim, s, Arrive(h, message, at)), left);
  }

  lemma StepLeaves(lim: Limits, s: State, e: Event, left: set<Name>)
    requires Sound(s) && Leaves(s, left)
    ensures Leaves(Step(lim, s, e), LeftBy(s, e, left))
  {
    if Enabled(s, e) {
      match e {
        case Open(h, name) => OpenLeaves(lim, s, h, name, left);
        case Write(h, k) => WriteLeaves(lim, s, h, k, left);
        case Arrive(h, message, at) => ArriveLeaves(lim, s, h, message, at, left);
        case Check(h) =>
          PhaseLeaves(s, h, if |s.unread| >= lim.maxUnread then Idle else Passed(s.handlers[h].message), left);
        case FailCheck(h) => PhaseLeaves(s, h, Idle, left);
        case FailMkdir(h) => PhaseLeaves(s, h, Idle, left);
        case _ => EndStepLeaves(lim, s, e, left);
      }
    }
  }

  lemma LeavesAgain(s: State, t: State, left: set<Name>)
    requires Leaves(s, left) && t.handlers == s.handlers && t.tmp == s.tmp && t.offered == s.offered
    ensures Leaves(t, left)
  {
    assert forall name: Name :: InUse(t, name) <==> InUse(s, name);
  }

  lemma {:induction false} RunLeaves(lim: Limits, s: State, es: seq<Event>, left: set<Name>)
    requires Sound(s) && Leaves(s, left)
    ensures Sound(Run(lim, s, es)) && Leaves(Run(lim, s, es), LeftIn(lim, s, es, left))
    decreases |es|
  {
    if es != [] {
      StepSound(lim, s, es[0]);
      StepLeaves(lim, s, es[0], left);
      RunLeaves(lim, Step(lim, s, es[0]), es[1..], LeftBy(s, es[0], left));
    }
  }

  /** In every run tmp holds exactly the files being written and those whose write
      has failed: a failed rename takes its file away, a failed write does not. */
  lemma TmpHoldsIff(lim: Limits, n: nat, s: State, es: seq<Event>, name: Name)
    requires Initial(lim, n, s)
    ensures name in Run(lim, s, es).tmp <==> InUse(Run(lim, s, es), name) || name in LeftIn(lim, s, es, {})
  {
    assert s.unread + map[] == s.unread;
    RunLeaves(lim, s, es, {});
    var t := Run(lim, s, es);
    if InUse(t, name) {
      var h :| 0 <= h < |t.handlers| && t.handlers[h].Writing? && t.handlers[h].name == name;
      assert Holds(t, t.handlers[h]);
    }
  }

  // ---- the hourly limit -------------------------------------------------

  /** A message that arrives at an idle handler is a call of the hourly limit. */
  function ArrivalOf(s: State, e: Event): seq<HL.Call> {
    if e.Arrive? && Enabled(s, e) then [HL.Call(VM, e.at)] else []
  }

  function Arrivals(lim: Limits, s: State, es: seq<Event>): seq<HL.Call>
    decreases |es|
  {
    if es == [] then [] else ArrivalOf(s, es[0]) + Arrivals(lim, Step(lim, s, es[0]), es[1..])
  }

  /** The counter after these calls. */
  function Counted(perHour: int, table: HL.Table, calls: seq<HL.Call>): HL.Table
    decreases |calls|
  {
    if calls == [] then table
    else Counted(perHour, HL.AfterCheck(perHour, table, calls[0].vm, calls[0].at), calls[1..])
  }

  lemma {:induction false} CountedFromStart(perHour: int, before: seq<HL.Call>, calls: seq<HL.Call>)
    ensures Counted(perHour, HL.TableAfter(perHour, before), calls) == HL.TableAfter(perHour, before + calls)
    decreases |calls|
  {
    if calls == [] {
      assert before + [] == before;
    } else {
      assert (before + [calls[0]])[..|before|] == before;
      CountedFromStart(perHour, before + [calls[0]], calls[1..]);
      assert before + [calls[0]] + calls[1..] == before + calls;
    }
  }

  lemma RatesOfStep(lim: Limits, s: State, e: Event, rest: seq<HL.Call>)
    ensures Counted(lim.perHour, s.rates, ArrivalOf(s, e) + rest) == Counted(lim.perHour, Step(lim, s, e).rates, rest)
  {
    var calls := ArrivalOf(s, e) + rest;
    if e.Arrive? && Enabled(s, e) {
      assert calls[0] == HL.Call(VM, e.at) && calls[1..] == rest;
    } else {
      assert calls == rest;
      OnlyArrivalsCount(lim, s, e);
    }
  }

  lemma OnlyArrivalsCount(lim: Limits, s: State, e: Event)
    requires !(e.Arrive? && Enabled(s, e))
    ensures Step(lim, s, e).rates == s.rates
  {
  }

  lemma {:induction false} RatesFollow(lim: Limits, s: State, es: seq<Event>)
    ensures Run(lim, s, es).rates == Counted(lim.perHour, s.rates, Arrivals(lim, s, es))
    decreases |es|
  {
    if es != [] {
      RatesFollow(lim, Step(lim, s, es[0]), es[1..]);
      RatesOfStep(lim, s, es[0], Arrivals(lim, Step(lim, s, es[0]), es[1..]));
    }
  }

  lemma {:induction false} ArrivalsTimed(lim: Limits, s: State, es: seq<Event>, from: int, to: int)
    requires Timed(from, es, to)
    ensures HL.Ordered(Arrivals(lim, s, es))
    ensures forall i :: 0 <= i < |Arrivals(lim, s, es)| ==>
        Arrivals(lim, s, es)[i].vm == VM && from <= Arrivals(lim, s, es)[i].at <= to
    decreases |es|
  {
    if es != [] {
      var e, next := es[0], Step(lim, s, es[0]);
      ArrivalsTimed(lim, next, es[1..], if e.Arrive? then e.at else from, to);
      TimedSpan(es, from, to);
    }
  }

  lemma {:induction false} TimedSpan(es: seq<Event>, from: int, to: int)
    requires Timed(from, es, to)
    ensures from <= to && (es != [] && es[0].Arrive? ==> es[0].at <= to)
    decreases |es|
  {
    if es != [] {
      TimedSpan(es[1..], if es[0].Arrive? then es[0].at else from, to);
    }
  }

  lemma AllowedIff(perHour: int, calls: seq<HL.Call>, at: int)
    requires perHour >= 1 && HL.Ordered(calls) && forall i :: 0 <= i < |calls| ==> calls[i].at <= at
    ensures HL.Allowed(perHour, HL.TableAfter(perHour, calls), VM, at)
      <==> HL.CallsInHour(calls, VM, HL.HourStart(at)) < perHour
  {
    var all := calls + [HL.Call(VM, at)];
    assert all[..|calls|] == calls && all[|calls|] == HL.Call(VM, at);
    assert forall i :: 0 <= i < |calls| ==> all[i] == calls[i];
    HL.AdmittedIff(perHour, all, |calls|);
  }

  lemma ArriveStep(lim: Limits, s: State, h: nat, message: string, at: int)
    requires h < |s.handlers| && s.handlers[h].Idle?
    ensures Step(lim, s, Arrive(h, message, at)).handlers[h]
      == if HL.Allowed(lim.perHour, s.rates, VM, at) then Admitted(message) else Idle
  {
  }

  /** In every run a message that arrives passes the hourly limit exactly when fewer
      than the limit arrived before it in its clock hour. */
  lemma ArrivalAdmittedIff(lim: Limits, n: nat, s: State, es: seq<Event>, from: int, h: nat, message: string, at: int)
    requires lim.perHour >= 1 && Initial(lim, n, s) && Timed(from, es, at)
    requires h < |Run(lim, s, es).handlers| && Run(lim, s, es).handlers[h].Idle?
    ensures Step(lim, Run(lim, s, es), Arrive(h, message, at)).handlers[h]
      == if HL.CallsInHour(Arrivals(lim, s, es), VM, HL.HourStart(at)) < lim.perHour then Admitted(message) else Idle
  {
    var calls := Arrivals(lim, s, es);
    RatesFollow(lim, s, es);
    CountedFromStart(lim.perHour, [], calls);
    assert [] + calls == calls;
    ArrivalsTimed(lim, s, es, from, at);
    AllowedIff(lim.perHour, calls, at);
    ArriveStep(lim, Run(lim, s, es), h, message, at);
  }
}
