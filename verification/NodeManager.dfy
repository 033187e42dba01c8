/**
  Tracking of server-pool nodes (internal/controlplane/nodemanager.go): health
  by time since the last heartbeat, a command queue per node, and a callback
  when a node is found dead.  Times are nanoseconds.
*/
module NodeManager {
  import opened Wrappers

  const SECOND := 1_000_000_000
  const TIMEOUT_UNKNOWN := 30 * SECOND
  const TIMEOUT_OFFLINE := 5 * 60 * SECOND
  const TIMEOUT_DEAD := 60 * 60 * SECOND

  datatype Health = Healthy | Unknown | Offline | Dead

  type Command = string

  datatype Node = Node(health: Health, lastSeen: int, pending: seq<Command>)

  type State = map<string, Node>

  function Rank(h: Health): nat {
    match h
    case Healthy => 0
    case Unknown => 1
    case Offline => 2
    case Dead => 3
  }

  /** Health as a function of the silence alone. */
  function Classify(silence: int): Health {
    if silence >= TIMEOUT_DEAD then Dead
    else if silence >= TIMEOUT_OFFLINE then Offline
    else if silence >= TIMEOUT_UNKNOWN then Unknown
    else Healthy
  }

  // ---- one step ---------------------------------------------------------

  /** A check leaves the stored health alone when the silence is short. */
  function CheckNode(n: Node, now: int): Node {
    if now - n.lastSeen >= TIMEOUT_UNKNOWN then n.(health := Classify(now - n.lastSeen)) else n
  }

  function AfterRegister(s: State, id: string, now: int): State {
    s[id := Node(Healthy, now, [])]
  }

  function AfterHeartbeat(s: State, id: string, now: int): State {
    if id in s then s[id := Node(Healthy, now, [])] else s
  }

  function AfterEnqueue(s: State, id: string, c: Command): State {
    if id in s then s[id := s[id].(pending := s[id].pending + [c])] else s
  }

  function AfterCheck(s: State, now: int): State {
    map id | id in s :: CheckNode(s[id], now)
  }

  /** A check at `now` that has yet to reach the nodes in `todo`. */
  function CheckedExcept(s: State, todo: set<string>, now: int): State {
    map id | id in s :: if id in todo then s[id] else CheckNode(s[id], now)
  }

  lemma CheckedNext(s: State, todo: set<string>, now: int, id: string)
    requires id in todo && id in s
    ensures CheckedExcept(s, todo, now)[id] == s[id]
    ensures CheckedExcept(s, todo, now)[id := CheckNode(s[id], now)] == CheckedExcept(s, todo - {id}, now)
  {
  }

  lemma CheckedAll(s: State, now: int)
    ensures CheckedExcept(s, {}, now) == AfterCheck(s, now)
    ensures CheckedExcept(s, s.Keys, now) == s
  {
  }

  /** The check at `now` finds the node newly dead. */
  predicate NewlyDead(s: State, id: string, now: int) {
    id in s && s[id].health != Dead && CheckNode(s[id], now).health == Dead
  }

  /** The ids are exactly those in the set, each once. */
  ghost predicate Lists(ids: seq<string>, all: set<string>) {
    && (forall i :: i in ids <==> i in all)
    && (forall i, j :: 0 <= i < j < |ids| ==> ids[i] != ids[j])
  }

  /** Whom a check at `now` that has yet to reach `todo` has reported dead. */
  ghost function Reported(s: State, todo: set<string>, now: int, notifies: bool): set<string> {
    set id | id in s && id !in todo && notifies && NewlyDead(s, id, now)
  }

  lemma ReportedNext(found: seq<string>, s: State, todo: set<string>, now: int, notifies: bool, id: string)
    requires id in todo && id in s && Lists(found, Reported(s, todo, now, notifies))
    ensures Lists(if NewlyDead(s, id, now) && notifies then found + [id] else found, Reported(s, todo - {id}, now, notifies))
  {
    var before, after := Reported(s, todo, now, notifies), Reported(s, todo - {id}, now, notifies);
    assert id !in before && id !in found;
    if NewlyDead(s, id, now) && notifies {
      assert after == before + {id};
      assert forall i :: i in found + [id] <==> i == id || i in found;
    } else {
      assert after == before;
    }
  }

  // ---- deferred calls ---------------------------------------------------

  /** What a method has deferred to its return. */
  datatype Deferred = Unlock | CallOnNodeDead(id: string)

  /** One run of the callback, and whether the manager's lock is held meanwhile. */
  datatype Callback = Callback(id: string, locked: bool)

  function Calls(ids: seq<string>): (stack: seq<Deferred>)
    ensures |stack| == |ids| && forall i :: 0 <= i < |ids| ==> stack[i] == CallOnNodeDead(ids[i])
  {
    seq(|ids|, i requires 0 <= i < |ids| => CallOnNodeDead(ids[i]))
  }

  /** The callbacks run in the reverse of the order in which the nodes were found
      dead, all of them under the lock. */
  predicate ReversedUnderLock(fired: seq<Callback>, found: seq<string>) {
    |fired| == |found| && forall i :: 0 <= i < |fired| ==> fired[i] == Callback(found[|found| - 1 - i], true)
  }

  // ---- the manager itself ----------------------------------------------

  class TrackedNode {
    const id: string
    var health: Health
    var lastSeen: int
    const registeredAt: int
    var pendingCommands: seq<Command>

    constructor (id: string, now: int)
      ensures this.id == id && State() == Node(Healthy, now, [])
    {
      this.id := id;
      health := Healthy;
      lastSeen := now;
      registeredAt := now;
      pendingCommands := [];
    }

    function State(): Node
      reads this
    {
      Node(health, lastSeen, pendingCommands)
    }

    /** The transitions of one node in a check; true when it has just died. */
    method UpdateHealth(now: int) returns (died: bool)
      modifies this
      ensures State() == CheckNode(old(State()), now)
      ensures died <==> old(health) != Dead && health == Dead
    {
      var elapsed := now - lastSeen;
      var oldHealth := health;
      if elapsed >= TIMEOUT_DEAD {
        health := Dead;
      } else if elapsed >= TIMEOUT_OFFLINE {
        health := Offline;
      } else if elapsed >= TIMEOUT_UNKNOWN {
        health := Unknown;
      }
      died := health != oldHealth && health == Dead;
    }
  }

  class Mutex {
    var locked: bool

    constructor ()
      ensures !locked
    {
      locked := false;
    }
  }

  class NodeManager {
    /** Whether an onNodeDead callback is installed. */
    const notifies: bool
    var nodes: map<string, TrackedNode>
    const mu: Mutex

    /** Between calls the mutex is free. */
    ghost predicate Valid()
      reads this, nodes.Values, mu
    {
      !mu.locked && Sound()
    }

    ghost predicate Sound()
      reads this, nodes.Values
    {
      && (forall i :: i in nodes ==> nodes[i].id == i)
      && (forall i, j :: i in nodes && j in nodes && i != j ==> nodes[i] != nodes[j])
    }

    ghost function Contents(): State
      reads this, nodes.Values
    {
      map i | i in nodes :: nodes[i].State()
    }

    constructor (notifies: bool)
      ensures Valid() && fresh(mu) && this.notifies == notifies && Contents() == map[]
    {
      this.notifies := notifies;
      nodes := map[];
      mu := new Mutex();
    }

    method RegisterNode(id: string, now: int)
      requires Valid()
      modifies this
      ensures Valid()
      ensures Contents() == AfterRegister(old(Contents()), id, now)
    {
      var node := new TrackedNode(id, now);
      nodes := nodes[id := node];
    }

    method RemoveNode(id: string)
      requires Valid()
      modifies this
      ensures Valid()
      ensures Contents() == old(Contents()) - {id}
    {
      nodes := nodes - {id};
    }

    method ProcessHeartbeat(id: string, now: int) returns (commands: Option<seq<Command>>)
      requires Valid()
      modifies this, nodes.Values
      ensures Valid()
      ensures Contents() == AfterHeartbeat(old(Contents()), id, now)
      ensures commands == if id in old(Contents()) then Some(old(Contents())[id].pending) else None
    {
      if id !in nodes {
        return None;
      }
      var node := nodes[id];
      node.health := Healthy;
      node.lastSeen := now;
      commands := Some(node.pendingCommands);
      node.pendingCommands := [];
      assert forall i :: i in nodes && i != id ==> nodes[i].State() == old(Contents())[i];
    }

    method EnqueueCommand(id: string, c: Command) returns (ok: bool)
      requires Valid()
      modifies this, nodes.Values
      ensures Valid()
      ensures Contents() == AfterEnqueue(old(Contents()), id, c)
      ensures ok == (id in old(Contents()))
    {
      if id !in nodes {
        return false;
      }
      var node := nodes[id];
      node.pendingCommands := node.pendingCommands + [c];
      assert forall i :: i in nodes && i != id ==> nodes[i].State() == old(Contents())[i];
      return true;
    }

    /** Changing one node changes that entry of the contents and no other. */
    twostate lemma OnlyOneChanged(id: string)
      requires nodes == old(nodes) && id in nodes
      requires forall i :: i in nodes && i != id ==> unchanged(nodes[i])
      ensures Contents() == old(Contents())[id := nodes[id].State()]
    {
      forall i | i in nodes && i != id
        ensures Contents()[i] == old(Contents())[i]
      {
        assert unchanged(nodes[i]);
      }
    }

    /** The body of the loop of CheckTimeouts for one node. */
    method CheckOne(id: string, now: int) returns (died: bool)
      requires Sound() && id in nodes
      modifies nodes[id]
      ensures Sound()
      ensures Contents() == old(Contents())[id := CheckNode(old(Contents())[id], now)]
      ensures died == NewlyDead(old(Contents()), id, now)
    {
      died := nodes[id].UpdateHealth(now);
      OnlyOneChanged(id);
    }

    /** Runs what was deferred, last in, first out: first the callbacks, then the
        unlock that was deferred before any of them. */
    method RunDeferred(stack: seq<Deferred>, ghost found: seq<string>) returns (fired: seq<Callback>)
      requires mu.locked && stack == [Unlock] + Calls(found)
      modifies mu
      ensures !mu.locked && ReversedUnderLock(fired, found)
    {
      fired := [];
      var n := |stack|;
      while n > 0
        invariant 0 <= n <= |stack|
        invariant mu.locked == (n > 0)
        invariant |fired| == if n == 0 then |found| else |stack| - n
        invariant forall i :: 0 <= i < |fired| ==> fired[i] == Callback(found[|found| - 1 - i], true)
      {
        n := n - 1;
        match stack[n]
        case Unlock => mu.locked := false;
        case CallOnNodeDead(id) => fired := fired + [Callback(id, mu.locked)];
      }
    }

    /** The loop of CheckTimeouts, over the nodes in no particular order; `found`
        lists the newly dead in the order in which it meets them. */
    method CheckAll(now: int) returns (found: seq<string>)
      requires Sound()
      modifies nodes.Values
      ensures Sound()
      ensures Contents() == AfterCheck(old(Contents()), now)
      ensures Lists(found, Reported(old(Contents()), {}, now, notifies))
    {
      found := [];
      ghost var before := Contents();
      CheckedAll(before, now);
      var todo := nodes.Keys;
      while todo != {}
        invariant todo <= nodes.Keys
        invariant Sound()
        invariant Contents() == CheckedExcept(before, todo, now)
        invariant Lists(found, Reported(before, todo, now, notifies))
        decreases |todo|
      {
        var id :| id in todo;
        CheckedNext(before, todo, now, id);
        var died := CheckOne(id, now);
        ReportedNext(found, before, todo, now, notifies, id);
        todo := todo - {id};
        if died && notifies {
          found := found + [id];
        }
      }
    }

    /** The unlock is deferred first, then a callback for each node found dead. */
    method CheckTimeouts(now: int) returns (found: seq<string>, fired: seq<Callback>)
      requires Valid()
      modifies mu, nodes.Values
      ensures Valid()
      ensures Contents() == AfterCheck(old(Contents()), now)
      ensures Lists(found, Reported(old(Contents()), {}, now, notifies))
      ensures ReversedUnderLock(fired, found)
    {
      ghost var before := Contents();
      mu.locked := true;
      assert Contents() == before;
      found := CheckAll(now);
      ghost var after := Contents();
      fired := RunDeferred([Unlock] + Calls(found), found);
      assert Contents() == after;
    }
  }

  // ---- runs -------------------------------------------------------------

  datatype Event =
    | Register(id: string, at: int)
    | Remove(id: string)
    | Heartbeat(id: string, at: int)
    | Enqueue(id: string, command: Command)
    | Check(at: int)

  predicate Timed(e: Event) {
    e.Register? || e.Heartbeat? || e.Check?
  }

  /** The latest clock reading after the event. */
  function Clock(from: int, e: Event): int {
    if Timed(e) then e.at else from
  }

  /** The clock never goes back. */
  predicate WellTimed(from: int, es: seq<Event>)
    decreases |es|
  {
    es == [] || (from <= Clock(from, es[0]) && WellTimed(Clock(from, es[0]), es[1..]))
  }

  function End(from: int, es: seq<Event>): int
    decreases |es|
  {
    if es == [] then from else End(Clock(from, es[0]), es[1..])
  }

  function Apply(s: State, e: Event): State {
    match e
    case Register(id, t) => AfterRegister(s, id, t)
    case Remove(id) => s - {id}
    case Heartbeat(id, t) => AfterHeartbeat(s, id, t)
    case Enqueue(id, c) => AfterEnqueue(s, id, c)
    case Check(t) => AfterCheck(s, t)
  }

  function Run(s: State, es: seq<Event>): State
    decreases |es|
  {
    if es == [] then s else Run(Apply(s, es[0]), es[1..])
  }

  /** Registration, a heartbeat or removal of the node. */
  predicate Touches(e: Event, id: string) {
    (e.Register? || e.Heartbeat? || e.Remove?) && e.id == id
  }

  predicate Untouched(es: seq<Event>, id: string) {
    forall i :: 0 <= i < |es| ==> !Touches(es[i], id)
  }

  // ---- health -----------------------------------------------------------

  /** The stored health never runs ahead of the silence. */
  predicate Behind(s: State, now: int) {
    forall id :: id in s ==> s[id].lastSeen <= now && Rank(s[id].health) <= Rank(Classify(now - s[id].lastSeen))
  }

  lemma StepStaysBehind(s: State, e: Event, from: int)
    requires from <= Clock(from, e) && Behind(s, from)
    ensures Behind(Apply(s, e), Clock(from, e))
  {
    var next := Apply(s, e);
    forall id | id in next
      ensures next[id].lastSeen <= Clock(from, e)
      ensures Rank(next[id].health) <= Rank(Classify(Clock(from, e) - next[id].lastSeen))
    {
      assert id in s ==> s[id].lastSeen <= from && Rank(s[id].health) <= Rank(Classify(from - s[id].lastSeen));
    }
  }

  lemma {:induction false} RunStaysBehind(s: State, es: seq<Event>, from: int)
    requires WellTimed(from, es) && Behind(s, from)
    ensures Behind(Run(s, es), End(from, es))
    decreases |es|
  {
    if es != [] {
      StepStaysBehind(s, es[0], from);
      RunStaysBehind(Apply(s, es[0]), es[1..], Clock(from, es[0]));
    }
  }

  /** After every check of every run the stored health, updated step by step and
      left alone for short silences, is the classification of the silence. */
  lemma CheckStoresClassification(es: seq<Event>, start: int, now: int, id: string)
    requires WellTimed(start, es) && End(start, es) <= now
    requires id in Run(map[], es)
    ensures var n := AfterCheck(Run(map[], es), now)[id];
      var silence := now - n.lastSeen;
      && n.lastSeen == Run(map[], es)[id].lastSeen && n.health == Classify(silence)
      && (n.health == Healthy <==> silence < 30_000_000_000)
      && (n.health == Unknown <==> 30_000_000_000 <= silence < 300_000_000_000)
      && (n.health == Offline <==> 300_000_000_000 <= silence < 3_600_000_000_000)
      && (n.health == Dead <==> silence >= 3_600_000_000_000)
  {
    RunStaysBehind(map[], es, start);
  }

  /** Between heartbeats the health of a node never improves. */
  lemma {:induction false} SilenceNeverHeals(s: State, es: seq<Event>, id: string, from: int)
    requires WellTimed(from, es) && Behind(s, from) && id in s && Untouched(es, id)
    ensures id in Run(s, es) && Run(s, es)[id].lastSeen == s[id].lastSeen
    ensures Rank(s[id].health) <= Rank(Run(s, es)[id].health)
    decreases |es|
  {
    if es != [] {
      assert !Touches(es[0], id);
      var next := Apply(s, es[0]);
      StepStaysBehind(s, es[0], from);
      SilenceNeverHeals(next, es[1..], id, Clock(from, es[0]));
    }
  }

  // ---- the dead-node callback -------------------------------------------

  predicate Fires(s: State, e: Event, id: string) {
    e.Check? && NewlyDead(s, id, e.at)
  }

  /** How often the callback runs for a node in a run, with one installed. */
  function FireCount(s: State, es: seq<Event>, id: string): nat
    decreases |es|
  {
    if es == [] then 0 else (if Fires(s, es[0], id) then 1 else 0) + FireCount(Apply(s, es[0]), es[1..], id)
  }

  /** A check an hour or more after `seen`, before the node is touched again. */
  predicate LateCheck(es: seq<Event>, id: string, seen: int) {
    es != [] && !Touches(es[0], id) &&
    ((es[0].Check? && es[0].at - seen >= TIMEOUT_DEAD) || LateCheck(es[1..], id, seen))
  }

  /** The event starts a silence of the node: a registration, or a heartbeat of
      a tracked node. */
  predicate StartsSilence(e: Event, id: string, tracked: bool) {
    Touches(e, id) && (e.Register? || (e.Heartbeat? && tracked))
  }

  function Tracked(e: Event, id: string, tracked: bool): bool {
    if Touches(e, id) then e.Register? || (e.Heartbeat? && tracked) else tracked
  }

  /** Silence episodes of the node in which some check runs late, counted from
      the events alone. */
  function LateEpisodes(es: seq<Event>, id: string, tracked: bool): nat {
    if es == [] then 0
    else
      var late := StartsSilence(es[0], id, tracked) && LateCheck(es[1..], id, es[0].at);
      (if late then 1 else 0) + LateEpisodes(es[1..], id, Tracked(es[0], id, tracked))
  }

  /** The current episode can still fire: the node is tracked, not yet reported
      dead, and a late check is to come. */
  predicate WillFire(s: State, es: seq<Event>, id: string) {
    id in s && s[id].health != Dead && LateCheck(es, id, s[id].lastSeen)
  }

  predicate DeadIsLate(s: State, id: string, now: int) {
    id in s && s[id].health == Dead ==> now - s[id].lastSeen >= TIMEOUT_DEAD
  }

  lemma {:induction false} FiresPerEpisode(s: State, es: seq<Event>, id: string, from: int)
    requires WellTimed(from, es) && DeadIsLate(s, id, from)
    ensures FireCount(s, es, id)
      == (if WillFire(s, es, id) then 1 else 0) + LateEpisodes(es, id, id in s)
    decreases |es|
  {
    if es != [] {
      FiresPerEpisode(Apply(s, es[0]), es[1..], id, Clock(from, es[0]));
    }
  }

  /** Over a whole run the callback runs exactly once per silence episode in
      which some check comes an hour or more after the node was last seen. */
  lemma OneCallbackPerLateSilence(es: seq<Event>, id: string, start: int)
    requires WellTimed(start, es)
    ensures FireCount(map[], es, id) == LateEpisodes(es, id, false)
  {
    FiresPerEpisode(map[], es, id, start);
  }

  // ---- commands ---------------------------------------------------------

  function DeliveredBy(s: State, e: Event, id: string): seq<Command> {
    if e.Heartbeat? && e.id == id && id in s then s[id].pending else []
  }

  function EnqueuedBy(e: Event, id: string): seq<Command> {
    if e.Enqueue? && e.id == id then [e.command] else []
  }

  /** Commands returned by the heartbeats of the node, in order. */
  function Delivered(s: State, es: seq<Event>, id: string): seq<Command>
    decreases |es|
  {
    if es == [] then [] else DeliveredBy(s, es[0], id) + Delivered(Apply(s, es[0]), es[1..], id)
  }

  /** Commands enqueued for the node, in order. */
  function Enqueued(es: seq<Event>, id: string): seq<Command> {
    if es == [] then [] else EnqueuedBy(es[0], id) + Enqueued(es[1..], id)
  }

  /** No registration and no removal of the node. */
  predicate StaysRegistered(es: seq<Event>, id: string) {
    forall i :: 0 <= i < |es| ==> Touches(es[i], id) ==> es[i].Heartbeat?
  }

  lemma StepConserves(s: State, e: Event, id: string)
    requires id in s && (Touches(e, id) ==> e.Heartbeat?)
    ensures id in Apply(s, e)
    ensures DeliveredBy(s, e, id) + Apply(s, e)[id].pending == s[id].pending + EnqueuedBy(e, id)
  {
  }

  lemma Regroup<T>(d: seq<T>, rest: seq<T>, left: seq<T>, queue: seq<T>, next: seq<T>, q: seq<T>, sent: seq<T>)
    requires d + next == queue + q && rest + left == next + sent
    ensures (d + rest) + left == queue + (q + sent)
  {
    assert (d + rest) + left == d + (rest + left) == (d + next) + sent == queue + (q + sent);
  }

  lemma {:induction false} QueueConserved(s: State, es: seq<Event>, id: string)
    requires id in s && StaysRegistered(es, id)
    ensures id in Run(s, es)
    ensures Delivered(s, es, id) + Run(s, es)[id].pending == s[id].pending + Enqueued(es, id)
    decreases |es|
  {
    if es != [] {
      var e := es[0];
      assert Touches(e, id) ==> e.Heartbeat?;
      var next := Apply(s, e);
      StepConserves(s, e, id);
      QueueConserved(next, es[1..], id);
      Regroup(DeliveredBy(s, e, id), Delivered(next, es[1..], id), Run(s, es)[id].pending,
              s[id].pending, next[id].pending, EnqueuedBy(e, id), Enqueued(es[1..], id));
    }
  }

  /** Since its registration, the commands a node received in order, followed by
      its queue, are the commands enqueued for it in order. */
  lemma CommandsConserved(s: State, id: string, at: int, es: seq<Event>)
    requires StaysRegistered(es, id)
    ensures var registered := AfterRegister(s, id, at);
      && id in Run(registered, es)
      && Delivered(registered, es, id) + Run(registered, es)[id].pending == Enqueued(es, id)
  {
    QueueConserved(AfterRegister(s, id, at), es, id);
  }
}
