/**
  The life of virtual machines (internal/vm/manager.go) under the shell commands
  that drive it (internal/ssh/commands.go): three tables, the database rows, the
  running map and the network leases, that must agree.  Database writes succeed;
  every image, disk, network, firewall and boot step may fail.
*/
module VmManager {
  import opened SubnetLayout
  import opened VmNetwork
  import opened Wrappers

  datatype Status = Creating | Running | Stopped | Error

  datatype Row = Row(status: Status, ip: Option<int>)

  /** `running` holds the guest address each running VM was booted with. */
  datatype State = State(rows: map<nat, Row>, nextID: nat, running: map<nat, int>, net: NetState)

  /** The outcomes of the steps outside the manager, in the order they are taken. */
  datatype Steps = Steps(rootfs: bool, copy: bool, keys: bool, dataDisk: bool, bridge: bool,
                         tap: TapCommands, firewall: bool, boot: bool)

  // ---- the database -----------------------------------------------------

  /** Updating a row that is not there changes nothing. */
  function WithStatus(rows: map<nat, Row>, vm: nat, status: Status, ip: Option<int>): map<nat, Row> {
    if vm in rows then rows[vm := Row(status, ip)] else rows
  }

  class Database {
    var rows: map<nat, Row>
    var nextID: nat

    constructor ()
      ensures rows == map[] && nextID == 1
    {
      rows := map[];
      nextID := 1;
    }

    /** Ids are never given out twice; a new row is stopped. */
    method CreateVM() returns (vm: nat)
      modifies this
      ensures vm == old(nextID) && nextID == vm + 1 && rows == old(rows)[vm := Row(Stopped, None)]
    {
      vm := nextID;
      nextID := nextID + 1;
      rows := rows[vm := Row(Stopped, None)];
    }

    method UpdateVMStatus(vm: nat, status: Status, ip: Option<int>)
      modifies this`rows
      ensures rows == WithStatus(old(rows), vm, status, ip)
    {
      if vm in rows {
        rows := rows[vm := Row(status, ip)];
      }
    }

    method DeleteVM(vm: nat)
      modifies this`rows
      ensures rows == old(rows) - {vm}
    {
      rows := rows - {vm};
    }
  }

  /** Every step from the bridge on succeeds, and the address is in the subnet. */
  predicate Boots(subnet: Net, nextIP: int, steps: Steps) {
    && steps.bridge && steps.tap.add && steps.tap.attach && steps.tap.up && steps.firewall && steps.boot
    && InSubnet(subnet, nextIP)
  }

  predicate Creates(subnet: Net, nextIP: int, steps: Steps) {
    steps.rootfs && steps.copy && steps.keys && steps.dataDisk && Boots(subnet, nextIP, steps)
  }

  predicate Starts(subnet: Net, nextIP: int, steps: Steps) {
    steps.rootfs && steps.keys && Boots(subnet, nextIP, steps)
  }

  // ---- one operation ----------------------------------------------------

  function Failed(s: State, vm: nat): State {
    s.(rows := WithStatus(s.rows, vm, Error, None))
  }

  /** From the bridge on, CreateAndStart and Start take the same steps. */
  function AfterBoot(subnet: Net, s: State, vm: nat, steps: Steps): State
    requires LegalSubnet(subnet)
  {
    if !steps.bridge then Failed(s, vm)
    else
      var (net, ip) := AfterAllocate(subnet, s.net, vm, steps.tap);
      if ip.None? then Failed(s.(net := net), vm)
      else if !steps.firewall || !steps.boot then Failed(s.(net := AfterRelease(net, vm)), vm)
      else State(WithStatus(s.rows, vm, Running, ip), s.nextID, s.running[vm := ip.value], net)
  }

  function AfterCreate(subnet: Net, s: State, vm: nat, steps: Steps): State
    requires LegalSubnet(subnet)
  {
    var creating := s.(rows := WithStatus(s.rows, vm, Creating, None));
    if !(steps.rootfs && steps.copy && steps.keys && steps.dataDisk) then Failed(creating, vm)
    else AfterBoot(subnet, creating, vm, steps)
  }

  function AfterStart(subnet: Net, s: State, vm: nat, steps: Steps): State
    requires LegalSubnet(subnet)
  {
    if !steps.rootfs then s
    else if !steps.keys then Failed(s, vm)
    else AfterBoot(subnet, s.(rows := WithStatus(s.rows, vm, Creating, None)), vm, steps)
  }

  function AfterStop(s: State, vm: nat): State {
    if vm !in s.running then s
    else State(WithStatus(s.rows, vm, Stopped, None), s.nextID, s.running - {vm}, AfterRelease(s.net, vm))
  }

  function AfterDestroy(s: State, vm: nat): State {
    var stopped := AfterStop(s, vm);
    stopped.(rows := stopped.rows - {vm})
  }

  /** Every VM in `ids` stopped. */
  function AfterStopAll(s: State, ids: set<nat>): State {
    State(map v | v in s.rows :: if v in ids then Row(Stopped, None) else s.rows[v],
          s.nextID, s.running - ids, NetState(s.net.leases - ids, s.net.nextIP))
  }

  function AfterShutdown(s: State): State {
    AfterStopAll(s, s.running.Keys)
  }

  // ---- the manager itself ----------------------------------------------

  class Manager {
    const db: Database
    const network: NetworkManager
    var running: map<nat, int>

    predicate Valid()
      reads this, network
    {
      network.Valid()
    }

    function Contents(): State
      reads this, db, network
    {
      State(db.rows, db.nextID, running, network.State())
    }

    constructor (db: Database, network: NetworkManager)
      requires network.Valid()
      ensures Valid() && this.db == db && this.network == network
      ensures Contents() == State(db.rows, db.nextID, map[], network.State())
    {
      this.db := db;
      this.network := network;
      running := map[];
    }

    method BootVM(vm: nat, steps: Steps) returns (ok: bool)
      requires Valid()
      modifies this, db`rows, network
      ensures Valid() && Contents() == AfterBoot(network.subnet, old(Contents()), vm, steps)
      ensures ok <==> Boots(network.subnet, old(network.nextIP), steps)
    {
      if !steps.bridge {
        db.UpdateVMStatus(vm, Error, None);
        return false;
      }
      var guestIP := network.AllocateNetwork(vm, steps.tap);
      if guestIP == None {
        db.UpdateVMStatus(vm, Error, None);
        return false;
      }
      if !steps.firewall {
        network.ReleaseNetwork(vm);
        db.UpdateVMStatus(vm, Error, None);
        return false;
      }
      if !steps.boot {
        network.ReleaseNetwork(vm);
        db.UpdateVMStatus(vm, Error, None);
        return false;
      }
      db.UpdateVMStatus(vm, Running, guestIP);
      running := running[vm := guestIP.value];
      return true;
    }

    method CreateAndStart(vm: nat, steps: Steps) returns (ok: bool)
      requires Valid()
      modifies this, db`rows, network
      ensures Valid() && Contents() == AfterCreate(network.subnet, old(Contents()), vm, steps)
      ensures ok <==> Creates(network.subnet, old(network.nextIP), steps)
    {
      db.UpdateVMStatus(vm, Creating, None);
      if !steps.rootfs {
        db.UpdateVMStatus(vm, Error, None);
        return false;
      }
      if !steps.copy {
        db.UpdateVMStatus(vm, Error, None);
        return false;
      }
      if !steps.keys {
        db.UpdateVMStatus(vm, Error, None);
        return false;
      }
      if !steps.dataDisk {
        db.UpdateVMStatus(vm, Error, None);
        return false;
      }
      ok := BootVM(vm, steps);
    }

    method Start(vm: nat, steps: Steps) returns (ok: bool)
      requires Valid()
      modifies this, db`rows, network
      ensures Valid() && Contents() == AfterStart(network.subnet, old(Contents()), vm, steps)
      ensures ok <==> Starts(network.subnet, old(network.nextIP), steps)
    {
      if !steps.rootfs {
        return false;
      }
      if !steps.keys {
        db.UpdateVMStatus(vm, Error, None);
        return false;
      }
      db.UpdateVMStatus(vm, Creating, None);
      ok := BootVM(vm, steps);
    }

    method Stop(vm: nat) returns (ok: bool)
      requires Valid()
      modifies this, db`rows, network
      ensures Valid() && Contents() == AfterStop(old(Contents()), vm)
      ensures ok == (vm in old(running))
    {
      if vm !in running {
        return false;
      }
      running := running - {vm};
      network.ReleaseNetwork(vm);
      db.UpdateVMStatus(vm, Stopped, None);
      return true;
    }

    method Destroy(vm: nat)
      requires Valid()
      modifies this, db`rows, network
      ensures Valid() && Contents() == AfterDestroy(old(Contents()), vm)
    {
      if vm in running {
        var stopped := Stop(vm);
      }
      db.DeleteVM(vm);
    }

    method ShutdownAll()
      requires Valid()
      modifies this, db`rows, network
      ensures Valid() && Contents() == AfterShutdown(old(Contents()))
    {
      var todo := running.Keys;
      ghost var start := Contents();
      ghost var done: set<nat> := {};
      StopNone(start);
      while todo != {}
        invariant Valid()
        invariant done !! todo && done + todo == start.running.Keys
        invariant Contents() == AfterStopAll(start, done)
        decreases |todo|
      {
        var vm: nat :| vm in todo;
        StopOneMore(start, done, vm);
        var ok := Stop(vm);
        todo := todo - {vm};
        done := done + {vm};
      }
    }
  }

  lemma StopNone(s: State)
    ensures AfterStopAll(s, {}) == s
  {
    var t := AfterStopAll(s, {});
    assert t.rows == s.rows && t.running == s.running && t.net.leases == s.net.leases;
  }

  lemma StopOneMore(s: State, done: set<nat>, vm: nat)
    requires vm in s.running && vm !in done
    ensures AfterStop(AfterStopAll(s, done), vm) == AfterStopAll(s, done + {vm})
  {
    var t, u := AfterStop(AfterStopAll(s, done), vm), AfterStopAll(s, done + {vm});
    assert t.rows == u.rows;
    assert t.running == u.running;
    assert t.net.leases == u.net.leases;
  }

  // ---- shell commands ---------------------------------------------------

  /** `New` with `permitted` false is one refused for its name, a duplicate or the
      quota; `Copy` clones disks, which may fail; `Restarted` is a graceful
      shutdown followed by a new server process, `Crashed` one without it. */
  datatype Command =
    | New(permitted: bool, steps: Steps)
    | StartVM(vm: nat, steps: Steps)
    | StopVM(vm: nat)
    | RestartVM(vm: nat, steps: Steps)
    | Copy(vm: nat, permitted: bool, cloned: bool)
    | Remove(vm: nat, confirmed: bool)
    | Restarted
    | Crashed

  function NewProcess(subnet: Net, s: State): State {
    State(s.rows, s.nextID, map[], Fresh(subnet))
  }

  function Created(s: State): State {
    s.(rows := s.rows[s.nextID := Row(Stopped, None)], nextID := s.nextID + 1)
  }

  function Apply(subnet: Net, s: State, c: Command): State
    requires LegalSubnet(subnet)
  {
    match c
    case New(permitted, steps) =>
      if permitted then AfterCreate(subnet, Created(s), s.nextID, steps) else s
    case StartVM(vm, steps) =>
      if vm in s.rows && s.rows[vm].status != Running then AfterStart(subnet, s, vm, steps) else s
    case StopVM(vm) =>
      if vm in s.rows && s.rows[vm].status == Running then AfterStop(s, vm) else s
    case RestartVM(vm, steps) =>
      if vm !in s.rows then s
      else if s.rows[vm].status != Running then AfterStart(subnet, s, vm, steps)
      else if vm in s.running then AfterStart(subnet, AfterStop(s, vm), vm, steps)
      else s
    case Copy(vm, permitted, cloned) =>
      if vm !in s.rows || !permitted then s
      else if cloned then Created(s)
      else s.(nextID := s.nextID + 1)
    case Remove(vm, confirmed) =>
      if vm in s.rows && confirmed then AfterDestroy(s, vm) else s
    case Restarted => NewProcess(subnet, AfterShutdown(s))
    case Crashed => NewProcess(subnet, s)
  }

  /** Each command returns whether it reports no error. */
  method cmdNew(m: Manager, permitted: bool, steps: Steps) returns (ok: bool)
    requires m.Valid()
    modifies m, m.db, m.network
    ensures m.Valid() && m.Contents() == Apply(m.network.subnet, old(m.Contents()), New(permitted, steps))
    ensures ok <==> permitted && Creates(m.network.subnet, old(m.network.nextIP), steps)
  {
    if !permitted {
      return false;
    }
    var vm := m.db.CreateVM();
    ok := m.CreateAndStart(vm, steps);
  }

  method cmdStart(m: Manager, vm: nat, steps: Steps) returns (ok: bool)
    requires m.Valid()
    modifies m, m.db, m.network
    ensures m.Valid() && m.Contents() == Apply(m.network.subnet, old(m.Contents()), StartVM(vm, steps))
    ensures ok == (vm in old(m.db.rows) && old(m.db.rows)[vm].status != Running
                   && Starts(m.network.subnet, old(m.network.nextIP), steps))
  {
    if vm !in m.db.rows {
      return false;
    }
    if m.db.rows[vm].status == Running {
      return false;
    }
    ok := m.Start(vm, steps);
  }

  method cmdStop(m: Manager, vm: nat) returns (ok: bool)
    requires m.Valid()
    modifies m, m.db, m.network
    ensures m.Valid() && m.Contents() == Apply(m.network.subnet, old(m.Contents()), StopVM(vm))
    ensures ok <==> vm in old(m.db.rows) && old(m.db.rows)[vm].status == Running && vm in old(m.running)
  {
    if vm !in m.db.rows {
      return false;
    }
    if m.db.rows[vm].status != Running {
      return false;
    }
    ok := m.Stop(vm);
  }

  method cmdRestart(m: Manager, vm: nat, steps: Steps) returns (ok: bool)
    requires m.Valid()
    modifies m, m.db, m.network
    ensures m.Valid() && m.Contents() == Apply(m.network.subnet, old(m.Contents()), RestartVM(vm, steps))
    ensures ok == (vm in old(m.db.rows) && (old(m.db.rows)[vm].status == Running ==> vm in old(m.running))
                   && Starts(m.network.subnet, old(m.network.nextIP), steps))
  {
    if vm !in m.db.rows {
      return false;
    }
    if m.db.rows[vm].status == Running {
      var stopped := m.Stop(vm);
      if !stopped {
        return false;
      }
    }
    ok := m.Start(vm, steps);
  }

  method cmdCp(m: Manager, vm: nat, permitted: bool, cloned: bool) returns (ok: bool)
    requires m.Valid() && forall v :: v in m.db.rows ==> v < m.db.nextID
    modifies m, m.db, m.network
    ensures m.Valid() && m.Contents() == Apply(m.network.subnet, old(m.Contents()), Copy(vm, permitted, cloned))
    ensures ok <==> vm in old(m.db.rows) && permitted && cloned
  {
    if vm !in m.db.rows {
      return false;
    }
    if !permitted {
      return false;
    }
    ghost var rows := m.db.rows;
    var copy := m.db.CreateVM();
    if !cloned {
      m.db.DeleteVM(copy);
      assert m.db.rows == rows;
      return false;
    }
    m.db.UpdateVMStatus(copy, Stopped, None);
    return true;
  }

  method cmdRm(m: Manager, vm: nat, confirmed: bool) returns (ok: bool)
    requires m.Valid()
    modifies m, m.db, m.network
    ensures m.Valid() && m.Contents() == Apply(m.network.subnet, old(m.Contents()), Remove(vm, confirmed))
    ensures ok <==> vm in old(m.db.rows)
  {
    if vm !in m.db.rows {
      return false;
    }
    if confirmed {
      m.Destroy(vm);
    }
    return true;
  }

  function Run(subnet: Net, s: State, cs: seq<Command>): State
    requires LegalSubnet(subnet)
    decreases |cs|
  {
    if cs == [] then s else Run(subnet, Apply(subnet, s, cs[0]), cs[1..])
  }

  function Clean(subnet: Net): State {
    State(map[], 1, map[], Fresh(subnet))
  }

  // ---- the three tables -------------------------------------------------

  predicate SaysRunning(s: State, vm: nat) {
    vm in s.rows && s.rows[vm].status == Running
  }

  /** The row says running, yet the VM does not run: left by a crash. */
  predicate Stale(s: State, vm: nat) {
    SaysRunning(s, vm) && vm !in s.running
  }

  /** The running map and the leases hold the same VMs with the same addresses;
      what runs has a row that says so, with that address, and only rows that say
      running carry one. */
  predicate Linked(s: State) {
    && s.running == s.net.leases
    && (forall v :: v in s.running ==> v in s.rows && s.rows[v] == Row(Running, Some(s.running[v])))
    && (forall v :: v in s.rows ==> v < s.nextID && (s.rows[v].status == Running || s.rows[v].ip == None))
  }

  /** All three tables agree on which VMs run, and on their addresses. */
  ghost predicate Agree(s: State) {
    && s.running == s.net.leases
    && (forall v :: SaysRunning(s, v) <==> v in s.running)
    && (forall v :: v in s.running ==> s.rows[v].ip == Some(s.running[v]))
  }

  lemma AgreeIff(s: State)
    requires Linked(s)
    ensures Agree(s) <==> forall v :: !Stale(s, v)
  {
    assert forall v :: Stale(s, v) <==> SaysRunning(s, v) && v !in s.running;
    assert forall v :: v in s.running ==> SaysRunning(s, v);
  }

  lemma BootLinks(subnet: Net, s: State, vm: nat, steps: Steps)
    requires LegalSubnet(subnet) && Linked(s) && vm in s.rows && vm !in s.running
    ensures Linked(AfterBoot(subnet, s, vm, steps))
    ensures forall v :: v != vm ==> (Stale(AfterBoot(subnet, s, vm, steps), v) <==> Stale(s, v))
    ensures !Stale(AfterBoot(subnet, s, vm, steps), vm)
  {
    var (net, ip) := AfterAllocate(subnet, s.net, vm, steps.tap);
    assert ip.Some? ==> AfterRelease(net, vm).leases == s.net.leases;
  }

  lemma StartLinks(subnet: Net, s: State, vm: nat, steps: Steps)
    requires LegalSubnet(subnet) && Linked(s) && vm in s.rows && vm !in s.running && !SaysRunning(s, vm)
    ensures Linked(AfterStart(subnet, s, vm, steps))
    ensures forall v :: Stale(AfterStart(subnet, s, vm, steps), v) <==> Stale(s, v)
  {
    if steps.rootfs && steps.keys {
      BootLinks(subnet, s.(rows := WithStatus(s.rows, vm, Creating, None)), vm, steps);
    }
  }

  lemma StopLinks(s: State, vm: nat)
    requires Linked(s)
    ensures Linked(AfterStop(s, vm))
    ensures forall v :: Stale(AfterStop(s, vm), v) <==> Stale(s, v)
  {
  }

  lemma ShutdownLinks(subnet: Net, s: State)
    requires Linked(s)
    ensures Linked(NewProcess(subnet, AfterShutdown(s)))
    ensures forall v :: Stale(NewProcess(subnet, AfterShutdown(s)), v) <==> Stale(s, v)
  {
  }

  lemma CreateLinks(subnet: Net, s: State, steps: Steps)
    requires LegalSubnet(subnet) && Linked(s)
    ensures Linked(AfterCreate(subnet, Created(s), s.nextID, steps))
    ensures forall v :: Stale(AfterCreate(subnet, Created(s), s.nextID, steps), v) <==> Stale(s, v)
  {
    var vm := s.nextID;
    var creating := Created(s).(rows := WithStatus(Created(s).rows, vm, Creating, None));
    assert vm !in s.running;
    if steps.rootfs && steps.copy && steps.keys && steps.dataDisk {
      BootLinks(subnet, creating, vm, steps);
    }
  }

  /** The VMs that become stale, and those that stop being so, in one command. */
  predicate StaleAfter(s: State, c: Command, vm: nat) {
    if c.Crashed? then SaysRunning(s, vm)
    else Stale(s, vm) && !(c.Remove? && c.vm == vm && c.confirmed)
  }

  lemma StepLinks(subnet: Net, s: State, c: Command)
    requires LegalSubnet(subnet) && Linked(s)
    ensures Linked(Apply(subnet, s, c))
    ensures forall v :: Stale(Apply(subnet, s, c), v) <==> StaleAfter(s, c, v)
  {
    match c {
      case New(permitted, steps) => if permitted { CreateLinks(subnet, s, steps); }
      case StartVM(vm, steps) => if vm in s.rows && !SaysRunning(s, vm) { StartLinks(subnet, s, vm, steps); }
      case StopVM(vm) => StopLinks(s, vm);
      case RestartVM(vm, steps) =>
        StopLinks(s, vm);
        if vm in s.running {
          StartLinks(subnet, AfterStop(s, vm), vm, steps);
        } else if vm in s.rows && !SaysRunning(s, vm) {
          StartLinks(subnet, s, vm, steps);
        }
      case Copy(_, _, _) =>
      case Remove(vm, _) => StopLinks(s, vm);
      case Restarted => ShutdownLinks(subnet, s);
      case Crashed =>
    }
  }

  lemma {:induction false} RunLinks(subnet: Net, s: State, cs: seq<Command>)
    requires LegalSubnet(subnet) && Linked(s)
    ensures Linked(Run(subnet, s, cs))
    decreases |cs|
  {
    if cs != [] {
      StepLinks(subnet, s, cs[0]);
      RunLinks(subnet, Apply(subnet, s, cs[0]), cs[1..]);
    }
  }

  predicate NoCrash(cs: seq<Command>) {
    forall i :: 0 <= i < |cs| ==> !cs[i].Crashed?
  }

  lemma {:induction false} NoStaleWithoutCrash(subnet: Net, s: State, cs: seq<Command>)
    requires LegalSubnet(subnet) && Linked(s) && NoCrash(cs) && forall v :: !Stale(s, v)
    ensures forall v :: !Stale(Run(subnet, s, cs), v)
    decreases |cs|
  {
    if cs != [] {
      StepLinks(subnet, s, cs[0]);
      NoStaleWithoutCrash(subnet, Apply(subnet, s, cs[0]), cs[1..]);
    }
  }

  /** In every sequential run of commands and graceful restarts from a clean
      database the three tables agree, with the same guest addresses. */
  lemma TablesAgree(subnet: Net, cs: seq<Command>)
    requires LegalSubnet(subnet) && NoCrash(cs)
    ensures Agree(Run(subnet, Clean(subnet), cs))
  {
    RunLinks(subnet, Clean(subnet), cs);
    NoStaleWithoutCrash(subnet, Clean(subnet), cs);
    AgreeIff(Run(subnet, Clean(subnet), cs));
  }

  /** After a crash the tables agree exactly when no VM was running. */
  lemma AgreeAfterCrashIff(subnet: Net, cs: seq<Command>)
    requires LegalSubnet(subnet)
    ensures var s := Run(subnet, Clean(subnet), cs);
      Agree(Apply(subnet, s, Crashed)) <==> forall v :: !SaysRunning(s, v)
  {
    RunLinks(subnet, Clean(subnet), cs);
    var s := Run(subnet, Clean(subnet), cs);
    StepLinks(subnet, s, Crashed);
    AgreeIff(Apply(subnet, s, Crashed));
    assert forall v :: StaleAfter(s, Crashed, v) <==> SaysRunning(s, v);
  }

  /** Command `i` is a crash that finds the row saying running, and no later
      command removes the VM. */
  predicate LeftBehindAt(subnet: Net, s: State, cs: seq<Command>, vm: nat, i: nat)
    requires LegalSubnet(subnet) && i < |cs|
  {
    && cs[i].Crashed? && SaysRunning(Run(subnet, s, cs[..i]), vm)
    && NotRemoved(cs[i + 1..], vm)
  }

  predicate NotRemoved(cs: seq<Command>, vm: nat) {
    forall i :: 0 <= i < |cs| ==> cs[i] != Remove(vm, true)
  }

  ghost predicate LeftBehind(subnet: Net, s: State, cs: seq<Command>, vm: nat)
    requires LegalSubnet(subnet)
  {
    exists i: nat :: i < |cs| && LeftBehindAt(subnet, s, cs, vm, i)
  }

  lemma LeftBehindNext(subnet: Net, s: State, cs: seq<Command>, vm: nat, i: nat)
    requires LegalSubnet(subnet) && i + 1 < |cs|
    ensures LeftBehindAt(subnet, s, cs, vm, i + 1)
      <==> LeftBehindAt(subnet, Apply(subnet, s, cs[0]), cs[1..], vm, i)
  {
    assert cs[..i + 1][1..] == cs[1..][..i] && cs[i + 2..] == cs[1..][i + 1..];
  }

  lemma LeftBehindStep(subnet: Net, s: State, cs: seq<Command>, vm: nat)
    requires LegalSubnet(subnet) && cs != []
    ensures LeftBehind(subnet, s, cs, vm)
      <==> LeftBehindAt(subnet, s, cs, vm, 0) || LeftBehind(subnet, Apply(subnet, s, cs[0]), cs[1..], vm)
  {
    if LeftBehind(subnet, s, cs, vm) {
      var i: nat :| i < |cs| && LeftBehindAt(subnet, s, cs, vm, i);
      if i > 0 {
        LeftBehindNext(subnet, s, cs, vm, i - 1);
      }
    }
    if LeftBehind(subnet, Apply(subnet, s, cs[0]), cs[1..], vm) {
      var i: nat :| i < |cs[1..]| && LeftBehindAt(subnet, Apply(subnet, s, cs[0]), cs[1..], vm, i);
      LeftBehindNext(subnet, s, cs, vm, i);
    }
  }

  lemma {:induction false} StaleIffFrom(subnet: Net, s: State, cs: seq<Command>, vm: nat)
    requires LegalSubnet(subnet) && Linked(s)
    ensures Stale(Run(subnet, s, cs), vm)
      <==> (Stale(s, vm) && NotRemoved(cs, vm)) || LeftBehind(subnet, s, cs, vm)
    decreases |cs|
  {
    if cs != [] {
      var next := Apply(subnet, s, cs[0]);
      StepLinks(subnet, s, cs[0]);
      StaleIffFrom(subnet, next, cs[1..], vm);
      LeftBehindStep(subnet, s, cs, vm);
      assert Stale(next, vm) <==> StaleAfter(s, cs[0], vm);
      assert NotRemoved(cs, vm) <==> cs[0] != Remove(vm, true) && NotRemoved(cs[1..], vm) by {
        assert cs == [cs[0]] + cs[1..];
      }
      assert cs[..0] == [] && Run(subnet, s, cs[..0]) == s;
    }
  }

  /** In every run a row is stale, saying running of a VM that does not run,
      exactly when it said so at some crash and the VM has not been removed since. */
  lemma StaleIff(subnet: Net, cs: seq<Command>, vm: nat)
    requires LegalSubnet(subnet)
    ensures Stale(Run(subnet, Clean(subnet), cs), vm) <==> LeftBehind(subnet, Clean(subnet), cs, vm)
  {
    StaleIffFrom(subnet, Clean(subnet), cs, vm);
  }

  /** The tables agree after a run, crashes included, exactly when every VM that
      said running at a crash has been removed since. */
  lemma TablesAgreeIff(subnet: Net, cs: seq<Command>)
    requires LegalSubnet(subnet)
    ensures Agree(Run(subnet, Clean(subnet), cs)) <==> forall vm :: !LeftBehind(subnet, Clean(subnet), cs, vm)
  {
    RunLinks(subnet, Clean(subnet), cs);
    var s := Run(subnet, Clean(subnet), cs);
    AgreeIff(s);
    forall vm
      ensures Stale(s, vm) <==> LeftBehind(subnet, Clean(subnet), cs, vm)
    {
      StaleIff(subnet, cs, vm);
    }
  }

  /** A graceful shutdown leaves nothing running in any of the tables. */
  lemma ShutdownStopsAll(subnet: Net, cs: seq<Command>)
    requires LegalSubnet(subnet) && NoCrash(cs)
    ensures var s := AfterShutdown(Run(subnet, Clean(subnet), cs));
      s.running == map[] && s.net.leases == map[] && forall v :: !SaysRunning(s, v)
  {
    TablesAgree(subnet, cs);
  }

  // ---- all or nothing ---------------------------------------------------

  /** Nothing but this VM's row changed, and that says how the attempt ended. */
  predicate OnlyRowChanged(s: State, t: State, vm: nat, row: Row) {
    && vm in t.rows && t.rows[vm] == row
    && t.rows - {vm} == s.rows - {vm}
    && t.running == s.running
    && t.net.leases == s.net.leases
  }

  predicate Booted(s: State, t: State, vm: nat) {
    && vm in t.rows && t.rows[vm] == Row(Running, Some(s.net.nextIP))
    && t.rows - {vm} == s.rows - {vm}
    && t.running == s.running[vm := s.net.nextIP]
    && t.net.leases == s.net.leases[vm := s.net.nextIP]
  }

  /** Creating is all or nothing: unless every step succeeds the VM is in error,
      with no address, and neither the running map nor the leases have changed. */
  lemma CreateAllOrNothing(subnet: Net, s: State, vm: nat, steps: Steps)
    requires LegalSubnet(subnet) && Linked(s) && vm in s.rows && vm !in s.running
    ensures var t := AfterCreate(subnet, s, vm, steps);
      if Creates(subnet, s.net.nextIP, steps)
      then Booted(s, t, vm)
      else OnlyRowChanged(s, t, vm, Row(Error, None))
  {
    assert AfterRelease(NetState(s.net.leases[vm := s.net.nextIP], 0), vm).leases == s.net.leases;
    assert AfterCreate(subnet, s, vm, steps).rows - {vm} == s.rows - {vm};
  }

  /** So is starting, but with its disk missing it leaves even the row alone. */
  lemma StartAllOrNothing(subnet: Net, s: State, vm: nat, steps: Steps)
    requires LegalSubnet(subnet) && Linked(s) && vm in s.rows && vm !in s.running
    ensures var t := AfterStart(subnet, s, vm, steps);
      if !steps.rootfs then t == s
      else if Starts(subnet, s.net.nextIP, steps) then Booted(s, t, vm)
      else OnlyRowChanged(s, t, vm, Row(Error, None))
  {
    assert AfterRelease(NetState(s.net.leases[vm := s.net.nextIP], 0), vm).leases == s.net.leases;
    assert AfterStart(subnet, s, vm, steps).rows - {vm} == s.rows - {vm};
  }

  // ---- what each command does -------------------------------------------

  /** The row of the VM, and its address in the running map and among the leases. */
  predicate Holds(t: State, vm: nat, row: Option<Row>, ip: Option<int>) {
    && (if row.Some? then vm in t.rows && t.rows[vm] == row.value else vm !in t.rows)
    && (if ip.Some? then vm in t.running && t.running[vm] == ip.value else vm !in t.running)
    && (if ip.Some? then vm in t.net.leases && t.net.leases[vm] == ip.value else vm !in t.net.leases)
  }

  /** Nothing is different for any other VM. */
  predicate OthersSame(s: State, t: State, vm: nat) {
    && t.rows - {vm} == s.rows - {vm}
    && t.running - {vm} == s.running - {vm}
    && t.net.leases - {vm} == s.net.leases - {vm}
  }

  /** Started or in error, and the next address used up if it came to that. */
  predicate Attempted(s: State, t: State, vm: nat, reached: bool, good: bool) {
    && OthersSame(s, t, vm)
    && (if good then Holds(t, vm, Some(Row(Running, Some(s.net.nextIP))), Some(s.net.nextIP))
        else Holds(t, vm, Some(Row(Error, None)), None))
    && t.net.nextIP == if reached then (s.net.nextIP + 1) % WORD else s.net.nextIP
  }

  /** A running VM is stopped, without an address, in all three tables. */
  lemma StopCommand(subnet: Net, s: State, vm: nat)
    requires LegalSubnet(subnet) && Linked(s)
    ensures var t := Apply(subnet, s, StopVM(vm));
      if vm in s.running
      then Holds(t, vm, Some(Row(Stopped, None)), None) && OthersSame(s, t, vm)
           && t.nextID == s.nextID && t.net.nextIP == s.net.nextIP
      else t == s
  {
  }

  /** A removed VM is in none of the tables. */
  lemma RemoveCommand(subnet: Net, s: State, vm: nat, confirmed: bool)
    requires LegalSubnet(subnet) && Linked(s)
    ensures var t := Apply(subnet, s, Remove(vm, confirmed));
      if vm in s.rows && confirmed
      then Holds(t, vm, None, None) && OthersSame(s, t, vm) && t.nextID == s.nextID && t.net.nextIP == s.net.nextIP
      else t == s
  {
  }

  lemma AttemptStarts(subnet: Net, s: State, vm: nat, steps: Steps)
    requires LegalSubnet(subnet) && Linked(s) && vm in s.rows && vm !in s.running && steps.rootfs
    ensures var t := AfterStart(subnet, s, vm, steps);
      Attempted(s, t, vm, steps.keys && steps.bridge, Starts(subnet, s.net.nextIP, steps)) && t.nextID == s.nextID
  {
    StartAllOrNothing(subnet, s, vm, steps);
  }

  lemma AttemptCreates(subnet: Net, s: State, vm: nat, steps: Steps)
    requires LegalSubnet(subnet) && Linked(s) && vm in s.rows && vm !in s.running
    ensures var t := AfterCreate(subnet, s, vm, steps);
      && Attempted(s, t, vm, steps.rootfs && steps.copy && steps.keys && steps.dataDisk && steps.bridge,
                   Creates(subnet, s.net.nextIP, steps))
      && t.nextID == s.nextID
  {
    CreateAllOrNothing(subnet, s, vm, steps);
  }

  /** A VM that does not say running is started exactly when every step succeeds. */
  lemma StartCommand(subnet: Net, s: State, vm: nat, steps: Steps)
    requires LegalSubnet(subnet) && Linked(s)
    ensures var t := Apply(subnet, s, StartVM(vm, steps));
      if vm in s.rows && s.rows[vm].status != Running && steps.rootfs
      then Attempted(s, t, vm, steps.keys && steps.bridge, Starts(subnet, s.net.nextIP, steps)) && t.nextID == s.nextID
      else t == s
  {
    if vm in s.rows && s.rows[vm].status != Running && steps.rootfs {
      AttemptStarts(subnet, s, vm, steps);
    }
  }

  /** A restarted VM runs exactly when every step succeeds, with a new address; with
      its disk missing it stays stopped, and one that only says running is left. */
  lemma RestartCommand(subnet: Net, s: State, vm: nat, steps: Steps)
    requires LegalSubnet(subnet) && Linked(s)
    ensures var t := Apply(subnet, s, RestartVM(vm, steps));
      if vm !in s.rows || (s.rows[vm].status == Running && vm !in s.running) then t == s
      else if steps.rootfs
      then Attempted(s, t, vm, steps.keys && steps.bridge, Starts(subnet, s.net.nextIP, steps)) && t.nextID == s.nextID
      else if vm in s.running then Holds(t, vm, Some(Row(Stopped, None)), None) && OthersSame(s, t, vm)
      else t == s
  {
    if vm in s.running {
      StopCommand(subnet, s, vm);
      StopLinks(s, vm);
      if steps.rootfs {
        AttemptStarts(subnet, AfterStop(s, vm), vm, steps);
      }
    } else if vm in s.rows && s.rows[vm].status != Running && steps.rootfs {
      AttemptStarts(subnet, s, vm, steps);
    }
  }

  /** A permitted request makes a new VM, started exactly when every step succeeds. */
  lemma NewCommand(subnet: Net, s: State, permitted: bool, steps: Steps)
    requires LegalSubnet(subnet) && Linked(s)
    ensures var t := Apply(subnet, s, New(permitted, steps));
      if permitted
      then s.nextID !in s.rows && t.nextID == s.nextID + 1
           && Attempted(s, t, s.nextID, steps.rootfs && steps.copy && steps.keys && steps.dataDisk && steps.bridge,
                        Creates(subnet, s.net.nextIP, steps))
      else t == s
  {
    if permitted {
      var c := Created(s);
      assert c.rows - {s.nextID} == s.rows - {s.nextID};
      AttemptCreates(subnet, c, s.nextID, steps);
    }
  }

  /** A copy is a new stopped VM. */
  lemma CopyCommand(subnet: Net, s: State, vm: nat, permitted: bool, cloned: bool)
    requires LegalSubnet(subnet) && Linked(s)
    ensures var t := Apply(subnet, s, Copy(vm, permitted, cloned));
      if vm !in s.rows || !permitted then t == s
      else
        && s.nextID !in s.rows && t.nextID == s.nextID + 1 && OthersSame(s, t, s.nextID) && t.net == s.net
        && Holds(t, s.nextID, if cloned then Some(Row(Stopped, None)) else None, None)
  {
  }

  /** A new server runs nothing and counts addresses from the first; a graceful
      shutdown before it has stopped what ran, and a crash has left the rows. */
  lemma NewServer(subnet: Net, s: State, graceful: bool)
    requires LegalSubnet(subnet) && Linked(s)
    ensures var t := Apply(subnet, s, if graceful then Restarted else Crashed);
      && t.running == map[] && t.net.leases == map[] && t.net.nextIP == FirstGuest(subnet) && t.nextID == s.nextID
      && t.rows.Keys == s.rows.Keys
      && forall v :: v in t.rows ==> t.rows[v] == if graceful && v in s.running then Row(Stopped, None) else s.rows[v]
  {
  }

  // ---- one address, one VM ----------------------------------------------

  /** The lookup by address, which asks for no status, finds at most one row. */
  ghost predicate OneRowPerAddress(s: State) {
    forall v, w :: v in s.rows && w in s.rows && v != w && s.rows[v].ip.Some? ==> s.rows[v].ip != s.rows[w].ip
  }

  /** Reached by at most `most` attempts. */
  ghost predicate CountedUpTo(subnet: Net, net: NetState, most: nat) {
    exists calls: nat :: calls <= most && Counted(subnet, net, calls)
  }

  lemma BootCounts(subnet: Net, s: State, vm: nat, steps: Steps, most: nat)
    requires LegalSubnet(subnet) && CountedUpTo(subnet, s.net, most) && most < WORD
    ensures CountedUpTo(subnet, AfterBoot(subnet, s, vm, steps).net, most + 1)
  {
    var calls: nat :| calls <= most && Counted(subnet, s.net, calls);
    StepCounted(subnet, s.net, Allocate(vm, steps.tap), calls);
    var net := AfterAllocate(subnet, s.net, vm, steps.tap).0;
    assert Counted(subnet, net, calls + 1);
    assert Counted(subnet, AfterRelease(net, vm), calls + 1);
  }

  lemma StartCounts(subnet: Net, s: State, vm: nat, steps: Steps, most: nat)
    requires LegalSubnet(subnet) && CountedUpTo(subnet, s.net, most) && most < WORD
    ensures CountedUpTo(subnet, AfterStart(subnet, s, vm, steps).net, most + 1)
    ensures CountedUpTo(subnet, AfterCreate(subnet, s, vm, steps).net, most + 1)
  {
    BootCounts(subnet, s.(rows := WithStatus(s.rows, vm, Creating, None)), vm, steps, most);
  }

  lemma StopCounts(subnet: Net, s: State, vm: nat, most: nat)
    requires CountedUpTo(subnet, s.net, most)
    ensures CountedUpTo(subnet, AfterStop(s, vm).net, most)
  {
    var calls: nat :| calls <= most && Counted(subnet, s.net, calls);
    assert Counted(subnet, AfterStop(s, vm).net, calls);
  }

  /** One command makes at most one attempt at an address. */
  lemma StepCounts(subnet: Net, s: State, c: Command, most: nat)
    requires LegalSubnet(subnet) && CountedUpTo(subnet, s.net, most) && most < WORD
    ensures CountedUpTo(subnet, Apply(subnet, s, c).net, most + 1)
  {
    match c {
      case New(_, steps) => StartCounts(subnet, Created(s), s.nextID, steps, most);
      case StartVM(vm, steps) => StartCounts(subnet, s, vm, steps, most);
      case RestartVM(vm, steps) =>
        StopCounts(subnet, s, vm, most);
        StartCounts(subnet, s, vm, steps, most);
        StartCounts(subnet, AfterStop(s, vm), vm, steps, most);
      case StopVM(vm) => StopCounts(subnet, s, vm, most);
      case Remove(vm, _) => StopCounts(subnet, s, vm, most);
      case Copy(_, _, _) =>
      case Restarted => FreshCounted(subnet);
      case Crashed => FreshCounted(subnet);
    }
  }

  lemma {:induction false} RunCounts(subnet: Net, s: State, cs: seq<Command>, most: nat)
    requires LegalSubnet(subnet) && CountedUpTo(subnet, s.net, most) && most + |cs| < WORD
    ensures CountedUpTo(subnet, Run(subnet, s, cs).net, most + |cs|)
    decreases |cs|
  {
    if cs != [] {
      StepCounts(subnet, s, cs[0], most);
      RunCounts(subnet, Apply(subnet, s, cs[0]), cs[1..], most + 1);
    }
  }

  lemma AgreedAddresses(subnet: Net, s: State, most: nat)
    requires Linked(s) && Agree(s) && CountedUpTo(subnet, s.net, most)
    ensures OneRowPerAddress(s)
  {
    var calls: nat :| calls <= most && Counted(subnet, s.net, calls);
    forall v, w | v in s.rows && w in s.rows && v != w && s.rows[v].ip.Some? && s.rows[w].ip.Some?
      ensures s.rows[v].ip != s.rows[w].ip
    {
      assert SaysRunning(s, v) && SaysRunning(s, w);
      assert v in s.running && w in s.running && s.net.leases[v] != s.net.leases[w];
    }
  }

  /** With no crash and fewer than 2^32 commands, an address names at most one VM,
      as the lookup of a VM by its address takes for granted. */
  lemma AddressNamesOneVM(subnet: Net, cs: seq<Command>)
    requires LegalSubnet(subnet) && NoCrash(cs) && |cs| < WORD
    ensures OneRowPerAddress(Run(subnet, Clean(subnet), cs))
  {
    RunLinks(subnet, Clean(subnet), cs);
    TablesAgree(subnet, cs);
    FreshCounted(subnet);
    RunCounts(subnet, Clean(subnet), cs, 0);
    AgreedAddresses(subnet, Run(subnet, Clean(subnet), cs), |cs|);
  }

  /** Every step of a boot succeeds. */
  function AllSteps(): Steps {
    Steps(true, true, true, true, true, TapCommands(true, true, true), true, true)
  }

  lemma NewBoots(subnet: Net, s: State)
    requires LegalSubnet(subnet) && InSubnet(subnet, s.net.nextIP)
    ensures Apply(subnet, s, New(true, AllSteps())).rows == s.rows[s.nextID := Row(Running, Some(s.net.nextIP))]
    ensures Apply(subnet, s, New(true, AllSteps())).nextID == s.nextID + 1
  {
  }

  /** After a crash the lookup is ambiguous: the new process hands out again the
      address that a row left behind still carries. */
  lemma CrashReusesAddress(subnet: Net)
    requires LegalSubnet(subnet) && InSubnet(subnet, FirstGuest(subnet))
    ensures !OneRowPerAddress(Run(subnet, Clean(subnet), [New(true, AllSteps()), Crashed, New(true, AllSteps())]))
  {
    var create := New(true, AllSteps());
    var s := Apply(subnet, Clean(subnet), create);
    NewBoots(subnet, Clean(subnet));
    NewBoots(subnet, NewProcess(subnet, s));
    var t := Apply(subnet, Apply(subnet, s, Crashed), create);
    assert [create, Crashed, create][1..] == [Crashed, create];
    assert [Crashed, create][1..] == [create];
    assert t == Run(subnet, Apply(subnet, s, Crashed), [create]) == Run(subnet, s, [Crashed, create])
        == Run(subnet, Clean(subnet), [create, Crashed, create]);
    assert SaysRunning(t, 1) && SaysRunning(t, 2) && t.rows[1].ip == t.rows[2].ip;
  }
}
