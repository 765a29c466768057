/**
 Ownership of an I2C bus: a recursive mutex taken by the first start and kept across API calls until stop.
 Tasks run interleaved; each step below is one that no other task can see the middle of.
 */
module I2cBus {
  import opened Bytes

  /** What follows a start: nothing, or address and data (`whole`: and then a stop). */
  datatype After = Return | Transfer(whole: bool)

  /** Where a task is. `outer`: stopping because a repeated start failed, so the start call's own lock is still held. */
  datatype Pc =
    | Idle
    | StartLock(after: After) | StartOp(after: After) | StartUnlock
    | StopLock(outer: bool) | StopTest(outer: bool) | StopOp(outer: bool)
    | UseLock | UseTest | UseOp
    | AddrOp(whole: bool) | DataOp(whole: bool)

  datatype Bus = Bus(owner: Option<nat>, nest: nat, started: bool, pc: map<nat, Pc>)

  datatype Call = CallStart | CallStop | CallUse | CallTransfer(whole: bool)

  // ---------------------------------------------------------------- steps

  predicate CanLock(s: Bus, t: nat) { s.owner == None || s.owner == Some(t) }

  function Lock(s: Bus, t: nat): Bus { s.(owner := Some(t), nest := s.nest + 1) }

  /** Releasing a mutex one does not own does nothing. */
  function Unlock(s: Bus, t: nat): Bus {
    if s.owner != Some(t) || s.nest == 0 then s
    else s.(owner := if s.nest == 1 then None else s.owner, nest := s.nest - 1)
  }

  function Goto(s: Bus, t: nat, pc: Pc): Bus { s.(pc := s.pc[t := pc]) }

  function Enter(c: Call): Pc {
    match c
    case CallStart => StartLock(Return)
    case CallStop => StopLock(false)
    case CallUse => UseLock
    case CallTransfer(whole) => StartLock(Transfer(whole))
  }

  function Started(after: After): Pc { if after.Return? then Idle else AddrOp(after.whole) }

  function Stopped(outer: bool): Pc { if outer then StartUnlock else Idle }

  /** A task waiting for the mutex can only move when it is free or its own. */
  predicate Enabled(s: Bus, t: nat) {
    t in s.pc && (s.pc[t].StartLock? || s.pc[t].StopLock? || s.pc[t].UseLock? ==> CanLock(s, t))
  }

  /** One step of task `t`; `call` is the call an idle task makes, `ok` the outcome of a bus operation. */
  function Next(s: Bus, t: nat, call: Call, ok: bool): Bus
    requires Enabled(s, t)
  {
    match s.pc[t]
    case Idle => Goto(s, t, Enter(call))
    case StartLock(after) => Goto(Lock(s, t), t, StartOp(after))
    case StartOp(after) =>
      if ok && !s.started then Goto(s.(started := true), t, Started(after))
      else if ok then Goto(Unlock(s, t), t, Started(after))
      else if !s.started then Goto(Unlock(s, t), t, Idle)
      else Goto(s, t, StopLock(true))
    case StartUnlock => Goto(Unlock(s, t), t, Idle)
    case StopLock(outer) => Goto(Lock(s, t), t, StopTest(outer))
    case StopTest(outer) => Goto(Unlock(s, t), t, if s.started then StopOp(outer) else Stopped(outer))
    case StopOp(outer) => Goto(Unlock(s.(started := false), t), t, Stopped(outer))
    case UseLock => Goto(Lock(s, t), t, UseTest)
    case UseTest => Goto(Unlock(s, t), t, if s.started then UseOp else Idle)
    case UseOp => Goto(s, t, if ok then Idle else StopLock(false))
    case AddrOp(whole) => Goto(s, t, if ok then DataOp(whole) else StopLock(false))
    case DataOp(whole) => Goto(s, t, if ok && !whole then Idle else StopLock(false))
  }

  // ---------------------------------------------------------------- invariant

  /** Locks held by the call a task is in, besides the one that start keeps for stop. */
  function Depth(pc: Pc): nat {
    match pc
    case StartOp(_) => 1
    case StartUnlock => 1
    case StopLock(outer) => if outer then 1 else 0
    case StopTest(outer) => if outer then 2 else 1
    case StopOp(outer) => if outer then 1 else 0
    case UseTest => 1
    case _ => 0
  }

  /** Points a task reaches only while the bus is started. */
  predicate OnStartedBus(pc: Pc) {
    pc.StopOp? || pc.UseOp? || pc.AddrOp? || pc.DataOp? || pc == StopLock(true) || pc == StopTest(true)
  }

  ghost predicate Inv(s: Bus) {
    && (s.owner.None? ==> s.nest == 0 && !s.started)
    && (s.owner.Some? ==> s.owner.value in s.pc && s.nest > 0
                          && s.nest == Depth(s.pc[s.owner.value]) + if s.started then 1 else 0)
    && (forall t :: t in s.pc && s.owner != Some(t) ==> Depth(s.pc[t]) == 0 && !OnStartedBus(s.pc[t]))
    && (forall t :: t in s.pc && OnStartedBus(s.pc[t]) ==> s.started)
    && (forall t :: t in s.pc && s.pc[t].StartUnlock? ==> !s.started)
  }

  function Start(tasks: set<nat>): Bus { Bus(None, 0, false, map t | t in tasks :: Idle) }

  /** What the invariant says when the mutex is free or owned by `t`. */
  predicate Local(s: Bus, t: nat) {
    && t in s.pc && CanLock(s, t)
    && (if s.owner.None? then s.nest == 0 && !s.started && Depth(s.pc[t]) == 0
        else s.nest > 0 && s.nest == Depth(s.pc[t]) + if s.started then 1 else 0)
    && (OnStartedBus(s.pc[t]) ==> s.started)
    && (s.pc[t].StartUnlock? ==> !s.started)
  }

  lemma InvIsLocal(s: Bus, t: nat)
    requires Inv(s) && t in s.pc && CanLock(s, t)
    ensures Local(s, t)
  {
  }

  lemma LocalStep(s: Bus, t: nat, call: Call, ok: bool)
    requires Local(s, t)
    ensures Local(Next(s, t, call, ok), t) && Next(s, t, call, ok).pc.Keys == s.pc.Keys
    ensures forall u :: u in s.pc && u != t ==> Next(s, t, call, ok).pc[u] == s.pc[u]
  {
  }

  /** The other tasks hold nothing, so what `t` does locally is all that matters. */
  lemma LocalKeepsInv(s: Bus, n: Bus, t: nat)
    requires Inv(s) && Local(s, t) && Local(n, t) && n.pc.Keys == s.pc.Keys
    requires forall u :: u in s.pc && u != t ==> n.pc[u] == s.pc[u]
    ensures Inv(n)
  {
    forall u | u in n.pc && n.owner != Some(u) ensures Depth(n.pc[u]) == 0 && !OnStartedBus(n.pc[u]) {
      if u != t { assert s.owner != Some(u); }
    }
    forall u | u in n.pc && u != t ensures !OnStartedBus(n.pc[u]) && !n.pc[u].StartUnlock? {
      assert s.owner != Some(u);
    }
  }

  lemma StepKeepsInv(s: Bus, t: nat, call: Call, ok: bool)
    requires Inv(s) && Enabled(s, t)
    ensures Inv(Next(s, t, call, ok))
  {
    if CanLock(s, t) {
      InvIsLocal(s, t);
      LocalStep(s, t, call, ok);
      hide Next;
      LocalKeepsInv(s, Next(s, t, call, ok), t);
    } else {
      assert Depth(s.pc[t]) == 0 && !OnStartedBus(s.pc[t]);
      assert s.pc[t].Idle?;
    }
  }

  /** Bus operations are only reached by the owner of the mutex, and all but the start only on a started bus. */
  lemma OperationsBelongToOwner(s: Bus, t: nat)
    requires Inv(s) && t in s.pc
    ensures s.pc[t].StartOp? ==> s.owner == Some(t)
    ensures s.pc[t].StopOp? || s.pc[t].UseOp? || s.pc[t].AddrOp? || s.pc[t].DataOp? ==> s.owner == Some(t) && s.started
  {
    assert s.owner != Some(t) ==> Depth(s.pc[t]) == 0 && !OnStartedBus(s.pc[t]);
  }

  /** Outside a call the mutex is held exactly while the bus is started, and then once. */
  lemma HeldExactlyWhileStarted(s: Bus)
    requires Inv(s) && (s.owner.Some? ==> s.pc[s.owner.value].Idle?)
    ensures s.nest == if s.started then 1 else 0
    ensures s.started <==> s.owner.Some?
  {
  }

  /** The returns after which a call leaves its task holding the bus. */
  predicate ReturnsHolding(s: Bus, t: nat, ok: bool)
    requires t in s.pc
  {
    ok && (s.pc[t] == StartOp(Return) || s.pc[t].UseOp? || s.pc[t] == DataOp(false))
  }

  /**
   A call that returns leaves its task with the bus, held once, after a successful start or transfer without
   stop or a successful use, and without it in every other case: failed first starts, failed restarts, stops, and
   whole transfers.
   */
  lemma ReturnReleasesUnlessHolding(s: Bus, t: nat, call: Call, ok: bool)
    requires Inv(s) && Enabled(s, t) && !s.pc[t].Idle? && Next(s, t, call, ok).pc[t].Idle?
    ensures var n := Next(s, t, call, ok);
      && (n.owner == Some(t) <==> ReturnsHolding(s, t, ok))
      && (n.owner == Some(t) ==> n.started && n.nest == 1)
  {
    StepKeepsInv(s, t, call, ok);
    assert s.owner != Some(t) ==> Depth(s.pc[t]) == 0 && !OnStartedBus(s.pc[t]);
  }

  // ---------------------------------------------------------------- all interleavings

  datatype Move = Move(task: nat, call: Call, ok: bool)

  ghost predicate Run(states: seq<Bus>, moves: seq<Move>, tasks: set<nat>) {
    && |states| == |moves| + 1 && states[0] == Start(tasks)
    && forall i :: 0 <= i < |moves| ==>
         && Enabled(states[i], moves[i].task)
         && states[i + 1] == Next(states[i], moves[i].task, moves[i].call, moves[i].ok)
  }

  lemma {:induction false} RunKeepsInv(states: seq<Bus>, moves: seq<Move>, tasks: set<nat>, k: nat)
    requires Run(states, moves, tasks) && k < |states|
    ensures Inv(states[k])
  {
    if k > 0 {
      RunKeepsInv(states, moves, tasks, k - 1);
      StepKeepsInv(states[k - 1], moves[k - 1].task, moves[k - 1].call, moves[k - 1].ok);
    }
  }

  /** From a start to its stop no other task gets the bus: only the owner's own steps change `started` or the owner. */
  lemma NobodyElseInterferes(s: Bus, t: nat, u: nat, call: Call, ok: bool)
    requires Inv(s) && s.owner == Some(t) && u != t && Enabled(s, u)
    ensures var n := Next(s, u, call, ok); n.owner == s.owner && n.nest == s.nest && n.started == s.started
  {
    assert Depth(s.pc[u]) == 0 && !OnStartedBus(s.pc[u]);
  }

  // ---------------------------------------------------------------- the calls, uninterrupted

  /** A task that runs alone: where its moves lead, if all of them can be made. */
  function Alone(s: Bus, t: nat, moves: seq<(Call, bool)>): Option<Bus> {
    if moves == [] then Some(s)
    else match Alone(s, t, moves[..|moves| - 1])
      case None => None
      case Some(u) =>
        if Enabled(u, t) then Some(Next(u, t, moves[|moves| - 1].0, moves[|moves| - 1].1)) else None
  }

  ghost predicate Leads(s: Bus, t: nat, moves: seq<(Call, bool)>, u: Bus) { Alone(s, t, moves) == Some(u) }

  lemma LeadsStep(s: Bus, t: nat, moves: seq<(Call, bool)>, u: Bus, call: Call, ok: bool)
    requires Leads(s, t, moves, u) && Enabled(u, t)
    ensures Leads(s, t, moves + [(call, ok)], Next(u, t, call, ok))
  {
    hide Enabled, Next;
    assert (moves + [(call, ok)])[..|moves|] == moves;
  }

  lemma {:induction false} LeadsOn(s: Bus, t: nat, moves: seq<(Call, bool)>, u: Bus, more: seq<(Call, bool)>, v: Bus)
    requires Leads(s, t, moves, u) && Leads(u, t, more, v)
    ensures Leads(s, t, moves + more, v)
  {
    hide Enabled, Next;
    if more == [] {
      assert moves + more == moves;
    } else {
      var front := more[..|more| - 1];
      assert (moves + more)[..|moves + more| - 1] == moves + front;
      LeadsOn(s, t, moves, u, front, Alone(u, t, front).value);
    }
  }

  /** The bus as task `t`, which is at `pc`, sees it. */
  function Seen(owner: Option<nat>, nest: nat, started: bool, t: nat, pc: Pc): Bus {
    Bus(owner, nest, started, map[t := pc])
  }

  /** The mutex is free, or `t` has it. */
  predicate Own(owner: Option<nat>, nest: nat, t: nat) {
    (owner == None && nest == 0) || (owner == Some(t) && nest > 0)
  }

  /** Locking, looking at the flag and unlocking, in a stop or before a use. */
  lemma TestSteps(owner: Option<nat>, nest: nat, started: bool, t: nat, pc: Pc)
    returns (moves: seq<(Call, bool)>, to: Pc)
    requires Own(owner, nest, t) && (pc.StopLock? || pc.UseLock?)
    ensures to == (if pc.UseLock? then (if started then UseOp else Idle)
                   else if started then StopOp(pc.outer) else Stopped(pc.outer))
    ensures Leads(Seen(owner, nest, started, t, pc), t, moves, Seen(owner, nest, started, t, to))
  {
    to := if pc.UseLock? then (if started then UseOp else Idle)
          else if started then StopOp(pc.outer) else Stopped(pc.outer);
    var test := if pc.UseLock? then UseTest else StopTest(pc.outer);
    var s, s1 := Seen(owner, nest, started, t, pc), Seen(Some(t), nest + 1, started, t, test);
    var s2 := Seen(owner, nest, started, t, to);
    TestNext(owner, nest, started, t, pc, test, to);
    hide Next, Enabled, Seen;
    assert Leads(s, t, [], s);
    LeadsStep(s, t, [], s, CallStop, true);
    LeadsStep(s, t, [] + [(CallStop, true)], s1, CallStop, true);
    moves := [] + [(CallStop, true)] + [(CallStop, true)];
  }

  lemma TestNext(owner: Option<nat>, nest: nat, started: bool, t: nat, pc: Pc, test: Pc, to: Pc)
    requires Own(owner, nest, t) && (pc.StopLock? || pc.UseLock?)
    requires test == if pc.UseLock? then UseTest else StopTest(pc.outer)
    requires to == (if pc.UseLock? then (if started then UseOp else Idle)
                    else if started then StopOp(pc.outer) else Stopped(pc.outer))
    ensures var s, s1 := Seen(owner, nest, started, t, pc), Seen(Some(t), nest + 1, started, t, test);
      && Enabled(s, t) && Next(s, t, CallStop, true) == s1
      && Enabled(s1, t) && Next(s1, t, CallStop, true) == Seen(owner, nest, started, t, to)
  {
  }

  /** One step from one point of the call to another. */
  lemma OneStep(s: Bus, t: nat, moves: seq<(Call, bool)>, u: Bus, call: Call, ok: bool, v: Bus)
    requires Leads(s, t, moves, u) && Enabled(u, t) && Next(u, t, call, ok) == v
    ensures Leads(s, t, moves + [(call, ok)], v)
  {
    LeadsStep(s, t, moves, u, call, ok);
  }

  const NOT_OWNER := 23

  /** What a bus driver can be told to do, and the record of what it was told and answered. */
  datatype Wire = WireInit | WireStart | WireStop | WireAddr | WireData

  type Log = seq<(Wire, int)>

  /** `after` is `before`, these operations, and one more to clean up if there is one, whatever it answered. */
  predicate Did(before: Log, outcomes: Log, cleanup: Option<Wire>, after: Log) {
    match cleanup
    case None => after == before + outcomes
    case Some(op) =>
      |after| == |before| + |outcomes| + 1 && after[..|after| - 1] == before + outcomes && after[|after| - 1].0 == op
  }

  /** A transfer as far as it got: a start that failed, an address that failed, or start, address and data. */
  predicate Attempt(did: Log) {
    || (|did| == 1 && did[0].0 == WireStart && did[0].1 != 0)
    || (|did| == 2 && did[0] == (WireStart, 0) && did[1].0 == WireAddr && did[1].1 != 0)
    || (|did| == 3 && did[0] == (WireStart, 0) && did[1] == (WireAddr, 0) && did[2].0 == WireData)
  }

  /** Start and address gave 0 and the data operation a number of bytes. */
  predicate Complete(did: Log) { |did| == 3 && did[2].1 >= 0 }

  /** How the bus is cleaned up after a transfer that got this far. */
  function Cleanup(did: Log, wasStarted: bool): Wire { if |did| == 1 && !wasStarted then WireInit else WireStop }

  class I2c {
    var owner: Option<nat>
    var nest: nat
    var started: bool
    ghost var log: Log                // what the bus driver was asked, written by `BusOp` alone

    /** Between calls: held once while started, else free. */
    predicate Rest()
      reads this
    {
      if started then owner.Some? && nest == 1 else owner.None? && nest == 0
    }

    ghost function View(t: nat, pc: Pc): Bus
      reads this
    {
      Seen(owner, nest, started, t, pc)
    }

    constructor ()
      ensures Rest() && !started && log == []
    {
      owner, nest, started, log := None, 0, false, [];
    }

    /** An operation of the bus driver, with any outcome. */
    method BusOp(op: Wire) returns (rval: int)
      modifies this`log
      ensures log == old(log) + [(op, rval)]
    {
      rval := *;
      log := log + [(op, rval)];
    }

    method LockBus(t: nat)
      requires owner == None || owner == Some(t)
      modifies this`owner, this`nest
      ensures owner == Some(t) && nest == old(nest) + 1
    {
      owner, nest := Some(t), nest + 1;
    }

    method UnlockBus(t: nat)
      requires owner == Some(t) && nest > 0
      modifies this`owner, this`nest
      ensures nest == old(nest) - 1 && owner == if nest == 0 then None else Some(t)
    {
      nest := nest - 1;
      if nest == 0 { owner := None; }
    }

    /** Waits for the owner, so a bus found started is the caller's own. */
    method NotStarted(t: nat) returns (rval: bool)
      requires Own(owner, nest, t)
      modifies this`owner, this`nest
      ensures rval == !started && owner == old(owner) && nest == old(nest)
    {
      LockBus(t);
      rval := !started;
      UnlockBus(t);
    }

    /**
     Nonzero result: the bus is free again, whether the first start failed or a repeated one. `after` is what the
     caller goes on to do, and `moves` are the steps made.
     */
    method SendStart(t: nat, ghost after: After) returns (rval: int, ghost moves: seq<(Call, bool)>)
      requires Rest() && (owner == None || owner == Some(t))
      modifies this
      ensures Rest() && (rval == 0 <==> started) && (started ==> owner == Some(t))
      ensures Did(old(log), [(WireStart, rval)],
                  if rval == 0 then None else Some(Cleanup([(WireStart, rval)], old(started))), log)
      ensures Leads(old(View(t, StartLock(after))), t, moves, View(t, if rval == 0 then Started(after) else Idle))
    {
      ghost var s := View(t, StartLock(after));
      hide Leads;
      StaysPut(s, t);
      LockBus(t);
      OneStep(s, t, [], s, CallStop, true, View(t, StartOp(after)));
      moves := [] + [(CallStop, true)];
      ghost var s1 := View(t, StartOp(after));
      rval := BusOp(WireStart);
      if rval != 0 || started {
        if !started {
          var _ := BusOp(WireInit);
          UnlockBus(t);
          OneStep(s, t, moves, s1, CallStop, false, View(t, Idle));
          moves := moves + [(CallStop, false)];
        } else if rval != 0 {
          OneStep(s, t, moves, s1, CallStop, false, View(t, StopLock(true)));
          moves := moves + [(CallStop, false)];
          var _, more := SendStop(t, true);
          LeadsOn(s, t, moves, s1.(pc := map[t := StopLock(true)]), more, View(t, StartUnlock));
          moves := moves + more;
          ghost var s2 := View(t, StartUnlock);
          UnlockBus(t);
          OneStep(s, t, moves, s2, CallStop, true, View(t, Idle));
          moves := moves + [(CallStop, true)];
        } else {
          UnlockBus(t);
          OneStep(s, t, moves, s1, CallStop, true, View(t, Started(after)));
          moves := moves + [(CallStop, true)];
        }
      } else {
        started := true;
        OneStep(s, t, moves, s1, CallStop, true, View(t, Started(after)));
        moves := moves + [(CallStop, true)];
      }
    }

    /** Releases one level of the mutex exactly when the bus was started. */
    method SendStop(t: nat, ghost outer: bool) returns (rval: int, ghost moves: seq<(Call, bool)>)
      requires Own(owner, nest, t) && (owner == None ==> !started)
      modifies this
      ensures !started
      ensures !old(started) ==> rval == NOT_OWNER && owner == old(owner) && nest == old(nest)
      ensures old(started) ==> nest == old(nest) - 1 && owner == if nest == 0 then None else Some(t)
      ensures log == old(log) + if old(started) then [(WireStop, rval)] else []
      ensures Leads(old(View(t, StopLock(outer))), t, moves, View(t, Stopped(outer)))
    {
      ghost var s, to := View(t, StopLock(outer)), Idle;
      moves, to := TestSteps(owner, nest, started, t, StopLock(outer));
      hide Leads;
      var not := NotStarted(t);
      if not { return NOT_OWNER, moves; }
      ghost var s1 := View(t, StopOp(outer));
      rval := BusOp(WireStop);
      started := false;
      UnlockBus(t);
      OneStep(s, t, moves, s1, CallStop, true, View(t, Stopped(outer)));
      moves := moves + [(CallStop, true)];
    }

    /** Address (`addr`), read or write on a started bus; a failure stops it. */
    method Use(t: nat, addr: bool) returns (sc: int, ghost moves: seq<(Call, bool)>)
      requires Rest() && (owner == None || owner == Some(t))
      modifies this
      ensures Rest()
      ensures !old(started) ==> !started && sc == if addr then NOT_OWNER else -NOT_OWNER
      ensures old(started) ==> (started <==> if addr then sc == 0 else sc >= 0) && (started ==> owner == Some(t))
      ensures !old(started) ==> log == old(log)
      ensures old(started) ==> Did(old(log), [(if addr then WireAddr else WireData, sc)],
                                   if started then None else Some(WireStop), log)
      ensures Leads(old(View(t, UseLock)), t, moves, View(t, Idle))
    {
      ghost var s, to := View(t, UseLock), Idle;
      moves, to := TestSteps(owner, nest, started, t, UseLock);
      hide Leads;
      var not := NotStarted(t);
      if not { return if addr then NOT_OWNER else -NOT_OWNER, moves; }
      ghost var s1 := View(t, UseOp);
      sc := BusOp(if addr then WireAddr else WireData);
      if (if addr then sc != 0 else sc < 0) {
        OneStep(s, t, moves, s1, CallStop, false, View(t, StopLock(false)));
        moves := moves + [(CallStop, false)];
        var _, more := SendStop(t, false);
        LeadsOn(s, t, moves, s1.(pc := map[t := StopLock(false)]), more, View(t, Idle));
        moves := moves + more;
      } else {
        OneStep(s, t, moves, s1, CallStop, true, View(t, Idle));
        moves := moves + [(CallStop, true)];
      }
    }

    /**
     Start, address, data: the bus is kept exactly when all three succeed. With `whole` a stop is to follow. `did` is
     what was done on the way, and the status is the last outcome, negated if there were no data.
     */
    method StartTransfer(t: nat, ghost whole: bool)
      returns (status: int, kept: bool, ghost did: Log, ghost moves: seq<(Call, bool)>)
      requires Rest() && (owner == None || owner == Some(t))
      modifies this
      ensures Rest() && (kept <==> started) && (kept ==> owner == Some(t) && status >= 0)
      ensures Attempt(did) && (kept <==> Complete(did))
      ensures status == if |did| == 3 then did[2].1 else -did[|did| - 1].1
      ensures Did(old(log), did, if kept then None else Some(Cleanup(did, old(started))), log)
      ensures Leads(old(View(t, StartLock(Transfer(whole)))), t, moves,
                    View(t, if kept && whole then StopLock(false) else Idle))
    {
      hide Leads;
      ghost var s := View(t, StartLock(Transfer(whole)));
      var sc;
      sc, moves := SendStart(t, Transfer(whole));
      did := [(WireStart, sc)];
      if sc != 0 { return -sc, false, did, moves; }
      ghost var s1 := View(t, AddrOp(whole));
      ghost var later, more;
      status, kept, later, more := AddressAndData(t, whole);
      LeadsOn(s, t, moves, s1, more, View(t, if kept && whole then StopLock(false) else Idle));
      did, moves := did + later, moves + more;
    }

    /** The part after the start. */
    method AddressAndData(t: nat, ghost whole: bool)
      returns (status: int, kept: bool, ghost did: Log, ghost moves: seq<(Call, bool)>)
      requires Rest() && started && owner == Some(t)
      modifies this
      ensures Rest() && (kept <==> started) && (kept ==> owner == Some(t) && status >= 0)
      ensures Attempt([(WireStart, 0)] + did) && (kept <==> |did| == 2 && did[1].1 >= 0)
      ensures status == if |did| == 2 then did[1].1 else -did[0].1
      ensures Did(old(log), did, if kept then None else Some(WireStop), log)
      ensures Leads(old(View(t, AddrOp(whole))), t, moves, View(t, if kept && whole then StopLock(false) else Idle))
    {
      hide Leads;
      ghost var s := View(t, AddrOp(whole));
      StaysPut(s, t);
      var sc := BusOp(WireAddr);
      did := [(WireAddr, sc)];
      if sc != 0 {
        moves := Fails(t, s, [], AddrOp(whole));
        return -sc, false, did, moves;
      }
      ghost var s2 := View(t, DataOp(whole));
      OneStep(s, t, [], s, CallStop, true, s2);
      moves := [] + [(CallStop, true)];
      status := BusOp(WireData);
      did := did + [(WireData, status)];
      kept := status >= 0;
      if kept {
        OneStep(s, t, moves, s2, CallStop, true, View(t, if whole then StopLock(false) else Idle));
        moves := moves + [(CallStop, true)];
      } else {
        moves := Fails(t, s, moves, DataOp(whole));
      }
    }

    /** An operation of a transfer has failed: the bus is stopped. */
    method Fails(t: nat, ghost s: Bus, ghost before: seq<(Call, bool)>, ghost pc: Pc)
      returns (ghost moves: seq<(Call, bool)>)
      requires Rest() && started && owner == Some(t) && (pc.AddrOp? || pc.DataOp?) && Leads(s, t, before, View(t, pc))
      modifies this
      ensures Rest() && !started && Did(old(log), [], Some(WireStop), log)
      ensures Leads(s, t, moves, View(t, Idle))
    {
      hide Leads;
      ghost var s2 := View(t, StopLock(false));
      OneStep(s, t, before, View(t, pc), CallStop, false, s2);
      moves := before + [(CallStop, false)];
      var _, more := SendStop(t, false);
      LeadsOn(s, t, moves, s2, more, View(t, Idle));
      moves := moves + more;
    }

    /**
     A whole read or write through the device: afterwards the bus is free, whatever failed. No bytes, no transfer.
     `bytesMoved` is None where the caller's field is left alone. Status codes are not negative; one that is reads as
     a number of bytes.
     */
    method ReadWrite(t: nat, count: nat)
      returns (status: int, bytesMoved: Option<int>, ghost did: Log, ghost moves: seq<(Call, bool)>)
      requires Rest() && (owner == None || owner == Some(t))
      modifies this
      ensures Rest() && (count > 0 ==> !started)
      ensures count == 0 ==> status == 0 && bytesMoved == Some(0) && unchanged(this)
      ensures count > 0 ==> Attempt(did) && Did(old(log), did, Some(Cleanup(did, old(started))), log)
      ensures count > 0 && Complete(did) ==> status == 0 && bytesMoved == Some(did[2].1)
      ensures count > 0 && |did| == 3 && did[2].1 < 0 ==> status == -did[2].1 && bytesMoved == None
      ensures count > 0 && |did| < 3 && did[|did| - 1].1 > 0 ==> status == did[|did| - 1].1 && bytesMoved == None
      ensures count > 0 && |did| < 3 && did[|did| - 1].1 < 0 ==> status == 0 && bytesMoved == Some(-did[|did| - 1].1)
      ensures count > 0 ==> Leads(old(View(t, StartLock(Transfer(true)))), t, moves, View(t, Idle))
    {
      hide Leads;
      did, moves := [], [];
      if count == 0 { return 0, Some(0), did, moves; }
      ghost var s := View(t, StartLock(Transfer(true)));
      var kept;
      status, kept, did, moves := StartTransfer(t, true);
      ghost var s1 := View(t, StopLock(false));
      if status >= 0 {
        bytesMoved := Some(status);
        if !kept {
          OneStep(s, t, moves, View(t, Idle), CallStop, true, s1);
          moves := moves + [(CallStop, true)];
        }
        var _, more := SendStop(t, false);
        LeadsOn(s, t, moves, s1, more, View(t, Idle));
        moves := moves + more;
        status := 0;
      } else {
        bytesMoved := None;
        status := -status;
      }
    }
  }

  lemma StaysPut(s: Bus, t: nat)
    ensures Leads(s, t, [], s)
  {
  }
}
