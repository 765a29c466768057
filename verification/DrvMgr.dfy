/**
 The driver manager: takes registered buses and devices level by level to its own level. Drivers' and
 buses' init handlers are unknown code that may register more buses and devices while it runs.
 */
module DrvMgr {
  import opened Bytes
  import opened DrvSide
  import opened DrvSystem
  import opened DrvAccount
  import opened DrvRun

  /** Steps of initialisation still owed to the objects on the lists. */
  function Owed(x: Side): nat {
    if |x.active| != LEVEL_MAX + 1 then 0
    else 5 * |x.active[0]| + 4 * |x.active[1]| + 3 * |x.active[2]| + 2 * |x.active[3]| + |x.active[4]|
  }

  lemma OwedSteps(x: Side)
    requires |x.active| == |x.taken| == |x.tried| == LEVEL_MAX + 1
    ensures forall id, skip :: Owed(Register(x, id, skip)) <= Owed(x) + 5
    ensures forall k: nat :: k <= LEVEL_MAX && x.active[k] != [] ==> Owed(Pop(x, k)) == Owed(x) - (5 - k)
    ensures x.flight.Some? && x.flight.value in x.objs && x.objs[x.flight.value].level < LEVEL_MAX ==>
      Owed(Take(x)) == Owed(x) + 4 - x.objs[x.flight.value].level && Owed(Drop(x)) == Owed(x)
  {
  }

  /** Only registrations happened: lists above 0, flights and existing objects are as they were. */
  ghost predicate Grew(s: Sys, t: Sys)
    requires |s.bus.active| == |s.dev.active| == |t.bus.active| == |t.dev.active| == LEVEL_MAX + 1
  {
    && t.level == s.level && t.bus.flight == s.bus.flight && t.dev.flight == s.dev.flight
    && (forall k :: 1 <= k <= LEVEL_MAX ==> t.bus.active[k] == s.bus.active[k] && t.dev.active[k] == s.dev.active[k])
    && (forall b :: b in s.bus.objs ==> b in t.bus.objs && t.bus.objs[b] == s.bus.objs[b])
    && (forall d :: d in s.dev.objs ==> d in t.dev.objs && t.dev.objs[d] == s.dev.objs[d])
    && (forall b :: b in s.bridge ==> b in t.bridge && t.bridge[b] == s.bridge[b])
    && (forall d :: d in s.parent ==> d in t.parent && t.parent[d] == s.parent[d])
  }

  lemma GrewByRegistering(s: Sys, id: nat, p: Option<nat>, skip: bool, d: nat)
    requires |s.bus.active| == |s.bus.taken| == |s.dev.active| == |s.dev.taken| == LEVEL_MAX + 1
    requires s.parent.Keys == s.dev.objs.Keys && s.bridge.Keys == s.bus.objs.Keys
    requires id !in s.bus.objs && id !in s.dev.objs
    ensures Grew(s, s) && Grew(s, AddDev(s, id, p, skip)) && Grew(s, AddBus(s, id, d))
  {
  }

  lemma GrewRefl(s: Sys)
    requires |s.bus.active| == |s.dev.active| == LEVEL_MAX + 1
    ensures Grew(s, s)
  {
  }

  lemma GrewFurther(s: Sys, t: Sys, u: Sys)
    requires |s.bus.active| == |s.dev.active| == |t.bus.active| == |t.dev.active| == LEVEL_MAX + 1
    requires |u.bus.active| == |u.dev.active| == LEVEL_MAX + 1
    requires Grew(s, t) && Grew(t, u)
    ensures Grew(s, u)
  {
  }

  class Manager {
    var level: nat
    var initializing: bool
    var bus: Side                     // bus lists and bus fields
    var dev: Side                     // device lists and device fields
    var parent: map<nat, Option<nat>>
    var bridge: map<nat, nat>
    var nextId: nat                   // identities of objects allocated later
    var budget: nat                   // how many registrations the handlers still have in them
    const busInit: Inits   // what init[k] of each bus and driver does
    const devInit: Inits
    const quiet: bool                 // bus handlers above init[0] register nothing
    ghost var busTally: Tally
    ghost var devTally: Tally
    ghost var at: At                  // where the update is, and everything that has happened
    ghost var stage: nat
    ghost var moved: bool
    ghost var late: bool
    ghost var events: seq<Event>

    ghost function S(): Sys
      reads this
    {
      Sys(level, bus, dev, parent, bridge)
    }

    ghost function C(): Cfg
      reads this
    {
      Cfg(S(), at, stage, moved, late)
    }

    ghost predicate Books()
      reads this
    {
      Accounted(S(), busInit, devInit, busTally, devTally)
    }

    /** The configuration is the one the events so far lead to; the other half of the invariant is about identities. */
    ghost predicate Inv()
      reads this
    {
      && DrvRun.Inv(C()) && Replay(events) == Some(C()) && Books()
      && (forall b :: b in bus.objs ==> b < nextId) && (forall d :: d in dev.objs ==> d < nextId)
      && (initializing <==> !at.Rest?)
      && (quiet ==> !late)
    }

    ghost function Measure(): nat
      reads this
    {
      5 * budget + Owed(bus) + Owed(dev)
    }

    /** The buses that have reached the manager's level. */
    ghost function Top(): seq<nat>
      reads this
    {
      if level < |bus.active| then bus.active[level] else []
    }

    /** What an outermost update that had something to do promises. */
    ghost predicate Settled()
      reads this
    {
      Shaped(S()) && at.Rest? && (Quiescent(S()) <==> !late) && (late <==> !ZeroEmpty(S()))
    }

    constructor (budget: nat, quiet: bool, busInit: Inits, devInit: Inits)
      ensures Inv() && C() == INITIAL && !initializing && this.budget == budget && this.quiet == quiet
    {
      hide Accounted, DrvRun.Inv;
      level, initializing, nextId, this.budget := 0, false, 0, budget;
      bus, dev, parent, bridge := EMPTY_SIDE, EMPTY_SIDE, map[], map[];
      this.quiet, this.busInit, this.devInit := quiet, busInit, devInit;
      busTally, devTally := Tally({}, {}), Tally({}, {});
      at, stage, moved, late, events := Rest, 0, false, false, [];
      new;
      RunsKeepInv([]);
      StartIsAccounted(busInit, devInit);
      assert C() == INITIAL;
    }

    // -------------------------------------------------------------- registration

    /** Puts a device at the end of list 0, or of the inactive list when it has no driver or is to be ignored. */
    method AddDevice(p: Option<nat>, skip: bool)
      requires Inv() && MayHost(S(), p) && (initializing ==> !Idle(S())) && (quiet ==> !IsLate(C()))
      requires p.None? ==> !skip
      modifies this`dev, this`parent, this`nextId, this`events, this`late
      ensures Inv() && Shaped(old(S()))
      ensures C() == old(C()).(s := AddDev(old(S()), old(nextId), p, skip), late := old(late || (IsLate(C()) && !skip)))
      ensures nextId == old(nextId) + 1 && dev.inactive == old(dev.inactive) + if skip then [old(nextId)] else []
    {
      hide Accounted, DrvRun.Inv, ReplayFrom, Enabled, Next, Valid;
      ghost var c, e := C(), RegDev(nextId, p, skip);
      DoesRegDev(c, nextId, p, skip);
      ReplaySnoc(INITIAL, events, e, c);
      AddDevAccounted(S(), nextId, p, skip, busInit, devInit, busTally, devTally);
      dev := Register(dev, nextId, skip);
      parent := parent[nextId := p];
      nextId := nextId + 1;
      events, late := events + [e], late || (IsLate(c) && !skip);
    }

    /** Puts a bus at the end of list 0. */
    method AddBusOn(d: nat)
      requires Inv() && d in dev.objs && (initializing ==> !Idle(S())) && (quiet ==> !IsLate(C()))
      modifies this`bus, this`bridge, this`nextId, this`events, this`late
      ensures Inv() && Shaped(old(S()))
      ensures C() == old(C()).(s := AddBus(old(S()), old(nextId), d), late := old(late || IsLate(C())))
      ensures nextId == old(nextId) + 1
    {
      hide Accounted, DrvRun.Inv, ReplayFrom, Enabled, Next, Valid;
      ghost var c, e := C(), RegBus(nextId, d);
      DoesRegBus(c, nextId, d);
      ReplaySnoc(INITIAL, events, e, c);
      AddBusAccounted(S(), nextId, d, busInit, devInit, busTally, devTally);
      bus := Register(bus, nextId, false);
      bridge := bridge[nextId := d];
      nextId := nextId + 1;
      events, late := events + [e], late || IsLate(c);
    }

    /** Registers a device; one without a parent has a driver. During an update the nested `Update` returns at once. */
    method RegisterDev(p: Option<nat>, hasDriver: bool, ignored: bool)
      requires Inv() && MayHost(S(), p) && (initializing ==> !Idle(S())) && (quiet ==> !IsLate(C()))
      requires p.None? ==> hasDriver && !ignored
      modifies this
      ensures Inv() && initializing == old(initializing) && level == old(level) && Shaped(old(S()))
      ensures old(initializing) || p.None? || !hasDriver || level == 0 ==>
        && C() == old(C()).(s := AddDev(old(S()), old(nextId), p, !hasDriver || ignored),
                            late := old(late || (IsLate(C()) && hasDriver && !ignored))) && budget == old(budget)
        && busTally == old(busTally) && devTally == old(devTally)
      ensures !old(initializing) && p.Some? && hasDriver && level > 0 ==> Settled()
      decreases if initializing then 0 else 1, 1
    {
      hide Accounted, DrvRun.Inv, ReplayFrom, Enabled, Next, Settled;
      AddDevice(p, !hasDriver || ignored);
      if p.Some? && hasDriver {
        Update();
      }
    }

    /** Registers a bus behind the device `d`. */
    method RegisterBus(d: nat)
      requires Inv() && d in dev.objs && (initializing ==> !Idle(S())) && (quiet ==> !IsLate(C()))
      modifies this
      ensures Inv() && initializing == old(initializing) && level == old(level) && Shaped(old(S()))
      ensures old(initializing) || level == 0 ==>
        && C() == old(C()).(s := AddBus(old(S()), old(nextId), d), late := old(late || IsLate(C())))
        && budget == old(budget)
        && busTally == old(busTally) && devTally == old(devTally)
      ensures !old(initializing) && level > 0 ==> Settled()
      decreases if initializing then 0 else 1, 1
    {
      hide Accounted, DrvRun.Inv, ReplayFrom, Enabled, Next, Settled;
      AddBusOn(d);
      Update();
    }

    /**
     Calls `init[k]` of the bus or device in flight: unknown code that registers what it likes and then succeeds or
     refuses. The record of calls is kept here and nowhere else.
     */
    method RunHandler(isBus: bool, k: nat, mayRegister: bool) returns (error: bool)
      requires Inv() && initializing && (mayRegister && quiet ==> !IsLate(C()))
      requires isBus ==> at.Buses? && BusReady(S(), k + 1) && !busInit(bus.flight.value, k).Absent?
      requires !isBus ==> at.Devices? && DevReady(S(), k + 1) && !devInit(dev.flight.value, k).Absent?
      modifies this
      ensures Inv() && initializing && Grew(old(S()), S()) && Measure() <= old(Measure())
      ensures C() == old(C()).(s := S(), late := late)
      ensures isBus ==> error == busInit(old(bus.flight.value), k).Refuses? && devTally == old(devTally)
                        && busTally == AfterRun(old(busTally), old(bus.flight.value), k, error)
      ensures !isBus ==> error == devInit(old(dev.flight.value), k).Refuses? && busTally == old(busTally)
                         && devTally == AfterRun(old(devTally), old(dev.flight.value), k, error)
      decreases 0, 2, 3
    {
      hide Accounted, Valid, DrvRun.Inv, ReplayFrom, Enabled, Next, Owed;
      InvFacts(C());
      RegisterMany(mayRegister);
      InvFacts(C());
      if isBus {
        error := busInit(bus.flight.value, k).Refuses?;
        RunBusAccounted(S(), error, busInit, devInit, busTally, devTally);
        busTally := AfterRun(busTally, bus.flight.value, k, error);
      } else {
        error := devInit(dev.flight.value, k).Refuses?;
        RunDevAccounted(S(), error, busInit, devInit, busTally, devTally);
        devTally := AfterRun(devTally, dev.flight.value, k, error);
      }
    }

    /** Any registrations the budget allows, in any order. */
    method RegisterMany(mayRegister: bool)
      requires Inv() && initializing && !Idle(S()) && (mayRegister && quiet ==> !IsLate(C()))
      modifies this
      ensures Inv() && initializing && Grew(old(S()), S()) && Measure() <= old(Measure())
      ensures C() == old(C()).(s := S(), late := late)
      ensures !mayRegister ==> S() == old(S()) && budget == old(budget)
      ensures busTally == old(busTally) && devTally == old(devTally)
      decreases 0, 2, 2
    {
      hide Accounted, Valid, DrvRun.Inv, ReplayFrom, Enabled, Next, Owed, Grew;
      InvFacts(C());
      GrewRefl(S());
      var more: bool := *;
      while more && mayRegister && budget > 0
        invariant Inv() && initializing && !Idle(S()) && C() == old(C()).(s := S(), late := late)
        invariant |bus.active| == |dev.active| == LEVEL_MAX + 1
        invariant Grew(old(S()), S()) && Measure() <= old(Measure())
        invariant !mayRegister ==> S() == old(S()) && budget == old(budget)
        invariant busTally == old(busTally) && devTally == old(devTally)
        decreases budget
      {
        ghost var s := S();
        more := RegisterOne();
        InvFacts(C());
        GrewFurther(old(S()), s, S());
      }
    }

    method RegisterOne() returns (more: bool)
      requires Inv() && initializing && budget > 0 && !Idle(S()) && (quiet ==> !IsLate(C()))
      modifies this
      ensures Inv() && initializing && Grew(old(S()), S()) && Measure() <= old(Measure()) && budget < old(budget)
      ensures C() == old(C()).(s := S(), late := late)
      ensures busTally == old(busTally) && devTally == old(devTally)
      decreases 0, 2, 1
    {
      hide Accounted, Valid, DrvRun.Inv, ReplayFrom, Enabled, Next, Owed, Grew;
      InvFacts(C());
      var isBus: bool := *;
      if isBus {
        RegisterSomeBus();
      } else {
        RegisterSomeDev();
      }
      more := *;
    }

    method RegisterSomeBus()
      requires Inv() && initializing && budget > 0 && !Idle(S()) && (quiet ==> !IsLate(C()))
      modifies this
      ensures Inv() && initializing && Grew(old(S()), S()) && Measure() <= old(Measure()) && budget < old(budget)
      ensures C() == old(C()).(s := S(), late := late)
      ensures busTally == old(busTally) && devTally == old(devTally)
      decreases 0, 2, 0
    {
      hide Accounted, Valid, DrvRun.Inv, ReplayFrom, Enabled, Next, Owed, Grew, Settled, Register;
      InvFacts(C());
      GrewRefl(S());
      OwedSteps(bus);
      budget := budget - 1;
      var d: nat := *;
      if d in dev.objs {
        GrewByRegistering(S(), nextId, None, false, d);
        RegisterBus(d);
      }
    }

    method RegisterSomeDev()
      requires Inv() && initializing && budget > 0 && !Idle(S()) && (quiet ==> !IsLate(C()))
      modifies this
      ensures Inv() && initializing && Grew(old(S()), S()) && Measure() <= old(Measure()) && budget < old(budget)
      ensures C() == old(C()).(s := S(), late := late)
      ensures busTally == old(busTally) && devTally == old(devTally)
      decreases 0, 2, 0
    {
      hide Accounted, Valid, DrvRun.Inv, ReplayFrom, Enabled, Next, Owed, Grew, Settled, Register;
      InvFacts(C());
      GrewRefl(S());
      OwedSteps(dev);
      budget := budget - 1;
      var p: Option<nat> := *;
      var hasDriver: bool, ignored: bool := *, *;
      if (p.None? && hasDriver && !ignored) || (p.Some? && p.value in bus.objs) {
        GrewByRegistering(S(), nextId, p, !hasDriver || ignored, 0);
        RegisterDev(p, hasDriver, ignored);
      }
    }

    // -------------------------------------------------------------- initialisation

    /** Takes the bus in flight to the next level, or to the inactive list. */
    method DoBusInit(target: nat)
      requires Inv() && at.Buses? && bus.flight.Some? && target == stage + 1
      requires (bus.flight.value, target - 1) !in busTally.ran && bus.flight.value !in busTally.refused
      modifies this
      ensures Inv() && Idle(S()) && level == old(level)
      ensures C() == old(C()).(s := S(), late := late) && Measure() <= old(Measure()) + 5 - target
      ensures old(Top()) <= Top()
      ensures var b := old(bus.flight.value);
        && b in bus.objs
        && (bus.objs[b].failed <==> old(BridgeFailed(S())) || busInit(b, target - 1).Refuses?)
      decreases 0, 3, 1
    {
      hide Accounted, Valid, DrvRun.Inv, ReplayFrom, Enabled, Next, Owed, Grew;
      InvFacts(C());
      var failed := dev.objs[bridge[bus.flight.value]].failed;
      if !failed {
        failed := CallBusInit(target);
      }
      LandBus(failed);
    }

    /** Calls the handler of the bus in flight, if it has one for this level. */
    method CallBusInit(target: nat) returns (failed: bool)
      requires Inv() && at.Buses? && bus.flight.Some? && target == stage + 1 && BusReady(S(), target)
      requires (bus.flight.value, target - 1) !in busTally.ran && bus.flight.value !in busTally.refused
      requires !dev.objs[bridge[bus.flight.value]].failed
      modifies this
      ensures Inv() && C() == old(C()).(s := S(), late := late) && Measure() <= old(Measure())
      ensures bus.flight == old(bus.flight) && level == old(level) && old(Top()) == Top()
      ensures BusReady(S(), target) && !dev.objs[bridge[bus.flight.value]].failed
      ensures failed <==> bus.flight.value in busTally.refused
      ensures failed <==> busInit(bus.flight.value, target - 1).Refuses?
      ensures busTally == if busInit(bus.flight.value, target - 1).Absent? then old(busTally)
                         else AfterRun(old(busTally), bus.flight.value, target - 1, failed)
      ensures devTally == old(devTally)
      decreases 0, 3, 0
    {
      hide Accounted, Valid, DrvRun.Inv, ReplayFrom, Enabled, Next, Owed;
      InvFacts(C());
      failed := false;
      if !busInit(bus.flight.value, target - 1).Absent? {
        failed := RunHandler(true, target - 1, target == 1 || !quiet);
        InvFacts(C());
      }
    }

    method LandBus(failed: bool)
      requires Inv() && at.Buses? && bus.flight.Some?
      requires BusReady(S(), stage + 1)
      requires var b := bus.flight.value; var orphan := dev.objs[bridge[b]].failed;
        if failed then b in busTally.refused || orphan
        else b !in busTally.refused && !orphan && (!busInit(b, stage).Absent? ==> (b, stage) in busTally.ran)
      modifies this`bus, this`events
      ensures Inv() && Idle(S())
      ensures Flying(old(bus)) && old(bus.objs[bus.flight.value].level) < LEVEL_MAX
      ensures C() == old(C()).(s := old(S()).(bus := if failed then Drop(old(bus)) else Take(old(bus))))
      ensures bus.inactive == (if failed then [old(bus.flight.value)] else []) + old(bus.inactive)
      ensures Measure() <= old(Measure()) + 4 - stage
      ensures old(Top()) <= Top()
      decreases 0, 0
    {
      hide Accounted, Valid, DrvRun.Inv, ReplayFrom, Enabled, Next, Owed;
      ghost var c, e := C(), DrvRun.LandBus(failed);
      InvFacts(c);
      DoesLandBus(c, failed);
      ReplaySnoc(INITIAL, events, e, c);
      OwedSteps(bus);
      LandBusAccounted(S(), if failed then Drop(bus) else Take(bus), busInit, devInit, busTally, devTally);
      bus := if failed then Drop(bus) else Take(bus);
      events := events + [e];
    }

    /** Takes the device in flight to the next level, or to the inactive list. */
    method DoDevInit(target: nat)
      requires Inv() && at.Devices? && dev.flight.Some? && target == stage + 1
      requires (dev.flight.value, target - 1) !in devTally.ran && dev.flight.value !in devTally.refused
      modifies this
      ensures Inv() && Idle(S()) && level == old(level)
      ensures C() == Cfg(S(), Devices, old(stage), true, false) && Measure() <= old(Measure()) + 5 - target
      ensures old(Top()) <= Top()
      ensures var d := old(dev.flight.value);
        && d in dev.objs
        && (dev.objs[d].failed <==> old(ParentFailed(S())) || devInit(d, target - 1).Refuses?)
      decreases 0, 3, 1
    {
      hide Accounted, Valid, DrvRun.Inv, ReplayFrom, Enabled, Next, Owed, Grew;
      InvFacts(C());
      var d := dev.flight.value;
      var failed := parent[d].Some? && bus.objs[parent[d].value].failed;
      if !failed {
        failed := CallDevInit(target);
      }
      LandDev(failed);
    }

    method CallDevInit(target: nat) returns (failed: bool)
      requires Inv() && at.Devices? && dev.flight.Some? && target == stage + 1 && DevReady(S(), target)
      requires (dev.flight.value, target - 1) !in devTally.ran && dev.flight.value !in devTally.refused
      requires !ParentFailed(S())
      modifies this
      ensures Inv() && C() == old(C()).(s := S(), late := late) && Measure() <= old(Measure())
      ensures dev.flight == old(dev.flight) && level == old(level) && old(Top()) == Top()
      ensures DevReady(S(), target) && !ParentFailed(S())
      ensures failed <==> dev.flight.value in devTally.refused
      ensures failed <==> devInit(dev.flight.value, target - 1).Refuses?
      ensures devTally == if devInit(dev.flight.value, target - 1).Absent? then old(devTally)
                         else AfterRun(old(devTally), dev.flight.value, target - 1, failed)
      ensures busTally == old(busTally)
      decreases 0, 3, 0
    {
      hide Accounted, Valid, DrvRun.Inv, ReplayFrom, Enabled, Next, Owed;
      InvFacts(C());
      failed := false;
      if !devInit(dev.flight.value, target - 1).Absent? {
        failed := RunHandler(false, target - 1, true);
        InvFacts(C());
      }
    }

    method LandDev(failed: bool)
      requires Inv() && at.Devices? && dev.flight.Some?
      requires DevReady(S(), stage + 1)
      requires var d := dev.flight.value; var orphan := parent[d].Some? && bus.objs[parent[d].value].failed;
        if failed then d in devTally.refused || orphan
        else d !in devTally.refused && !orphan && (!devInit(d, stage).Absent? ==> (d, stage) in devTally.ran)
      modifies this`dev, this`events, this`moved, this`late
      ensures Inv() && Idle(S())
      ensures Flying(old(dev)) && old(dev.objs[dev.flight.value].level) < LEVEL_MAX
      ensures C() == Cfg(old(S()).(dev := if failed then Drop(old(dev)) else Take(old(dev))),
                         Devices, old(stage), true, false)
      ensures dev.inactive == (if failed then [old(dev.flight.value)] else []) + old(dev.inactive)
      ensures Measure() <= old(Measure()) + 4 - stage
      decreases 0, 0
    {
      hide Accounted, Valid, DrvRun.Inv, ReplayFrom, Enabled, Next, Owed;
      ghost var c, e := C(), DrvRun.LandDev(failed);
      InvFacts(c);
      DoesLandDev(c, failed);
      ReplaySnoc(INITIAL, events, e, c);
      OwedSteps(dev);
      LandDevAccounted(S(), if failed then Drop(dev) else Take(dev), busInit, devInit, busTally, devTally);
      dev := if failed then Drop(dev) else Take(dev);
      events, moved, late := events + [e], true, false;
    }

    /** Takes the first bus of the list into flight. */
    method TakeUpBus(lv: nat)
      requires Inv() && at.Buses? && stage == lv && Idle(S()) && lv < level <= LEVEL_MAX
      requires |bus.active| == LEVEL_MAX + 1 && bus.active[lv] != []
      modifies this`bus, this`events
      ensures Inv() && C() == old(C()).(s := old(S()).(bus := Pop(old(bus), lv)))
      ensures Measure() == old(Measure()) - (5 - lv) && Top() == old(Top())
      ensures (bus.flight.value, lv) !in busTally.ran && bus.flight.value !in busTally.refused
    {
      hide Accounted, Valid, DrvRun.Inv, ReplayFrom, Enabled, Next, Owed;
      ghost var c := C();
      InvFacts(c);
      DoesPopBus(c);
      ReplaySnoc(INITIAL, events, PopBus, c);
      PopBusAccounted(S(), lv, busInit, devInit, busTally, devTally);
      OwedSteps(bus);
      bus := Pop(bus, lv);
      events := events + [PopBus];
    }

    /** Takes all buses of a level to the next one. */
    method RaiseBuses(lv: nat)
      requires Inv() && at.Buses? && stage == lv && Idle(S()) && lv < level
      modifies this
      ensures Inv() && C() == Cfg(S(), Devices, lv, false, late) && Idle(S()) && level == old(level)
      ensures Measure() <= old(Measure()) && old(Top()) <= Top()
      decreases 0, 4
    {
      hide Accounted, Valid, DrvRun.Inv, ReplayFrom, Enabled, Next, Owed;
      InvFacts(C());
      while bus.active[lv] != []
        invariant Inv() && at.Buses? && stage == lv && Idle(S()) && level == old(level) <= LEVEL_MAX
        invariant |bus.active| == |dev.active| == LEVEL_MAX + 1
        invariant Measure() <= old(Measure()) && old(Top()) <= Top()
        decreases Measure()
      {
        TakeUpBus(lv);
        DoBusInit(lv + 1);
        InvFacts(C());
      }
      ghost var c := C();
      InvFacts(c);
      DoesBusesDone(c);
      ReplaySnoc(INITIAL, events, BusesDone, c);
      events, at, moved := events + [BusesDone], Devices, false;
    }

    /** Takes the first device of the list into flight. */
    method TakeUpDev(lv: nat)
      requires Inv() && at.Devices? && stage == lv && Idle(S()) && lv < level <= LEVEL_MAX
      requires |dev.active| == LEVEL_MAX + 1 && dev.active[lv] != []
      modifies this`dev, this`events
      ensures Inv() && C() == old(C()).(s := old(S()).(dev := Pop(old(dev), lv)))
      ensures Measure() == old(Measure()) - (5 - lv)
      ensures (dev.flight.value, lv) !in devTally.ran && dev.flight.value !in devTally.refused
    {
      hide Accounted, Valid, DrvRun.Inv, ReplayFrom, Enabled, Next, Owed;
      ghost var c := C();
      InvFacts(c);
      DoesPopDev(c);
      ReplaySnoc(INITIAL, events, PopDev, c);
      PopDevAccounted(S(), lv, busInit, devInit, busTally, devTally);
      OwedSteps(dev);
      dev := Pop(dev, lv);
      events := events + [PopDev];
    }

    /** Takes all devices of a level to the next one; `any` tells whether there were any. */
    method RaiseDevices(lv: nat) returns (any: bool)
      requires Inv() && C() == Cfg(S(), Devices, lv, false, late) && Idle(S()) && lv < level
      modifies this
      ensures Inv() && C() == Cfg(S(), Devices, lv, any, late) && Idle(S()) && level == old(level)
      ensures |dev.active| == LEVEL_MAX + 1 && dev.active[lv] == []
      ensures any ==> Measure() < old(Measure())
      ensures !any ==> Measure() == old(Measure())
      ensures old(Top()) <= Top()
      decreases 0, 4
    {
      hide Accounted, Valid, DrvRun.Inv, ReplayFrom, Enabled, Next, Owed;
      InvFacts(C());
      any := false;
      while dev.active[lv] != []
        invariant Inv() && C() == Cfg(S(), Devices, lv, any, late) && Idle(S()) && level == old(level) <= LEVEL_MAX
        invariant |dev.active| == |bus.active| == LEVEL_MAX + 1
        invariant any ==> Measure() < old(Measure())
        invariant !any ==> Measure() == old(Measure())
        invariant old(Top()) <= Top()
        decreases Measure()
      {
        TakeUpDev(lv);
        DoDevInit(lv + 1);
        InvFacts(C());
        any := true;
      }
    }

    /**
     Takes everything registered to the manager's level. It terminates for any finite number of
     registrations made meanwhile, although every level that had devices restarts it from level 0.
     Nothing is left below the manager's level, unless a bus handler above init[0] registered something
     and no device was handled after that; buses that have reached the manager's level stay there.
     */
    method Update()
      requires Inv() && (initializing ==> !Idle(S()))
      modifies this
      ensures Inv() && initializing == old(initializing) && level == old(level)
      ensures old(initializing) || level == 0 ==>
        && C() == old(C()) && budget == old(budget) && nextId == old(nextId)
        && busTally == old(busTally) && devTally == old(devTally)
      ensures !old(initializing) && level > 0 ==> Settled() && (quiet ==> Quiescent(S()))
      ensures Shaped(S()) && old(Top()) <= Top()
      decreases if initializing then 0 else 1, 0
    {
      hide Accounted, Valid, DrvRun.Inv, ReplayFrom, Enabled, Next, Owed, Quiescent;
      InvFacts(C());
      if initializing || level == 0 { return; }
      StartUpdate();
      var lv: nat := 0;
      while lv < level
        invariant Inv() && Idle(S()) && level == old(level) && lv <= level <= LEVEL_MAX && level > 0
        invariant |bus.active| == |dev.active| == LEVEL_MAX + 1
        invariant lv < level ==> at.Buses? && stage == lv
        invariant lv == level ==> C() == Cfg(S(), Devices, level - 1, false, late) && dev.active[level - 1] == []
        invariant old(Top()) <= Top()
        decreases Measure(), level - lv
      {
        RaiseBuses(lv);
        InvFacts(C());
        var any := RaiseDevices(lv);
        InvFacts(C());
        lv := if any then 0 else lv + 1;
        if lv < level { NextLevel(); }
      }
      EndUpdate();
    }

    method StartUpdate()
      requires Inv() && !initializing && level > 0
      modifies this`initializing, this`events, this`at, this`stage, this`moved, this`late
      ensures Inv() && C() == Cfg(S(), Buses, 0, false, false) && Idle(S())
    {
      hide Accounted, Valid, DrvRun.Inv, ReplayFrom;
      ghost var c := C();
      InvFacts(c);
      StepKeepsInv(c, Begin);
      ReplaySnoc(INITIAL, events, Begin, c);
      initializing := true;
      events, at, stage, moved, late := events + [Begin], Buses, 0, false, false;
    }

    /** The loop goes on, at the next level or from the start. */
    ghost method NextLevel()
      requires Inv() && at.Devices? && Idle(S()) && stage < level <= LEVEL_MAX && (moved || stage + 1 < level)
      requires |dev.active| == LEVEL_MAX + 1 && dev.active[stage] == []
      modifies this`events, this`at, this`stage, this`moved
      ensures Inv() && C() == Cfg(S(), Buses, if old(moved) then 0 else old(stage) + 1, false, late)
    {
      hide Accounted, Valid, DrvRun.Inv, ReplayFrom, Enabled, Next;
      var c := C();
      InvFacts(c);
      DoesDevicesDone(c);
      ReplaySnoc(INITIAL, events, DevicesDone, c);
      events, at, stage, moved := events + [DevicesDone], Buses, if moved then 0 else stage + 1, false;
    }

    method EndUpdate()
      requires Inv() && level > 0 && C() == Cfg(S(), Devices, level - 1, false, late) && Idle(S())
      requires level <= LEVEL_MAX && |dev.active| == LEVEL_MAX + 1 && dev.active[level - 1] == []
      modifies this`initializing, this`events, this`at
      ensures Inv() && !initializing && Settled() && (quiet ==> Quiescent(S()))
    {
      hide Accounted, Valid, DrvRun.Inv, ReplayFrom, Enabled, Next, Quiescent;
      ghost var c := C();
      InvFacts(c);
      DoesDevicesDone(c);
      ReplaySnoc(INITIAL, events, DevicesDone, c);
      EndsQuiescentUnlessLate(c);
      initializing := false;
      events, at := events + [DevicesDone], Rest;
    }

    /** Raises the manager's level and brings everything up to it. */
    method InitLevel(newLevel: nat)
      requires Inv() && !initializing && newLevel <= LEVEL_MAX
      modifies this
      ensures Inv() && !initializing
      ensures level == if old(level) >= newLevel then old(level) else newLevel
      ensures old(level) < newLevel ==> Settled() && (quiet ==> Quiescent(S()))
    {
      hide Accounted, Valid, DrvRun.Inv, ReplayFrom, Settled, Quiescent;
      if level >= newLevel { return; }
      ghost var c := C();
      InvFacts(c);
      StepKeepsInv(c, Raise(newLevel));
      ReplaySnoc(INITIAL, events, Raise(newLevel), c);
      RaisedLevelAccounted(S(), newLevel, busInit, devInit, busTally, devTally);
      level := newLevel;
      events := events + [Raise(newLevel)];
      assert C() == Next(c, Raise(newLevel));
      Update();
    }
  }

  /** What is needed of the invariant where its definition is not. */
  lemma InvFacts(c: Cfg)
    requires DrvRun.Inv(c)
    ensures Valid(c.s) && Shaped(c.s) && (c.at.Rest? ==> Idle(c.s))
    ensures c.s.bus.flight.Some? ==>
      && Flying(c.s.bus) && c.s.bus.objs[c.s.bus.flight.value].level < LEVEL_MAX
      && (c.at.Buses? ==> BusReady(c.s, c.lv + 1))
    ensures c.s.dev.flight.Some? ==>
      && Flying(c.s.dev) && c.s.dev.objs[c.s.dev.flight.value].level < LEVEL_MAX
      && (c.at.Devices? ==> DevReady(c.s, c.lv + 1))
    ensures c.at.Buses? ==> c.s.dev.flight.None? && c.lv < c.s.level
    ensures c.at.Devices? ==> c.s.bus.flight.None? && c.lv < c.s.level
    ensures c.s.parent.Keys == c.s.dev.objs.Keys && c.s.bridge.Keys == c.s.bus.objs.Keys
  {
    hide Valid;
    FlightFacts(c.s);
  }

  lemma StartIsAccounted(busInit: Inits, devInit: Inits)
    ensures Accounted(START, busInit, devInit, Tally({}, {}), Tally({}, {}))
  {
  }

  lemma RaisedLevelAccounted(s: Sys, newLevel: nat,
                             busInit: Inits, devInit: Inits, bus: Tally, dev: Tally)
    requires Accounted(s, busInit, devInit, bus, dev)
    ensures Accounted(s.(level := newLevel), busInit, devInit, bus, dev)
  {
  }

  // ---------------------------------------------------------------- order

  /** A subsequence keeps the order of any two of its elements. */
  lemma {:induction false} SubseqKeepsOrder(a: seq<nat>, b: seq<nat>, i: nat, j: nat) returns (p: nat, q: nat)
    requires Subseq(a, b) && i < j < |a|
    ensures p < q < |b| && b[p] == a[i] && b[q] == a[j]
    decreases |b|
  {
    var b' := b[..|b| - 1];
    if Subseq(a, b') {
      p, q := SubseqKeepsOrder(a, b', i, j);
    } else {
      var a' := a[..|a| - 1];
      if j == |a| - 1 {
        p := SubseqMember(a', b', i);
        q := |b| - 1;
      } else {
        p, q := SubseqKeepsOrder(a', b', i, j);
      }
    }
  }

  lemma {:induction false} SubseqMember(a: seq<nat>, b: seq<nat>, i: nat) returns (p: nat)
    requires Subseq(a, b) && i < |a|
    ensures p < |b| && b[p] == a[i]
    decreases |b|
  {
    var b' := b[..|b| - 1];
    if Subseq(a, b') {
      p := SubseqMember(a, b', i);
    } else if i == |a| - 1 {
      p := |b| - 1;
    } else {
      p := SubseqMember(a[..|a| - 1], b', i);
    }
  }

  /** Whatever was taken to level k+1 earlier was taken to level k earlier. */
  lemma LevelsKeepOrder(x: Side, k: nat, i: nat, j: nat) returns (p: nat, q: nat)
    requires Good(x) && k < LEVEL_MAX && i < j < |x.taken[k + 1]|
    ensures p < q < |x.taken[k]| && x.taken[k][p] == x.taken[k + 1][i] && x.taken[k][q] == x.taken[k + 1][j]
  {
    assert Subseq(x.taken[k + 1], x.tried[k]);
    p, q := SubseqKeepsOrder(x.taken[k + 1], x.tried[k], i, j);
    assert x.taken[k] == x.tried[k] + InFlightAt(x, k) + x.active[k];
  }

  /** In every reachable state, on either side. */
  lemma RunsKeepOrder(es: seq<Event>, c: Cfg, x: Side, k: nat, i: nat, j: nat) returns (p: nat, q: nat)
    requires Replay(es) == Some(c) && (x == c.s.bus || x == c.s.dev)
    requires k < LEVEL_MAX && |x.taken| == LEVEL_MAX + 1 && i < j < |x.taken[k + 1]|
    ensures p < q < |x.taken[k]| && x.taken[k][p] == x.taken[k + 1][i] && x.taken[k][q] == x.taken[k + 1][j]
  {
    RunsKeepInv(es);
    hide Linked, ReplayFrom;
    p, q := LevelsKeepOrder(x, k, i, j);
  }
}
