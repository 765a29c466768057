/**
 The update as a transition system: registrations, raised levels, and the turns of its loops, each a step.
 Handlers are unknown code: while an object is in flight, any number of registrations may happen.
 */
module DrvRun {
  import opened Bytes
  import opened DrvSide
  import opened DrvSystem

  /** Outside an update, in its bus loop, or in its device loop. */
  datatype At = Rest | Buses | Devices

  /**
   `lv` is the loop's level and `any` tells whether its device loop did anything. `late` remembers that an active
   object was registered while the bus loop was above level 0, and that no device has been handled since.
   */
  datatype Cfg = Cfg(s: Sys, at: At, lv: nat, any: bool, late: bool)

  datatype Event =
    | RegDev(id: nat, parent: Option<nat>, skip: bool)
    | RegBus(id: nat, bridge: nat)
    | Raise(level: nat)
    | Begin
    | PopBus | LandBus(failed: bool) | BusesDone
    | PopDev | LandDev(failed: bool) | DevicesDone

  const INITIAL := Cfg(START, Rest, 0, false, false)

  // ---------------------------------------------------------------- steps

  predicate Shaped(s: Sys) {
    && |s.bus.active| == |s.bus.taken| == |s.bus.tried| == LEVEL_MAX + 1
    && |s.dev.active| == |s.dev.taken| == |s.dev.tried| == LEVEL_MAX + 1
    && s.level <= LEVEL_MAX
  }

  /**
   Registrations come from outside, from the handler of the object in flight, or from another task: the lists are
   unlocked while an object is in flight and just after it has landed.
   */
  predicate MayRegister(c: Cfg, id: nat) {
    && (c.at.Rest? || c.at.Buses? || c.any || !Idle(c.s))
    && id !in c.s.bus.objs && id !in c.s.dev.objs
  }

  /** The bridge of the bus in flight has failed. */
  predicate BridgeFailed(s: Sys) {
    && s.bus.flight.Some? && s.bus.flight.value in s.bridge
    && s.bridge[s.bus.flight.value] in s.dev.objs && s.dev.objs[s.bridge[s.bus.flight.value]].failed
  }

  /** The bus of the device in flight has failed. */
  predicate ParentFailed(s: Sys) {
    && s.dev.flight.Some? && s.dev.flight.value in s.parent && s.parent[s.dev.flight.value].Some?
    && s.parent[s.dev.flight.value].value in s.bus.objs && s.bus.objs[s.parent[s.dev.flight.value].value].failed
  }

  predicate Enabled(c: Cfg, e: Event) {
    Shaped(c.s) &&
    match e
    case RegDev(id, parent, skip) => MayRegister(c, id) && MayHost(c.s, parent) && (parent.None? ==> !skip)
    case RegBus(id, bridge) => MayRegister(c, id) && bridge in c.s.dev.objs
    case Raise(level) => c.at.Rest? && c.s.level < level <= LEVEL_MAX
    case Begin => c.at.Rest? && c.s.level > 0
    case PopBus => c.at.Buses? && Idle(c.s) && c.lv < c.s.level && c.s.bus.active[c.lv] != []
    case LandBus(failed) =>
      && c.at.Buses? && Flying(c.s.bus) && c.s.bus.objs[c.s.bus.flight.value].level < LEVEL_MAX
      && (BridgeFailed(c.s) ==> failed)
    case BusesDone => c.at.Buses? && Idle(c.s) && c.lv < c.s.level && c.s.bus.active[c.lv] == []
    case PopDev => c.at.Devices? && Idle(c.s) && c.lv < c.s.level && c.s.dev.active[c.lv] != []
    case LandDev(failed) =>
      && c.at.Devices? && Flying(c.s.dev) && c.s.dev.objs[c.s.dev.flight.value].level < LEVEL_MAX
      && (ParentFailed(c.s) ==> failed)
    case DevicesDone => c.at.Devices? && Idle(c.s) && c.lv < c.s.level && c.s.dev.active[c.lv] == []
  }

  /** A registration above the loop's first level, by a bus handler or while the bus loop is there. */
  predicate IsLate(c: Cfg) { c.at.Buses? && c.lv >= 1 }

  function Next(c: Cfg, e: Event): Cfg
    requires Enabled(c, e)
  {
    match e
    case RegDev(id, parent, skip) => c.(s := AddDev(c.s, id, parent, skip), late := c.late || (IsLate(c) && !skip))
    case RegBus(id, bridge) => c.(s := AddBus(c.s, id, bridge), late := c.late || IsLate(c))
    case Raise(level) => c.(s := c.s.(level := level))
    case Begin => Cfg(c.s, Buses, 0, false, false)
    case PopBus => c.(s := c.s.(bus := Pop(c.s.bus, c.lv)))
    case LandBus(failed) => c.(s := c.s.(bus := if failed then Drop(c.s.bus) else Take(c.s.bus)))
    case BusesDone => c.(at := Devices, any := false)
    case PopDev => c.(s := c.s.(dev := Pop(c.s.dev, c.lv)))
    case LandDev(failed) =>
      c.(s := c.s.(dev := if failed then Drop(c.s.dev) else Take(c.s.dev)), any := true, late := false)
    case DevicesDone =>
      if c.any then c.(at := Buses, lv := 0, any := false)
      else if c.lv + 1 < c.s.level then c.(at := Buses, lv := c.lv + 1)
      else c.(at := Rest)
  }

  /** Where a sequence of events leads, if all of them can happen. */
  function ReplayFrom(c: Cfg, es: seq<Event>): Option<Cfg> {
    if es == [] then Some(c)
    else match ReplayFrom(c, es[..|es| - 1])
      case None => None
      case Some(d) => if Enabled(d, es[|es| - 1]) then Some(Next(d, es[|es| - 1])) else None
  }

  /** The same from the empty manager. */
  function Replay(es: seq<Event>): Option<Cfg> { ReplayFrom(INITIAL, es) }

  lemma ReplaySnoc(c: Cfg, es: seq<Event>, e: Event, d: Cfg)
    requires ReplayFrom(c, es) == Some(d) && Enabled(d, e)
    ensures ReplayFrom(c, es + [e]) == Some(Next(d, e))
  {
    assert (es + [e])[..|es|] == es;
  }

  lemma {:induction false} ReplayConcat(c: Cfg, es: seq<Event>, d: Cfg, fs: seq<Event>)
    requires ReplayFrom(c, es) == Some(d)
    ensures ReplayFrom(c, es + fs) == ReplayFrom(d, fs)
  {
    hide Enabled, Next;
    if fs == [] {
      assert es + fs == es;
    } else {
      assert (es + fs)[..|es + fs| - 1] == es + fs[..|fs| - 1];
      ReplayConcat(c, es, d, fs[..|fs| - 1]);
    }
  }

  // ---------------------------------------------------------------- what every step keeps

  /** The bus in flight is one step below `target`, and its bridge, if still active, is not behind it. */
  predicate BusReady(s: Sys, target: nat) {
    s.bus.flight.Some? && s.bus.flight.value in s.bus.objs && s.bus.flight.value in s.bridge
    && s.bus.objs[s.bus.flight.value].level + 1 == target
    && s.bridge[s.bus.flight.value] in s.dev.objs
    && var d := s.dev.objs[s.bridge[s.bus.flight.value]]; !d.inactive ==> target - 1 <= d.level
  }

  /** The device in flight is one step below `target`, and its bus has failed or is there, unless that is level 1. */
  predicate DevReady(s: Sys, target: nat) {
    s.dev.flight.Some? && s.dev.flight.value in s.dev.objs && s.dev.flight.value in s.parent
    && s.dev.objs[s.dev.flight.value].level + 1 == target
    && (s.parent[s.dev.flight.value].Some? ==>
          var b := s.parent[s.dev.flight.value].value;
          b in s.bus.objs && (s.bus.objs[b].failed || target <= s.bus.objs[b].level || target == 1))
  }

  /** Nothing is left on the lists from 1 up to, not including, `lv`. */
  ghost predicate Swept(s: Sys, lv: nat) {
    Shaped(s) && lv <= LEVEL_MAX && forall k :: 1 <= k < lv ==> s.bus.active[k] == [] && s.dev.active[k] == []
  }

  predicate ZeroEmpty(s: Sys) { Shaped(s) && s.bus.active[0] == [] && s.dev.active[0] == [] }

  /** A device still on list 0 bridges to no bus that has gone further. */
  ghost predicate Fresh(s: Sys) {
    && Shaped(s)
    && (forall b :: b in s.bridge && b in s.bus.objs && s.bridge[b] in s.dev.active[0] ==> s.bus.objs[b].level == 0)
  }

  /** A bus still on list 0 holds no device that has gone further. */
  ghost predicate Unpassed(s: Sys) {
    && Shaped(s)
    && (forall d :: d in s.parent && d in s.dev.objs && s.parent[d].Some? && s.parent[d].value in s.bus.active[0] ==>
          s.dev.objs[d].level == 0)
  }

  /** Above level 0, something on list 0 means a late registration. */
  ghost predicate LateSeen(c: Cfg) {
    if c.lv == 0 then !c.late else Fresh(c.s) && (c.late <==> !ZeroEmpty(c.s))
  }

  ghost predicate Inv(c: Cfg) {
    Valid(c.s) && Shaped(c.s) &&
    match c.at
    case Rest => Idle(c.s)
    case Buses =>
      && (c.lv >= 1 ==> Unpassed(c.s))
      && c.s.dev.flight.None? && c.lv < c.s.level && Swept(c.s, c.lv) && LateSeen(c)
      && (c.s.bus.flight.Some? ==> BusReady(c.s, c.lv + 1))
    case Devices =>
      && c.s.bus.flight.None? && c.lv < c.s.level && Swept(c.s, c.lv)
      && (c.lv >= 1 ==> c.s.bus.active[c.lv] == [] && Unpassed(c.s))
      && (c.s.dev.flight.Some? ==> DevReady(c.s, c.lv + 1))
      && (c.any ==> !c.late)
      && (!c.any && c.s.dev.flight.None? ==> LateSeen(c) && (c.lv == 0 ==> c.s.bus.active[0] == []))
  }

  lemma FlightFacts(s: Sys)
    requires Valid(s)
    ensures Shaped(s)
    ensures s.bus.flight.Some? ==> Flying(s.bus) && s.bus.objs[s.bus.flight.value].level < LEVEL_MAX
    ensures s.dev.flight.Some? ==> Flying(s.dev) && s.dev.objs[s.dev.flight.value].level < LEVEL_MAX
    ensures s.parent.Keys == s.dev.objs.Keys && s.bridge.Keys == s.bus.objs.Keys
  {
  }

  /** A bus taken up has no active bridge behind it. */
  lemma PoppedBusIsReady(s: Sys, lv: nat)
    requires Valid(s) && Idle(s) && lv < s.level && s.bus.active[lv] != [] && Swept(s, lv)
    requires lv >= 1 ==> Fresh(s)
    ensures BusReady(s.(bus := Pop(s.bus, lv)), lv + 1)
  {
    var b := s.bus.active[lv][0];
    assert b in s.bus.active[lv];
    assert On(s.bus, b, lv);
    var d := s.bridge[b];
    if !s.dev.objs[d].inactive {
      assert On(s.dev, d, s.dev.objs[d].level);
      assert d in s.dev.active[s.dev.objs[d].level];
    }
  }

  /** A device taken up has its bus failed or already a level ahead, unless it is at level 0. */
  lemma PoppedDevIsReady(s: Sys, lv: nat)
    requires Valid(s) && Idle(s) && lv < s.level && s.dev.active[lv] != []
    requires forall k :: 1 <= k <= lv ==> s.bus.active[k] == []
    requires lv >= 1 ==> Unpassed(s)
    ensures DevReady(s.(dev := Pop(s.dev, lv)), lv + 1)
  {
    var d := s.dev.active[lv][0];
    assert d in s.dev.active[lv];
    assert On(s.dev, d, lv);
    if s.parent[d].Some? {
      var b := s.parent[d].value;
      if !s.bus.objs[b].failed {
        assert On(s.bus, b, s.bus.objs[b].level);
        assert b in s.bus.active[s.bus.objs[b].level];
      }
    }
  }

  /** Registering keeps what is known of the object in flight and of the lists above 0. */
  lemma RegisteringKeeps(s: Sys, t: Sys, e: Event, lv: nat)
    requires Shaped(s) && Typed(s)
    requires (e.RegDev? && e.id !in s.dev.objs && t == AddDev(s, e.id, e.parent, e.skip))
          || (e.RegBus? && e.id !in s.bus.objs && t == AddBus(s, e.id, e.bridge))
    ensures Shaped(t) && t.level == s.level && t.bus.flight == s.bus.flight && t.dev.flight == s.dev.flight
    ensures forall k :: 1 <= k <= LEVEL_MAX ==> t.bus.active[k] == s.bus.active[k]
    ensures BusReady(s, lv) ==> BusReady(t, lv)
    ensures DevReady(s, lv) ==> DevReady(t, lv)
    ensures Swept(s, lv) ==> Swept(t, lv)
    ensures e.RegDev? && e.skip ==> t.bus.active == s.bus.active && t.dev.active == s.dev.active
    ensures e.RegBus? || !e.skip ==> !ZeroEmpty(t)
  {
  }

  /** It also keeps what is known of the objects still on list 0. */
  lemma RegisteringKeepsZero(s: Sys, t: Sys, e: Event)
    requires Shaped(s) && Typed(s)
    requires (e.RegDev? && e.id !in s.dev.objs && t == AddDev(s, e.id, e.parent, e.skip))
          || (e.RegBus? && e.id !in s.bus.objs && t == AddBus(s, e.id, e.bridge))
    ensures Fresh(s) ==> Fresh(t)
    ensures Unpassed(s) ==> Unpassed(t)
  {
  }

  lemma RegisterKeepsInv(c: Cfg, e: Event)
    requires Inv(c) && Enabled(c, e) && (e.RegDev? || e.RegBus?)
    ensures Inv(Next(c, e))
  {
    hide Valid, Typed, BusReady, DevReady, Swept, Fresh, Unpassed, MayHost, AddDev, AddBus;
    var t := Next(c, e).s;
    if e.RegDev? { AddDevKeepsValid(c.s, e.id, e.parent, e.skip); } else { AddBusKeepsValid(c.s, e.id, e.bridge); }
    IsTyped(c.s);
    RegisteringKeeps(c.s, t, e, c.lv);
    RegisteringKeeps(c.s, t, e, c.lv + 1);
    RegisteringKeepsZero(c.s, t, e);
  }

  lemma IsTyped(s: Sys)
    requires Valid(s)
    ensures Typed(s)
  {
  }

  lemma PopKeepsInv(c: Cfg, e: Event)
    requires Inv(c) && Enabled(c, e) && (e.PopBus? || e.PopDev?)
    ensures Inv(Next(c, e))
  {
    hide Valid;
    if e.PopBus? {
      PopBusKeepsValid(c.s, c.lv);
      PoppedBusIsReady(c.s, c.lv);
    } else {
      PopDevKeepsValid(c.s, c.lv);
      PoppedDevIsReady(c.s, c.lv);
    }
    hide BusReady, DevReady;
  }

  lemma LandBusKeepsInv(c: Cfg, failed: bool)
    requires Inv(c) && Enabled(c, LandBus(failed))
    ensures Inv(Next(c, LandBus(failed)))
  {
    hide Valid;
    if failed { DropBusKeepsValid(c.s); } else { TakeBusKeepsValid(c.s); }
  }

  lemma LandDevKeepsInv(c: Cfg, failed: bool)
    requires Inv(c) && Enabled(c, LandDev(failed))
    ensures Inv(Next(c, LandDev(failed)))
  {
    hide Valid;
    if failed { DropDevKeepsValid(c.s); } else { TakeDevKeepsValid(c.s); }
  }

  lemma ControlKeepsInv(c: Cfg, e: Event)
    requires Inv(c) && Enabled(c, e) && (e.Raise? || e.Begin? || e.BusesDone? || e.DevicesDone?)
    ensures Inv(Next(c, e))
  {
    hide Valid, MayHost, Flying, BusReady, DevReady;
    if e.Raise? { RaisedLevelKeepsValid(c.s, e.level); }
  }

  lemma StepKeepsInv(c: Cfg, e: Event)
    requires Inv(c) && Enabled(c, e)
    ensures Inv(Next(c, e))
  {
    hide Inv, Enabled, Next;
    match e
    case RegDev(_, _, _) => RegisterKeepsInv(c, e);
    case RegBus(_, _) => RegisterKeepsInv(c, e);
    case PopBus => PopKeepsInv(c, e);
    case PopDev => PopKeepsInv(c, e);
    case LandBus(failed) => LandBusKeepsInv(c, failed);
    case LandDev(failed) => LandDevKeepsInv(c, failed);
    case _ => ControlKeepsInv(c, e);
  }

  // ---------------------------------------------------------------- the steps one by one

  lemma DoesRegDev(c: Cfg, id: nat, parent: Option<nat>, skip: bool)
    requires Inv(c) && MayRegister(c, id) && MayHost(c.s, parent) && (parent.None? ==> !skip)
    ensures Shaped(c.s) && Enabled(c, RegDev(id, parent, skip)) && Inv(Next(c, RegDev(id, parent, skip)))
    ensures Next(c, RegDev(id, parent, skip))
         == c.(s := AddDev(c.s, id, parent, skip), late := c.late || (IsLate(c) && !skip))
  {
    hide Valid;
    RegisterKeepsInv(c, RegDev(id, parent, skip));
  }

  lemma DoesRegBus(c: Cfg, id: nat, bridge: nat)
    requires Inv(c) && MayRegister(c, id) && bridge in c.s.dev.objs
    ensures Shaped(c.s) && Enabled(c, RegBus(id, bridge)) && Inv(Next(c, RegBus(id, bridge)))
    ensures Next(c, RegBus(id, bridge)) == c.(s := AddBus(c.s, id, bridge), late := c.late || IsLate(c))
  {
    hide Valid;
    RegisterKeepsInv(c, RegBus(id, bridge));
  }

  lemma DoesPopBus(c: Cfg)
    requires Inv(c) && c.at.Buses? && Idle(c.s) && Shaped(c.s) && c.lv < c.s.level && c.s.bus.active[c.lv] != []
    ensures Enabled(c, PopBus) && Inv(Next(c, PopBus)) && Next(c, PopBus) == c.(s := c.s.(bus := Pop(c.s.bus, c.lv)))
  {
    hide Inv, Valid, MayHost, Flying;
    PopKeepsInv(c, PopBus);
  }

  lemma DoesPopDev(c: Cfg)
    requires Inv(c) && c.at.Devices? && Idle(c.s) && Shaped(c.s) && c.lv < c.s.level && c.s.dev.active[c.lv] != []
    ensures Enabled(c, PopDev) && Inv(Next(c, PopDev)) && Next(c, PopDev) == c.(s := c.s.(dev := Pop(c.s.dev, c.lv)))
  {
    hide Inv, Valid, MayHost, Flying;
    PopKeepsInv(c, PopDev);
  }

  lemma DoesLandBus(c: Cfg, failed: bool)
    requires Inv(c) && c.at.Buses? && c.s.bus.flight.Some? && (BridgeFailed(c.s) ==> failed)
    ensures Flying(c.s.bus) && c.s.bus.objs[c.s.bus.flight.value].level < LEVEL_MAX
    ensures Enabled(c, LandBus(failed)) && Inv(Next(c, LandBus(failed)))
    ensures Next(c, LandBus(failed)) == c.(s := c.s.(bus := if failed then Drop(c.s.bus) else Take(c.s.bus)))
  {
    hide Valid;
    FlightFacts(c.s);
    LandBusKeepsInv(c, failed);
  }

  lemma DoesLandDev(c: Cfg, failed: bool)
    requires Inv(c) && c.at.Devices? && c.s.dev.flight.Some? && (ParentFailed(c.s) ==> failed)
    ensures Flying(c.s.dev) && c.s.dev.objs[c.s.dev.flight.value].level < LEVEL_MAX
    ensures Enabled(c, LandDev(failed)) && Inv(Next(c, LandDev(failed)))
    ensures Next(c, LandDev(failed))
         == c.(s := c.s.(dev := if failed then Drop(c.s.dev) else Take(c.s.dev)), any := true, late := false)
  {
    hide Valid;
    FlightFacts(c.s);
    LandDevKeepsInv(c, failed);
  }

  lemma DoesBusesDone(c: Cfg)
    requires Inv(c) && c.at.Buses? && Idle(c.s) && Shaped(c.s) && c.lv < c.s.level && c.s.bus.active[c.lv] == []
    ensures Enabled(c, BusesDone) && Inv(Next(c, BusesDone)) && Next(c, BusesDone) == c.(at := Devices, any := false)
  {
    hide Inv, Valid, MayHost, Flying;
    ControlKeepsInv(c, BusesDone);
  }

  lemma DoesDevicesDone(c: Cfg)
    requires Inv(c) && c.at.Devices? && Idle(c.s) && Shaped(c.s) && c.lv < c.s.level && c.s.dev.active[c.lv] == []
    ensures Enabled(c, DevicesDone) && Inv(Next(c, DevicesDone))
    ensures Next(c, DevicesDone) ==
      if c.any then c.(at := Buses, lv := 0, any := false)
      else if c.lv + 1 < c.s.level then c.(at := Buses, lv := c.lv + 1)
      else c.(at := Rest)
  {
    hide Inv, Valid, MayHost, Flying;
    ControlKeepsInv(c, DevicesDone);
  }

  /** The invariant holds in every reachable configuration. */
  lemma {:induction false} RunsKeepInv(es: seq<Event>)
    requires Replay(es).Some?
    ensures Inv(Replay(es).value)
  {
    StartIsValid();
    FlightFacts(START);
    RunKeepsInv(INITIAL, es);
  }

  lemma {:induction false} RunKeepsInv(c: Cfg, es: seq<Event>)
    requires Inv(c) && ReplayFrom(c, es).Some?
    ensures Inv(ReplayFrom(c, es).value)
  {
    hide Inv, Enabled, Next;
    if es != [] {
      RunKeepsInv(c, es[..|es| - 1]);
      StepKeepsInv(ReplayFrom(c, es[..|es| - 1]).value, es[|es| - 1]);
    }
  }

  // ---------------------------------------------------------------- orderly registrations

  /** Inside the invariant, with no device ahead of its bus or on one that was never initialised. */
  ghost predicate InStep(c: Cfg) { Inv(c) && Strict(c.s) }

  lemma InStepFacts(c: Cfg)
    requires InStep(c)
    ensures Typed(c.s) && Strict(c.s)
    ensures c.at.Devices? ==> c.s.bus.flight.None? && (c.s.dev.flight.Some? ==> DevReady(c.s, c.lv + 1))
  {
    hide DevReady;
  }

  lemma RegistersInStep(c: Cfg, e: Event)
    requires InStep(c) && Enabled(c, e) && (e.RegBus? || (e.RegDev? && Orderly(c.s, e.parent))) && Typed(Next(c, e).s)
    ensures Strict(Next(c, e).s)
  {
    hide InStep, Typed, Strict;
    InStepFacts(c);
    if e.RegDev? { AddDevKeepsStrict(c.s, e.id, e.parent, e.skip); } else { AddBusKeepsStrict(c.s, e.id, e.bridge); }
  }

  lemma PopsInStep(c: Cfg, e: Event)
    requires InStep(c) && Enabled(c, e) && (e.PopBus? || e.PopDev?) && Typed(Next(c, e).s)
    ensures Strict(Next(c, e).s)
  {
    hide InStep, Typed, Strict;
    InStepFacts(c);
    if e.PopBus? { PopBusKeepsStrict(c.s, c.lv); } else { PopDevKeepsStrict(c.s, c.lv); }
  }

  lemma BusLandsInStep(c: Cfg, failed: bool)
    requires InStep(c) && Enabled(c, LandBus(failed)) && Typed(Next(c, LandBus(failed)).s)
    ensures Strict(Next(c, LandBus(failed)).s)
  {
    hide InStep, Typed, Strict;
    InStepFacts(c);
    LandBusKeepsStrict(c.s);
  }

  lemma DevLandsInStep(c: Cfg, failed: bool)
    requires InStep(c) && Enabled(c, LandDev(failed)) && Typed(Next(c, LandDev(failed)).s)
    ensures Strict(Next(c, LandDev(failed)).s)
  {
    hide InStep, Typed, Strict;
    InStepFacts(c);
    if failed {
      DropDevKeepsStrict(c.s);
    } else {
      BusIsAhead(c.s, c.lv + 1);
      TakeDevKeepsStrict(c.s);
    }
  }

  lemma BusIsAhead(s: Sys, target: nat)
    requires Typed(s) && Strict(s) && s.bus.flight.None? && DevReady(s, target) && !ParentFailed(s)
    ensures s.parent[s.dev.flight.value].Some? ==>
      target - 1 < s.bus.objs[s.parent[s.dev.flight.value].value].level
  {
  }

  lemma StepsInStep(c: Cfg, e: Event)
    requires InStep(c) && Enabled(c, e) && (e.RegDev? ==> Orderly(c.s, e.parent))
    ensures InStep(Next(c, e))
  {
    StepKeepsInv(c, e);
    IsTyped(Next(c, e).s);
    hide Inv, Valid, Typed, Strict;
    match e
    case RegDev(_, _, _) => RegistersInStep(c, e);
    case RegBus(_, _) => RegistersInStep(c, e);
    case PopBus => PopsInStep(c, e);
    case PopDev => PopsInStep(c, e);
    case LandBus(failed) => BusLandsInStep(c, failed);
    case LandDev(failed) => DevLandsInStep(c, failed);
    case _ => ControlInStep(c, e);
  }

  lemma ControlInStep(c: Cfg, e: Event)
    requires InStep(c) && Enabled(c, e) && (e.Raise? || e.Begin? || e.BusesDone? || e.DevicesDone?)
    requires Typed(Next(c, e).s)
    ensures Strict(Next(c, e).s)
  {
    hide Inv, Valid, Typed;
  }

  /** Every device of the run was registered on a bus that had been initialised or was being so. */
  predicate OrderlyRun(c: Cfg, es: seq<Event>) {
    forall i :: 0 <= i < |es| && es[i].RegDev? && ReplayFrom(c, es[..i]).Some? ==>
      Orderly(ReplayFrom(c, es[..i]).value.s, es[i].parent)
  }

  lemma {:induction false} RunsInStep(c: Cfg, es: seq<Event>)
    requires InStep(c) && OrderlyRun(c, es) && ReplayFrom(c, es).Some?
    ensures InStep(ReplayFrom(c, es).value)
  {
    hide InStep, Enabled, Next, Orderly;
    if es != [] {
      var fs := es[..|es| - 1];
      forall i | 0 <= i < |fs| ensures es[..i] == fs[..i] {}
      RunsInStep(c, fs);
      StepsInStep(ReplayFrom(c, fs).value, es[|es| - 1]);
    }
  }

  /** In every orderly run no device is left at the manager's level without its bus there too. */
  lemma OrderlyDevicesHaveTheirBus(es: seq<Event>, c: Cfg, d: nat)
    requires Replay(es) == Some(c) && OrderlyRun(INITIAL, es) && Shaped(c.s) && Quiescent(c.s)
    requires d in c.s.dev.active[c.s.level] && d in c.s.parent && c.s.parent[d].Some?
    ensures c.s.parent[d].value in c.s.bus.active[c.s.level]
  {
    hide ReplayFrom, OrderlyRun;
    StartIsValid();
    FlightFacts(START);
    RunsInStep(INITIAL, es);
    DevicesHaveTheirBus(c.s, d);
  }

  // ---------------------------------------------------------------- how an update ends

  /**
   Whatever the handlers registered: an update that ends leaves nothing below the manager's level exactly when no
   late registration was left without a device handled after it. Otherwise it is list 0 that is not empty.
   */
  lemma EndsQuiescentUnlessLate(c: Cfg)
    requires Inv(c) && Enabled(c, DevicesDone) && Next(c, DevicesDone).at.Rest?
    ensures Quiescent(c.s) <==> !c.late
    ensures c.late <==> !ZeroEmpty(c.s)
  {
    hide Valid, Fresh;
  }

  /** Event `i` of a run registers an active object while the bus loop is above level 0. */
  predicate RegistersLate(c: Cfg, es: seq<Event>, i: nat) {
    && i < |es| && (es[i].RegBus? || (es[i].RegDev? && !es[i].skip))
    && ReplayFrom(c, es[..i]).Some? && IsLate(ReplayFrom(c, es[..i]).value)
  }

  /** Some such registration has no device handled after it. */
  ghost predicate LeavesLate(c: Cfg, es: seq<Event>) {
    exists i: nat :: RegistersLate(c, es, i) && forall j :: i < j < |es| ==> !es[j].LandDev?
  }

  lemma LeavesLateStep(c: Cfg, es: seq<Event>)
    requires es != []
    ensures var fs, e := es[..|es| - 1], es[|es| - 1];
      LeavesLate(c, es) <==> RegistersLate(c, es, |es| - 1) || (!e.LandDev? && LeavesLate(c, fs))
  {
    hide ReplayFrom;
    var fs, n := es[..|es| - 1], |es| - 1;
    forall i: nat | i < n ensures RegistersLate(c, es, i) <==> RegistersLate(c, fs, i) {
      assert es[..i] == fs[..i];
    }
    if LeavesLate(c, es) {
      var i: nat :| RegistersLate(c, es, i) && forall j :: i < j < |es| ==> !es[j].LandDev?;
      if i < n {
        assert RegistersLate(c, fs, i) && !es[n].LandDev?;
        assert forall j :: i < j < n ==> !fs[j].LandDev?;
      }
    }
    if LeavesLate(c, fs) && !es[n].LandDev? {
      var i: nat :| RegistersLate(c, fs, i) && forall j :: i < j < |fs| ==> !fs[j].LandDev?;
      assert RegistersLate(c, es, i) && forall j :: i < j < |es| ==> !es[j].LandDev?;
    }
  }

  /** The flag is what it is meant to be. */
  lemma {:induction false} LateMeans(c: Cfg, es: seq<Event>)
    requires !c.late && ReplayFrom(c, es).Some? && forall i :: 0 <= i < |es| ==> !es[i].Begin?
    ensures ReplayFrom(c, es).value.late <==> LeavesLate(c, es)
  {
    if es != [] {
      var fs, e := es[..|es| - 1], es[|es| - 1];
      LateMeans(c, fs);
      LeavesLateStep(c, es);
      hide LeavesLate;
    }
  }

  /**
   The update from its first event to its last: nothing is left below the manager's level exactly when every active
   object registered while the bus loop was above level 0 was followed by a device being handled.
   */
  lemma UpdateEndsQuiescentExactly(c: Cfg, es: seq<Event>, d: Cfg)
    requires Inv(c) && Enabled(c, Begin) && es != [] && es[|es| - 1].DevicesDone?
    requires ReplayFrom(Next(c, Begin), es) == Some(d) && d.at.Rest? && forall i :: 0 <= i < |es| ==> !es[i].Begin?
    ensures Shaped(d.s) && (Quiescent(d.s) <==> !LeavesLate(Next(c, Begin), es))
  {
    hide Inv, Quiescent, LeavesLate;
    var start, fs := Next(c, Begin), es[..|es| - 1];
    ControlKeepsInv(c, Begin);
    RunKeepsInv(start, fs);
    LateMeans(start, es);
    LastEvent(ReplayFrom(start, fs).value, d);
  }

  lemma LastEvent(c: Cfg, d: Cfg)
    requires Inv(c) && Enabled(c, DevicesDone) && d == Next(c, DevicesDone) && d.at.Rest?
    ensures Shaped(d.s) && (Quiescent(d.s) <==> !d.late)
  {
    hide Inv, Quiescent;
    EndsQuiescentUnlessLate(c);
  }

  lemma RaisedLevelKeepsValid(s: Sys, newLevel: nat)
    requires Valid(s) && s.level <= newLevel <= LEVEL_MAX
    ensures Valid(s.(level := newLevel))
  {
    hide Good;
  }
}
