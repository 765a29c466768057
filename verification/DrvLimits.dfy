/** Three things the level-by-level scheme does not do, each shown on runs of its own steps. */
module DrvLimits {
  import opened Bytes
  import opened DrvSide
  import opened DrvSystem
  import opened DrvRun

  ghost predicate RunTo(c: Cfg, es: seq<Event>, d: Cfg) { ReplayFrom(c, es) == Some(d) }

  lemma Then(c: Cfg, es: seq<Event>, d: Cfg, e: Event)
    requires RunTo(c, es, d) && Enabled(d, e)
    ensures RunTo(c, es + [e], Next(d, e))
  {
    hide Enabled, Next;
    ReplaySnoc(c, es, e, d);
  }

  /** The events of one update: what starts it is not among them. */
  predicate Inside(es: seq<Event>) { forall i :: 0 <= i < |es| ==> !es[i].Begin? && !es[i].Raise? }

  // ---------------------------------------------------------------- late registrations

  /** The bus loop is at `lv`, below the manager's level only bus `b` is left, on that list, and its bridge is well. */
  ghost predicate OnlyBus(c: Cfg, b: nat) {
    && Inv(c) && c.at.Buses? && Idle(c.s) && Shaped(c.s) && c.lv < c.s.level
    && (forall k :: 0 <= k < c.s.level ==>
          c.s.bus.active[k] == (if k == c.lv then [b] else []) && c.s.dev.active[k] == [])
    && b in c.s.bridge && c.s.bridge[b] in c.s.dev.objs && !c.s.dev.objs[c.s.bridge[b]].failed
  }

  /** Taking the bus up, and what it then looks like. */
  lemma TakesUp(c: Cfg, b: nat) returns (d: Cfg)
    requires OnlyBus(c, b)
    ensures RunTo(c, [PopBus], d) && Inv(d)
    ensures d == c.(s := c.s.(bus := Pop(c.s.bus, c.lv))) && d.s.bus.flight == Some(b)
    ensures d.s.bus.active == c.s.bus.active[c.lv := []] && !BridgeFailed(d.s)
    ensures b in d.s.bus.objs && d.s.bus.objs[b].level == c.lv
  {
    hide Valid;
    assert [b][1..] == [];
    DoesPopBus(c);
    d := Next(c, PopBus);
    assert BusReady(d.s, d.lv + 1);
    assert RunTo(c, [], c);
    Then(c, [], c, PopBus);
    assert [] + [PopBus] == [PopBus];
  }

  /** The bus lands a level higher and the loops of this level end. */
  lemma LandsAndEnds(c: Cfg, es: seq<Event>, d: Cfg, b: nat) returns (e: Cfg)
    requires RunTo(c, es, d) && Inside(es) && Inv(d) && d.at.Buses? && d.s.bus.flight == Some(b) && !BridgeFailed(d.s)
    requires Shaped(d.s) && d.lv < d.s.level && b in d.s.bus.objs && d.s.bus.objs[b].level == d.lv
    requires d.s.bus.active[d.lv] == [] && d.s.dev.active[d.lv] == []
    ensures RunTo(c, es + [LandBus(false), BusesDone, DevicesDone], e) && Inv(e) && Idle(e.s)
    ensures Flying(d.s.bus) && d.s.bus.objs[b].level < LEVEL_MAX
    ensures e.s == d.s.(bus := Take(d.s.bus)) && e.late == d.late
    ensures if d.lv + 1 < d.s.level then e.at.Buses? && e.lv == d.lv + 1 else e.at.Rest?
  {
    hide Inv, Enabled, Next, RunTo;
    InFlight(d);
    DoesLandBus(d, false);
    var d1 := Next(d, LandBus(false));
    Then(c, es, d, LandBus(false));
    DoesBusesDone(d1);
    var d2 := Next(d1, BusesDone);
    Then(c, es + [LandBus(false)], d1, BusesDone);
    DoesDevicesDone(d2);
    e := Next(d2, DevicesDone);
    Then(c, es + [LandBus(false)] + [BusesDone], d2, DevicesDone);
    assert es + [LandBus(false)] + [BusesDone] + [DevicesDone] == es + [LandBus(false), BusesDone, DevicesDone];
  }

  lemma InFlight(d: Cfg)
    requires Inv(d) && d.at.Buses?
    ensures d.s.dev.flight.None?
  {
  }

  lemma Climbs(c: Cfg, b: nat) returns (es: seq<Event>, e: Cfg)
    requires OnlyBus(c, b) && c.lv + 1 < c.s.level
    ensures RunTo(c, es, e) && Inside(es) && OnlyBus(e, b) && e.lv == c.lv + 1 && e.s.level == c.s.level
  {
    hide Inv, RunTo, Enabled, Next;
    var d := TakesUp(c, b);
    e := LandsAndEnds(c, [PopBus], d, b);
    es := [PopBus] + [LandBus(false), BusesDone, DevicesDone];
    assert e.s.bus.active == d.s.bus.active[e.lv := [] + [b]];
    assert [] + [b] == [b];
  }

  lemma {:induction false} FreshId(ids: set<nat>) returns (id: nat)
    ensures id !in ids && forall i :: i in ids ==> i < id
  {
    id := 0;
    if ids != {} {
      var i :| i in ids;
      var j := FreshId(ids - {i});
      id := if i < j then j else i + 1;
      forall k | k in ids ensures k < id { assert k == i || k in ids - {i}; }
    }
  }

  /** In the handler of its last level the bus registers a device on itself. */
  lemma LastHandlerRegisters(c: Cfg, b: nat) returns (es: seq<Event>, e: Cfg)
    requires OnlyBus(c, b) && 1 <= c.lv && c.lv + 1 == c.s.level
    ensures RunTo(c, es, e) && Inside(es) && Inv(e) && e.at.Rest? && e.s.level == c.s.level && e.late
    ensures Shaped(e.s) && e.s.dev.active[0] != []
  {
    hide Inv, RunTo, Enabled, Next;
    var d := TakesUp(c, b);
    var id := FreshId(d.s.bus.objs.Keys + d.s.dev.objs.Keys);
    var ev := RegDev(id, Some(b), false);
    DoesRegDev(d, id, Some(b), false);
    var d1 := Next(d, ev);
    Then(c, [PopBus], d, ev);
    StillReady(d, id, b);
    e := LandsAndEnds(c, [PopBus] + [ev], d1, b);
    es := [PopBus] + [ev] + [LandBus(false), BusesDone, DevicesDone];
  }

  lemma StillReady(d: Cfg, id: nat, b: nat)
    requires Shaped(d.s) && id !in d.s.dev.objs && b in d.s.bus.objs
    ensures var t := AddDev(d.s, id, Some(b), false);
      && Shaped(t) && t.bus == d.s.bus && t.level == d.s.level && t.dev.active[0] != []
      && (forall k :: 1 <= k <= LEVEL_MAX ==> t.dev.active[k] == d.s.dev.active[k])
      && (!BridgeFailed(d.s) ==> !BridgeFailed(t))
  {
  }

  lemma LevelOf(c: Cfg, b: nat)
    requires OnlyBus(c, b)
    ensures c.lv < c.s.level <= LEVEL_MAX
  {
    hide Inv;
  }

  lemma {:induction false} ClimbsToTheEnd(c: Cfg, b: nat) returns (es: seq<Event>, e: Cfg)
    requires OnlyBus(c, b) && 2 <= c.s.level
    ensures RunTo(c, es, e) && Inside(es) && Inv(e) && e.at.Rest? && e.s.level == c.s.level && e.late
    ensures Shaped(e.s) && e.s.dev.active[0] != []
    decreases c.s.level - c.lv
  {
    hide OnlyBus, Inv, Enabled, Next, ReplayFrom;
    LevelOf(c, b);
    if c.lv + 1 == c.s.level {
      es, e := LastHandlerRegisters(c, b);
    } else {
      var fs, d := Climbs(c, b);
      var gs;
      gs, e := ClimbsToTheEnd(d, b);
      ReplayConcat(c, fs, d, gs);
      es := fs + gs;
    }
  }

  /**
   Why bus handlers above init[0] must not register. From any state at rest at level 2 or above, with a device that has
   not failed: a bus is registered behind that device, its last handler registers a device, and the one update that
   follows ends with that device still on list 0.
   */
  lemma LateRegistrationIsMissed(c: Cfg, d: nat) returns (id: nat, es: seq<Event>, e: Cfg)
    requires Inv(c) && c.at.Rest? && Shaped(c.s) && Quiescent(c.s) && 2 <= c.s.level
    requires d in c.s.dev.objs && !c.s.dev.objs[d].failed
    ensures RunTo(c, [RegBus(id, d), Begin] + es, e) && Inside(es)
    ensures Inv(e) && e.at.Rest? && e.s.level == c.s.level && Shaped(e.s) && e.s.dev.active[0] != [] && !Quiescent(e.s)
  {
    hide Inv, Enabled, Next, OnlyBus, ReplayFrom;
    id := FreshId(c.s.bus.objs.Keys + c.s.dev.objs.Keys);
    var c2 := OpensLate(c, d, id);
    es, e := ClimbsToTheEnd(c2, id);
    ReplayConcat(c, [RegBus(id, d), Begin], c2, es);
  }

  lemma OpensLate(c: Cfg, d: nat, id: nat) returns (c2: Cfg)
    requires Inv(c) && c.at.Rest? && Shaped(c.s) && Quiescent(c.s) && 2 <= c.s.level
    requires d in c.s.dev.objs && !c.s.dev.objs[d].failed && id !in c.s.bus.objs && id !in c.s.dev.objs
    ensures RunTo(c, [RegBus(id, d), Begin], c2) && OnlyBus(c2, id) && c2.s.level == c.s.level
  {
    hide Inv, RunTo;
    DoesRegBus(c, id, d);
    var c1 := Next(c, RegBus(id, d));
    Nothing(c);
    Then(c, [], c, RegBus(id, d));
    ControlKeepsInv(c1, Begin);
    c2 := Next(c1, Begin);
    Then(c, [] + [RegBus(id, d)], c1, Begin);
    assert [] + [RegBus(id, d)] + [Begin] == [RegBus(id, d), Begin];
    assert c2.s.bus.active == c.s.bus.active[0 := [] + [id]];
    assert [] + [id] == [id];
  }

  lemma Nothing(c: Cfg)
    ensures RunTo(c, [], c)
  {
  }

  lemma EmptyRun()
    ensures RunTo(INITIAL, [], INITIAL) && Inv(INITIAL)
  {
    RunsKeepInv([]);
  }

  // ---------------------------------------------------------------- failures in the last step

  /** Bus `b` is at the manager's level although its bridge has failed. */
  predicate Outlives(s: Sys, b: nat) {
    && Shaped(s) && b in s.bus.active[s.level]
    && b in s.bridge && s.bridge[b] in s.dev.objs && s.dev.objs[s.bridge[b]].failed
  }

  /** Nothing but a raised level ever changes that. */
  lemma StillOutlives(c: Cfg, e: Event, b: nat)
    requires Inv(c) && Enabled(c, e) && !e.Raise? && Outlives(c.s, b)
    ensures Outlives(Next(c, e).s, b)
  {
    hide Inv;
    InFlightFacts(c);
    match e
    case RegDev(id, parent, skip) => KeptByRegDev(c.s, id, parent, skip, b);
    case RegBus(id, bridge) => KeptByRegBus(c.s, id, bridge, b);
    case _ =>
  }

  lemma KeptByRegDev(s: Sys, id: nat, parent: Option<nat>, skip: bool, b: nat)
    requires Outlives(s, b) && id !in s.dev.objs
    ensures Outlives(AddDev(s, id, parent, skip), b)
  {
  }

  lemma KeptByRegBus(s: Sys, id: nat, bridge: nat, b: nat)
    requires Outlives(s, b) && id !in s.bridge
    ensures Outlives(AddBus(s, id, bridge), b)
  {
  }

  lemma InFlightFacts(c: Cfg)
    requires Inv(c)
    ensures Shaped(c.s) && (forall b :: b in c.s.bridge ==> b in c.s.bus.objs)
    ensures c.s.dev.flight.Some? ==> c.s.dev.flight.value in c.s.dev.objs && !c.s.dev.objs[c.s.dev.flight.value].failed
    ensures c.at.Buses? && c.s.bus.flight.Some? ==> BusReady(c.s, c.lv + 1)
  {
    hide Valid;
    FlightFacts(c.s);
  }

  lemma {:induction false} OutlivesToTheEnd(c: Cfg, es: seq<Event>, b: nat)
    requires Inv(c) && Outlives(c.s, b) && ReplayFrom(c, es).Some? && forall i :: 0 <= i < |es| ==> !es[i].Raise?
    ensures Outlives(ReplayFrom(c, es).value.s, b)
  {
    hide Inv, Enabled, Next, Outlives;
    if es != [] {
      var fs := es[..|es| - 1];
      OutlivesToTheEnd(c, fs, b);
      RunKeepsInv(c, fs);
      StillOutlives(ReplayFrom(c, fs).value, es[|es| - 1], b);
    }
  }

  /**
   A bridge that refuses in its last step while its bus is at the manager's level: whatever happens afterwards, until
   the level is raised the bus stays active behind a failed bridge.
   */
  lemma LastStepFailureStays(c: Cfg, b: nat, es: seq<Event>)
    requires Inv(c) && c.at.Devices? && Shaped(c.s) && b in c.s.bus.active[c.s.level]
    requires b in c.s.bridge && c.s.dev.flight == Some(c.s.bridge[b])
    requires Enabled(c, LandDev(true)) && ReplayFrom(Next(c, LandDev(true)), es).Some?
    requires forall i :: 0 <= i < |es| ==> !es[i].Raise?
    ensures Outlives(ReplayFrom(Next(c, LandDev(true)), es).value.s, b)
  {
    hide Inv, ReplayFrom;
    LandDevKeepsInv(c, true);
    LeftBehind(c, b);
    OutlivesToTheEnd(Next(c, LandDev(true)), es, b);
  }

  lemma LeftBehind(c: Cfg, b: nat)
    requires Enabled(c, LandDev(true)) && b in c.s.bus.active[c.s.level]
    requires b in c.s.bridge && c.s.dev.flight == Some(c.s.bridge[b])
    ensures Outlives(Next(c, LandDev(true)).s, b)
  {
  }

  // ---------------------------------------------------------------- such a failure happens

  /** The run `es` leads to `c`: between two objects, at this point of the update, with these lists. */
  ghost predicate Looks(es: seq<Event>, c: Cfg, at: At, lv: nat, level: nat, bs: seq<seq<nat>>, ds: seq<seq<nat>>) {
    && RunTo(INITIAL, es, c) && Inv(c) && Shaped(c.s) && Idle(c.s) && (!at.Rest? ==> lv < level)
    && c.at == at && (at.Rest? || c.lv == lv) && c.s.level == level && c.s.bus.active == bs && c.s.dev.active == ds
  }

  /** A level with nothing on its lists. */
  lemma PassesBy(es: seq<Event>, c: Cfg, lv: nat, level: nat, bs: seq<seq<nat>>, ds: seq<seq<nat>>)
    returns (fs: seq<Event>, d: Cfg)
    requires Looks(es, c, Buses, lv, level, bs, ds) && bs[lv] == [] && ds[lv] == []
    ensures d.s == c.s && Looks(fs, d, if lv + 1 < level then Buses else Rest, lv + 1, level, bs, ds)
  {
    hide Inv, Enabled, Next, RunTo;
    DoesBusesDone(c);
    Then(INITIAL, es, c, BusesDone);
    var c1 := Next(c, BusesDone);
    DoesDevicesDone(c1);
    Then(INITIAL, es + [BusesDone], c1, DevicesDone);
    fs, d := es + [BusesDone] + [DevicesDone], Next(c1, DevicesDone);
  }

  /** The only bus of a level goes up, and the bus loop ends. */
  lemma BusGoesUp(es: seq<Event>, c: Cfg, lv: nat, level: nat, bs: seq<seq<nat>>, ds: seq<seq<nat>>, b: nat)
    returns (fs: seq<Event>, d: Cfg)
    requires Looks(es, c, Buses, lv, level, bs, ds) && bs[lv] == [b] && bs[lv + 1] == []
    requires b in c.s.bridge && c.s.bridge[b] in c.s.dev.objs && !c.s.dev.objs[c.s.bridge[b]].failed
    ensures Looks(fs, d, Devices, lv, level, bs[lv := []][lv + 1 := [b]], ds) && !d.any
    ensures d.s == c.s.(bus := d.s.bus) && b in d.s.bus.objs
  {
    hide Inv, Enabled, Next, RunTo;
    assert [b][1..] == [] && [] + [b] == [b];
    DoesPopBus(c);
    Then(INITIAL, es, c, PopBus);
    var c1 := Next(c, PopBus);
    BusReadyInFlight(c1);
    DoesLandBus(c1, false);
    Then(INITIAL, es + [PopBus], c1, LandBus(false));
    var c2 := Next(c1, LandBus(false));
    DoesBusesDone(c2);
    Then(INITIAL, es + [PopBus] + [LandBus(false)], c2, BusesDone);
    fs, d := es + [PopBus] + [LandBus(false)] + [BusesDone], Next(c2, BusesDone);
  }

  lemma BusReadyInFlight(c: Cfg)
    requires Inv(c) && c.at.Buses? && c.s.bus.flight.Some?
    ensures BusReady(c.s, c.lv + 1)
  {
  }

  lemma DevReadyInFlight(c: Cfg)
    requires Inv(c) && c.at.Devices? && c.s.dev.flight.Some?
    ensures DevReady(c.s, c.lv + 1)
  {
  }

  /** The only device of a level, which has no parent, is taken up. */
  lemma DevTakenUp(es: seq<Event>, c: Cfg, lv: nat, level: nat, bs: seq<seq<nat>>, ds: seq<seq<nat>>, d: nat)
    returns (c1: Cfg)
    requires Looks(es, c, Devices, lv, level, bs, ds) && ds[lv] == [d]
    requires d in c.s.parent && c.s.parent[d] == None
    ensures RunTo(INITIAL, es + [PopDev], c1) && Inv(c1) && DevReady(c1.s, lv + 1) && !ParentFailed(c1.s)
    ensures c1.s.dev.active == ds[lv := []] && c1.s.dev.flight == Some(d) && c1.s.dev.objs == c.s.dev.objs
    ensures c1 == c.(s := c.s.(dev := c1.s.dev)) && Shaped(c1.s)
  {
    hide Inv, Enabled, Next, RunTo;
    assert [d][1..] == [];
    DoesPopDev(c);
    Then(INITIAL, es, c, PopDev);
    c1 := Next(c, PopDev);
    DevReadyInFlight(c1);
  }

  /** It lands, and the update starts over. */
  lemma DevLands(es: seq<Event>, c: Cfg, failed: bool, lv: nat, level: nat,
                 bs: seq<seq<nat>>, ds: seq<seq<nat>>, d: nat)
    returns (fs: seq<Event>, e: Cfg)
    requires RunTo(INITIAL, es, c) && Inv(c) && DevReady(c.s, lv + 1) && !ParentFailed(c.s) && Shaped(c.s)
    requires c.at.Devices? && c.lv == lv < c.s.level == level && c.s.bus.active == bs && c.s.bus.flight.None?
    requires c.s.dev.active == ds && ds[lv] == [] && ds[lv + 1] == [] && c.s.dev.flight == Some(d)
    ensures Looks(fs, e, Buses, 0, level, bs, if failed then ds else ds[lv + 1 := [d]])
    ensures e.s == c.s.(dev := e.s.dev) && d in e.s.dev.objs
    ensures e.s.dev.objs[d].failed <==> failed
  {
    hide Inv, Enabled, Next, RunTo;
    assert [] + [d] == [d];
    DoesLandDev(c, failed);
    Then(INITIAL, es, c, LandDev(failed));
    var c1 := Next(c, LandDev(failed));
    DoesDevicesDone(c1);
    Then(INITIAL, es + [LandDev(failed)], c1, DevicesDone);
    fs, e := es + [LandDev(failed)] + [DevicesDone], Next(c1, DevicesDone);
  }

  const BUS0: seq<seq<nat>> := [[1], [], [], [], []]
  const LIST0: seq<seq<nat>> := [[0], [], [], [], []]
  const LIST1: seq<seq<nat>> := [[], [0], [], [], []]

  /** Device 0 is registered, and the update to the first level asked for begins. */
  lemma Registers(level: nat) returns (es: seq<Event>, c: Cfg)
    requires 1 <= level <= LEVEL_MAX
    ensures Looks(es, c, Devices, 0, level, FIVE_EMPTY, LIST0) && !c.any
    ensures c.s.parent == map[0 := None] && c.s.dev.objs.Keys == {0} && c.s.bus.objs == map[] && c.s.bridge == map[]
  {
    hide Inv, RunTo;
    var e1, e2 := RegDev(0, None, false), Raise(level);
    EmptyRun();
    DoesRegDev(INITIAL, 0, None, false);
    var c1 := Next(INITIAL, e1);
    Then(INITIAL, [], INITIAL, e1);
    assert [] + [0] == [0];
    assert c1.s.dev.active == LIST0;
    ControlKeepsInv(c1, e2);
    var c2 := Next(c1, e2);
    Then(INITIAL, [] + [e1], c1, e2);
    ControlKeepsInv(c2, Begin);
    var c3 := Next(c2, Begin);
    Then(INITIAL, [] + [e1] + [e2], c2, Begin);
    DoesBusesDone(c3);
    es, c := [] + [e1] + [e2] + [Begin] + [BusesDone], Next(c3, BusesDone);
    Then(INITIAL, [] + [e1] + [e2] + [Begin], c3, BusesDone);
  }

  /** Its handler registers bus 1 behind it. */
  lemma OpensBus() returns (es: seq<Event>, c: Cfg)
    ensures Looks(es, c, Buses, 0, 1, BUS0, LIST1)
    ensures c.s.parent == map[0 := None] && c.s.bridge == map[1 := 0] && 0 in c.s.dev.objs && !c.s.dev.objs[0].failed
  {
    hide Inv, RunTo, Enabled, Next;
    var fs, d := Registers(1);
    var d1 := DevTakenUp(fs, d, 0, 1, FIVE_EMPTY, LIST0, 0);
    DoesRegBus(d1, 1, 0);
    Then(INITIAL, fs + [PopDev], d1, RegBus(1, 0));
    var d2 := Next(d1, RegBus(1, 0));
    assert [] + [1] == [1];
    assert d2.s.bus.active == BUS0 && d2.s.dev.active == FIVE_EMPTY;
    es, c := DevLands(fs + [PopDev] + [RegBus(1, 0)], d2, false, 0, 1, BUS0, FIVE_EMPTY, 0);
    assert FIVE_EMPTY[1 := [0]] == LIST1;
  }

  /** The bus follows, everything is at rest at level 1, and the update to level 2 begins. */
  lemma ReachesLevelOne() returns (es: seq<Event>, c: Cfg)
    ensures Looks(es, c, Buses, 0, 2, [[], [1], [], [], []], LIST1)
    ensures c.s.parent == map[0 := None] && c.s.bridge == map[1 := 0] && 0 in c.s.dev.objs && !c.s.dev.objs[0].failed
  {
    hide Inv, RunTo;
    var fs, d := OpensBus();
    assert BUS0[0 := []][1 := [1]] == [[], [1], [], [], []];
    fs, d := BusGoesUp(fs, d, 0, 1, BUS0, LIST1, 1);
    DoesDevicesDone(d);
    Then(INITIAL, fs, d, DevicesDone);
    var d1 := Next(d, DevicesDone);
    ControlKeepsInv(d1, Raise(2));
    Then(INITIAL, fs + [DevicesDone], d1, Raise(2));
    var d2 := Next(d1, Raise(2));
    ControlKeepsInv(d2, Begin);
    Then(INITIAL, fs + [DevicesDone] + [Raise(2)], d2, Begin);
    es, c := fs + [DevicesDone] + [Raise(2)] + [Begin], Next(d2, Begin);
  }

  /** The bus reaches level 2, its bridge refuses there, and the update ends with the bus still active. */
  lemma LastStepFailureIsReached() returns (es: seq<Event>, c: Cfg)
    ensures Replay(es) == Some(c) && c.at.Rest? && Shaped(c.s) && Quiescent(c.s) && Outlives(c.s, 1)
  {
    hide Inv, Enabled, Next, ReplayFrom;
    es, c := ReachesLevelOne();
    var bs, top := [[], [1], [], [], []], [[], [], [1], [], []];
    assert bs[1 := []][2 := [1]] == top;
    assert LIST1[1 := []] == FIVE_EMPTY;
    es, c := PassesBy(es, c, 0, 2, bs, LIST1);
    es, c := BusGoesUp(es, c, 1, 2, bs, LIST1, 1);
    var d := DevTakenUp(es, c, 1, 2, top, LIST1, 0);
    es, c := DevLands(es + [PopDev], d, true, 1, 2, top, FIVE_EMPTY, 0);
    es, c := PassesBy(es, c, 0, 2, top, FIVE_EMPTY);
    es, c := PassesBy(es, c, 1, 2, top, FIVE_EMPTY);
  }

  // ---------------------------------------------------------------- a missed registration happens

  const LIST2: seq<seq<nat>> := [[], [], [0], [], []]

  /** Device 0 goes up to level 2, where everything is at rest. */
  lemma RestsAtTwo() returns (es: seq<Event>, c: Cfg)
    ensures Looks(es, c, Rest, 0, 2, FIVE_EMPTY, LIST2) && 0 in c.s.dev.objs && !c.s.dev.objs[0].failed
  {
    hide Inv, RunTo, Enabled, Next;
    es, c := Registers(2);
    assert LIST0[0 := []] == FIVE_EMPTY && FIVE_EMPTY[1 := [0]] == LIST1;
    assert LIST1[1 := []] == FIVE_EMPTY && FIVE_EMPTY[2 := [0]] == LIST2;
    var d := DevTakenUp(es, c, 0, 2, FIVE_EMPTY, LIST0, 0);
    es, c := DevLands(es + [PopDev], d, false, 0, 2, FIVE_EMPTY, FIVE_EMPTY, 0);
    es, c := PassesBy(es, c, 0, 2, FIVE_EMPTY, LIST1);
    DoesBusesDone(c);
    Then(INITIAL, es, c, BusesDone);
    es, c := es + [BusesDone], Next(c, BusesDone);
    d := DevTakenUp(es, c, 1, 2, FIVE_EMPTY, LIST1, 0);
    es, c := DevLands(es + [PopDev], d, false, 1, 2, FIVE_EMPTY, FIVE_EMPTY, 0);
    es, c := PassesBy(es, c, 0, 2, FIVE_EMPTY, LIST2);
    es, c := PassesBy(es, c, 1, 2, FIVE_EMPTY, LIST2);
  }

  /** And it does happen: such a state is reached from the empty manager. */
  lemma LateRegistrationIsReached() returns (es: seq<Event>, e: Cfg)
    ensures Replay(es) == Some(e) && e.at.Rest? && Shaped(e.s) && e.s.dev.active[0] != [] && !Quiescent(e.s)
  {
    hide Inv, Enabled, Next, ReplayFrom;
    var start, c := RestsAtTwo();
    var id, fs;
    id, fs, e := LateRegistrationIsMissed(c, 0);
    es := start + ([RegBus(id, 0), Begin] + fs);
    ReplayConcat(INITIAL, start, c, [RegBus(id, 0), Begin] + fs);
  }

  // ---------------------------------------------------------------- a device outlives its bus

  /** The handler of device 0 registers bus 1 behind it and at once device 2 on that bus, and succeeds. */
  lemma RegistersEarly() returns (es: seq<Event>, c: Cfg)
    ensures RunTo(INITIAL, es, c) && Inv(c) && Shaped(c.s) && c.at.Devices? && c.lv == 0 && Idle(c.s) && c.s.level == 1
    ensures c.s.bus.active == BUS0 && c.s.dev.active == [[2], [0], [], [], []]
    ensures 2 in c.s.parent && c.s.parent[2] == Some(1) && 1 in c.s.bus.objs && !c.s.bus.objs[1].failed && c.any
  {
    hide Inv, RunTo, Enabled, Next;
    var fs, d := Registers(1);
    var d1 := DevTakenUp(fs, d, 0, 1, FIVE_EMPTY, LIST0, 0);
    DoesRegBus(d1, 1, 0);
    Then(INITIAL, fs + [PopDev], d1, RegBus(1, 0));
    var d2 := Next(d1, RegBus(1, 0));
    assert [] + [1] == [1] && [] + [2] == [2] && [] + [0] == [0];
    DoesRegDev(d2, 2, Some(1), false);
    Then(INITIAL, fs + [PopDev] + [RegBus(1, 0)], d2, RegDev(2, Some(1), false));
    var d3 := Next(d2, RegDev(2, Some(1), false));
    assert d3.s.bus.active == BUS0 && d3.s.dev.active == [[2], [], [], [], []];
    DoesLandDev(d3, false);
    es, c := fs + [PopDev] + [RegBus(1, 0)] + [RegDev(2, Some(1), false)] + [LandDev(false)], Next(d3, LandDev(false));
    Then(INITIAL, fs + [PopDev] + [RegBus(1, 0)] + [RegDev(2, Some(1), false)], d3, LandDev(false));
  }

  /** Device 2 is initialised before its bus, and the update starts over. */
  lemma PassesItsBus() returns (es: seq<Event>, c: Cfg)
    ensures Looks(es, c, Buses, 0, 1, BUS0, [[], [0, 2], [], [], []])
    ensures 2 in c.s.parent && c.s.parent[2] == Some(1)
  {
    hide Inv, RunTo, Enabled, Next;
    var fs, d := RegistersEarly();
    assert [2][1..] == [] && [0] + [2] == [0, 2];
    DoesPopDev(d);
    Then(INITIAL, fs, d, PopDev);
    var d1 := Next(d, PopDev);
    DevReadyInFlight(d1);
    DoesLandDev(d1, false);
    Then(INITIAL, fs + [PopDev], d1, LandDev(false));
    var d2 := Next(d1, LandDev(false));
    DoesDevicesDone(d2);
    Then(INITIAL, fs + [PopDev] + [LandDev(false)], d2, DevicesDone);
    es, c := fs + [PopDev] + [LandDev(false)] + [DevicesDone], Next(d2, DevicesDone);
  }

  /** The bus refuses its first handler, and the update ends with the device still active on it. */
  lemma DeviceOutlivingItsBusIsReached() returns (es: seq<Event>, c: Cfg)
    ensures Replay(es) == Some(c) && c.at.Rest? && Shaped(c.s) && Quiescent(c.s)
    ensures 2 in c.s.dev.active[c.s.level] && 2 in c.s.parent && c.s.parent[2] == Some(1)
    ensures 1 in c.s.bus.objs && c.s.bus.objs[1].failed
  {
    hide Inv, Enabled, Next, ReplayFrom;
    var fs, d := PassesItsBus();
    assert [1][1..] == [];
    DoesPopBus(d);
    Then(INITIAL, fs, d, PopBus);
    var d1 := Next(d, PopBus);
    DoesLandBus(d1, true);
    Then(INITIAL, fs + [PopBus], d1, LandBus(true));
    var d2 := Next(d1, LandBus(true));
    DoesBusesDone(d2);
    Then(INITIAL, fs + [PopBus] + [LandBus(true)], d2, BusesDone);
    var d3 := Next(d2, BusesDone);
    DoesDevicesDone(d3);
    Then(INITIAL, fs + [PopBus] + [LandBus(true)] + [BusesDone], d3, DevicesDone);
    es, c := fs + [PopBus] + [LandBus(true)] + [BusesDone] + [DevicesDone], Next(d3, DevicesDone);
  }
}
