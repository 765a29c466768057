/** Buses and devices together: who hangs on whom, and how failures are contained. */
module DrvSystem {
  import opened Bytes
  import opened DrvSide

  /** `level` is the manager's own level; a device has a parent bus (the root has none), a bus a bridge device. */
  datatype Sys = Sys(level: nat, bus: Side, dev: Side, parent: map<nat, Option<nat>>, bridge: map<nat, nat>)

  ghost predicate Typed(s: Sys) {
    && s.level <= LEVEL_MAX
    && s.parent.Keys == s.dev.objs.Keys && s.bridge.Keys == s.bus.objs.Keys
    && (forall d :: d in s.parent && s.parent[d].Some? ==> s.parent[d].value in s.bus.objs)
    && (forall b :: b in s.bridge ==> s.bridge[b] in s.dev.objs)
  }

  /** No object is ahead of the manager, a failed one stopped short of it, and one without a driver never began. */
  ghost predicate Reached(s: Sys) {
    && (forall b :: b in s.bus.objs ==>
          && s.bus.objs[b].level <= s.level
          && s.bus.objs[b].inactive == s.bus.objs[b].failed
          && (s.bus.objs[b].failed ==> s.bus.objs[b].level < s.level))
    && (forall d :: d in s.dev.objs ==>
          && s.dev.objs[d].level <= s.level
          && (s.dev.objs[d].failed ==> s.dev.objs[d].level < s.level)
          && (s.dev.objs[d].inactive && !s.dev.objs[d].failed ==> s.dev.objs[d].level == 0))
    && (s.bus.flight.Some? && s.bus.flight.value in s.bus.objs ==> s.bus.objs[s.bus.flight.value].level < s.level)
    && (s.dev.flight.Some? && s.dev.flight.value in s.dev.objs ==> s.dev.objs[s.dev.flight.value].level < s.level)
  }

  /** A device does not overtake its bus, except that it may be at level 1 while the bus waits for its first handler. */
  ghost predicate Behind(s: Sys)
    requires Typed(s)
  {
    forall d :: d in s.parent && s.parent[d].Some? && !s.dev.objs[d].inactive ==>
      var l, m := s.dev.objs[d].level, s.bus.objs[s.parent[d].value].level; l <= m || (l == 1 && m == 0)
  }

  /** Not even that, when no device was registered on a bus before that bus was first initialised. */
  ghost predicate Strict(s: Sys)
    requires Typed(s)
  {
    forall d :: d in s.parent && s.parent[d].Some? ==>
      var b := s.parent[d].value;
      && (!s.dev.objs[d].inactive ==> s.dev.objs[d].level <= s.bus.objs[b].level)
      && (s.bus.objs[b].level >= 1 || s.bus.objs[b].failed || s.bus.flight == Some(b))
  }

  /** A bus is at most one level ahead of the device that bridges to it. */
  ghost predicate Bridged(s: Sys)
    requires Typed(s)
  {
    forall b :: b in s.bridge ==>
      var d := s.dev.objs[s.bridge[b]];
      !d.inactive || d.failed ==> s.bus.objs[b].level <= d.level + 1
  }

  ghost predicate Linked(s: Sys) { Typed(s) && Reached(s) && Behind(s) && Bridged(s) }

  ghost predicate Valid(s: Sys) { Good(s.bus) && Good(s.dev) && Linked(s) }

  predicate Idle(s: Sys) { s.bus.flight.None? && s.dev.flight.None? }

  /** No work is left below the manager's level. */
  ghost predicate Quiescent(s: Sys)
    requires |s.bus.active| == |s.dev.active| == LEVEL_MAX + 1 && s.level <= LEVEL_MAX
  {
    Idle(s) && forall k :: 0 <= k < s.level ==> s.bus.active[k] == [] && s.dev.active[k] == []
  }

  /** With nothing left to do at level N, every device at level N has its bus at level N: none sits on a failed bus. */
  lemma DevicesHaveTheirBus(s: Sys, d: nat)
    requires Valid(s) && Strict(s) && Quiescent(s) && d in s.dev.active[s.level] && s.parent[d].Some?
    ensures s.parent[d].value in s.bus.active[s.level]
  {
    var b := s.parent[d].value;
    assert On(s.dev, d, s.level);
    assert On(s.bus, b, s.level);
  }

  /**
   Exactly when a device outlives its failed bus: at level 1, when it passed its first handler before the bus refused
   its own. It must have been registered on a bus that was still waiting. All other devices are inactive.
   */
  lemma OutlivesFailedBus(s: Sys, d: nat)
    requires Valid(s) && Quiescent(s) && d in s.dev.objs && s.parent[d].Some? && s.bus.objs[s.parent[d].value].failed
    ensures d in s.dev.active[s.level] <==>
      s.dev.objs[d].level == s.bus.objs[s.parent[d].value].level + 1 == s.level == 1
    ensures d !in s.dev.active[s.level] <==> s.dev.objs[d].inactive
  {
    var k := s.dev.objs[d].level;
    assert d in s.dev.active[k] <==> On(s.dev, d, k);
    assert d in s.dev.active[s.level] <==> On(s.dev, d, s.level);
  }

  /** With nothing left to do at level N, every bus is at level N unless it failed, whatever hangs on it. */
  lemma BusesAreUpUnlessFailed(s: Sys, b: nat)
    requires Valid(s) && Quiescent(s) && b in s.bus.objs
    ensures b in s.bus.active[s.level] <==> !s.bus.objs[b].failed
  {
    var k := s.bus.objs[b].level;
    assert b in s.bus.active[k] <==> On(s.bus, b, k);
    assert b in s.bus.active[s.level] <==> On(s.bus, b, s.level);
  }

  /**
   Failure of a bridge device is contained except in its last step: an active bus has an active bridge,
   or one that failed going from level N-1 to N after the bus got there, or one that is never initialised.
   */
  lemma BusesHaveTheirBridge(s: Sys, b: nat)
    requires Valid(s) && Quiescent(s) && b in s.bus.active[s.level]
    ensures var id := s.bridge[b]; var d := s.dev.objs[id];
      || id in s.dev.active[s.level]
      || (d.failed && d.level == s.level - 1)
      || (d.inactive && !d.failed)
  {
    var id := s.bridge[b];
    var d := s.dev.objs[id];
    assert On(s.bus, b, s.level);
    if !d.inactive {
      assert On(s.dev, id, d.level);
      assert id in s.dev.active[d.level];
    }
  }

  /**
   Exactly when a bus outlives its failed bridge: the bus had gone to the manager's level when the bridge failed on
   its way there. The failure came in the bridge's last step, and nothing looks at the bus again.
   */
  lemma OutlivesFailedBridge(s: Sys, b: nat)
    requires Valid(s) && Quiescent(s) && b in s.bus.objs && s.dev.objs[s.bridge[b]].failed
    ensures b in s.bus.active[s.level] <==> s.bus.objs[b].level == s.dev.objs[s.bridge[b]].level + 1 == s.level
    ensures b !in s.bus.active[s.level] <==> s.bus.objs[b].failed
  {
    var k := s.bus.objs[b].level;
    assert b in s.bus.active[k] <==> On(s.bus, b, k);
    assert b in s.bus.active[s.level] <==> On(s.bus, b, s.level);
  }

  // ---------------------------------------------------------------- steps

  function AddDev(s: Sys, id: nat, parent: Option<nat>, skip: bool): Sys
    requires |s.dev.active| == |s.dev.taken| == LEVEL_MAX + 1
  {
    s.(dev := Register(s.dev, id, skip), parent := s.parent[id := parent])
  }

  function AddBus(s: Sys, id: nat, bridge: nat): Sys
    requires |s.bus.active| == |s.bus.taken| == LEVEL_MAX + 1
  {
    s.(bus := Register(s.bus, id, false), bridge := s.bridge[id := bridge])
  }

  /** Where a device can be registered: on a registered bus. */
  predicate MayHost(s: Sys, parent: Option<nat>) { parent.Some? ==> parent.value in s.bus.objs }

  /** Where it should be: on a bus that has been initialised, or is being so. */
  predicate Orderly(s: Sys, parent: Option<nat>) {
    parent.Some? && parent.value in s.bus.objs ==> s.bus.objs[parent.value].level >= 1 || s.bus.flight == parent
  }

  /** The object in flight is registered and still active. */
  predicate Flying(x: Side) {
    && |x.active| == |x.taken| == |x.tried| == LEVEL_MAX + 1
    && x.flight.Some? && x.flight.value in x.objs
    && !x.objs[x.flight.value].inactive && !x.objs[x.flight.value].failed
  }

  /** What registering a device changes in the relations. */
  predicate Joins(s: Sys, t: Sys, id: nat, parent: Option<nat>, skip: bool) {
    && id !in s.dev.objs && MayHost(s, parent) && t.level == s.level && t.bus == s.bus && t.bridge == s.bridge
    && t.parent == s.parent[id := parent] && t.dev.objs == s.dev.objs[id := Obj(0, skip, false)]
    && t.dev.flight == s.dev.flight
  }

  lemma JoinsTyped(s: Sys, t: Sys, id: nat, parent: Option<nat>, skip: bool)
    requires Typed(s) && Joins(s, t, id, parent, skip)
    ensures Typed(t)
  {
  }

  lemma JoinsReached(s: Sys, t: Sys, id: nat, parent: Option<nat>, skip: bool)
    requires Reached(s) && Joins(s, t, id, parent, skip) && s.dev.flight != Some(id)
    ensures Reached(t)
  {
  }

  lemma JoinsLinked(s: Sys, t: Sys, id: nat, parent: Option<nat>, skip: bool)
    requires Typed(s) && Behind(s) && Bridged(s) && Typed(t) && Joins(s, t, id, parent, skip)
    ensures Behind(t) && Bridged(t)
  {
  }

  lemma AddDevKeepsLinked(s: Sys, id: nat, parent: Option<nat>, skip: bool)
    requires Linked(s) && id !in s.dev.objs && s.dev.flight != Some(id) && MayHost(s, parent)
    requires |s.dev.active| == |s.dev.taken| == LEVEL_MAX + 1
    ensures Linked(AddDev(s, id, parent, skip))
  {
    var t := AddDev(s, id, parent, skip);
    JoinsTyped(s, t, id, parent, skip);
    JoinsReached(s, t, id, parent, skip);
    JoinsLinked(s, t, id, parent, skip);
    hide Typed, Reached, Behind, Bridged;
  }

  lemma AddBusKeepsLinked(s: Sys, id: nat, bridge: nat)
    requires Linked(s) && id !in s.bus.objs && s.bus.flight != Some(id) && bridge in s.dev.objs
    requires |s.bus.active| == |s.bus.taken| == LEVEL_MAX + 1
    ensures Linked(AddBus(s, id, bridge))
  {
    var t := AddBus(s, id, bridge);
    assert t.bus.objs == s.bus.objs[id := Obj(0, false, false)];
    OpensTyped(s, t, id, bridge);
    OpensLinked(s, t, id, bridge);
    hide Typed, Reached, Behind, Bridged;
  }

  /** What registering a bus changes in the relations. */
  predicate Opens(s: Sys, t: Sys, id: nat, bridge: nat) {
    && id !in s.bus.objs && bridge in s.dev.objs && t.level == s.level && t.dev == s.dev && t.parent == s.parent
    && t.bridge == s.bridge[id := bridge] && t.bus.objs == s.bus.objs[id := Obj(0, false, false)]
    && t.bus.flight == s.bus.flight != Some(id)
  }

  lemma OpensTyped(s: Sys, t: Sys, id: nat, bridge: nat)
    requires Typed(s) && Opens(s, t, id, bridge)
    ensures Typed(t)
  {
  }

  lemma OpensLinked(s: Sys, t: Sys, id: nat, bridge: nat)
    requires Linked(s) && Typed(t) && Opens(s, t, id, bridge)
    ensures Reached(t) && Behind(t) && Bridged(t)
  {
  }

  /** Taking an object off its list changes nothing in the relations but who is in flight. */
  lemma PopBusKeepsLinked(s: Sys, k: nat)
    requires Linked(s) && k < s.level && k < |s.bus.active| && s.bus.active[k] != [] && s.bus.flight.None?
    requires On(s.bus, s.bus.active[k][0], k)
    ensures Linked(s.(bus := Pop(s.bus, k)))
  {
  }

  lemma PopDevKeepsLinked(s: Sys, k: nat)
    requires Linked(s) && k < s.level && k < |s.dev.active| && s.dev.active[k] != [] && s.dev.flight.None?
    requires On(s.dev, s.dev.active[k][0], k)
    ensures Linked(s.(dev := Pop(s.dev, k)))
  {
  }

  /** A bus may advance when its bridge has not failed and is not a level behind. */
  lemma TakeBusKeepsLinked(s: Sys)
    requires Linked(s) && Flying(s.bus)
    requires var d := s.dev.objs[s.bridge[s.bus.flight.value]];
      !d.failed && (!d.inactive ==> s.bus.objs[s.bus.flight.value].level <= d.level)
    ensures Linked(s.(bus := Take(s.bus)))
  {
  }

  lemma DropBusKeepsLinked(s: Sys)
    requires Linked(s) && Flying(s.bus)
    ensures Linked(s.(bus := Drop(s.bus)))
  {
  }

  /** A device may advance when its bus is ahead of it, or to level 1. */
  lemma TakeDevKeepsLinked(s: Sys)
    requires Linked(s) && Flying(s.dev)
    requires var d := s.dev.flight.value;
      s.parent[d].Some? ==> s.dev.objs[d].level == 0 || s.dev.objs[d].level < s.bus.objs[s.parent[d].value].level
    ensures Linked(s.(dev := Take(s.dev)))
  {
    var d, t := s.dev.flight.value, s.(dev := Take(s.dev));
    LandsTyped(s, t, d, s.dev.objs[d].(level := s.dev.objs[d].level + 1));
    TookLinked(s, t, d);
    hide Typed, Reached, Behind, Bridged;
  }

  lemma DropDevKeepsLinked(s: Sys)
    requires Linked(s) && Flying(s.dev)
    ensures Linked(s.(dev := Drop(s.dev)))
  {
    var d, t := s.dev.flight.value, s.(dev := Drop(s.dev));
    LandsTyped(s, t, d, s.dev.objs[d].(inactive := true, failed := true));
    DroppedLinked(s, t, d);
    hide Typed, Reached, Behind, Bridged;
  }

  /** What the landing of a device changes in the relations. */
  predicate Lands(s: Sys, t: Sys, d: nat, o: Obj) {
    && d in s.dev.objs && t.level == s.level && t.bus == s.bus && t.bridge == s.bridge && t.parent == s.parent
    && t.dev.objs == s.dev.objs[d := o] && t.dev.flight == None
  }

  lemma LandsTyped(s: Sys, t: Sys, d: nat, o: Obj)
    requires Typed(s) && Lands(s, t, d, o)
    ensures Typed(t)
  {
  }

  lemma TookLinked(s: Sys, t: Sys, d: nat)
    requires Linked(s) && Typed(t) && d in s.dev.objs
    requires Lands(s, t, d, s.dev.objs[d].(level := s.dev.objs[d].level + 1))
    requires !s.dev.objs[d].inactive && !s.dev.objs[d].failed && s.dev.objs[d].level < s.level
    requires s.parent[d].Some? ==>
      s.dev.objs[d].level == 0 || s.dev.objs[d].level < s.bus.objs[s.parent[d].value].level
    ensures Reached(t) && Behind(t) && Bridged(t)
  {
  }

  lemma DroppedLinked(s: Sys, t: Sys, d: nat)
    requires Linked(s) && Typed(t) && d in s.dev.objs
    requires Lands(s, t, d, s.dev.objs[d].(inactive := true, failed := true))
    requires !s.dev.objs[d].inactive && s.dev.objs[d].level < s.level
    ensures Reached(t) && Behind(t) && Bridged(t)
  {
  }

  // ---------------------------------------------------------------- orderly registrations

  lemma AddDevKeepsStrict(s: Sys, id: nat, parent: Option<nat>, skip: bool)
    requires Typed(s) && Strict(s) && id !in s.dev.objs && MayHost(s, parent) && Orderly(s, parent)
    requires |s.dev.active| == |s.dev.taken| == LEVEL_MAX + 1 && Typed(AddDev(s, id, parent, skip))
    ensures Strict(AddDev(s, id, parent, skip))
  {
    JoinsStrict(s, AddDev(s, id, parent, skip), id, parent, skip);
    hide Typed, Strict;
  }

  lemma JoinsStrict(s: Sys, t: Sys, id: nat, parent: Option<nat>, skip: bool)
    requires Typed(s) && Strict(s) && Typed(t) && Joins(s, t, id, parent, skip) && Orderly(s, parent)
    ensures Strict(t)
  {
  }

  lemma AddBusKeepsStrict(s: Sys, id: nat, bridge: nat)
    requires Typed(s) && Strict(s) && id !in s.bus.objs
    requires |s.bus.active| == |s.bus.taken| == LEVEL_MAX + 1 && Typed(AddBus(s, id, bridge))
    ensures Strict(AddBus(s, id, bridge))
  {
  }

  lemma PopBusKeepsStrict(s: Sys, k: nat)
    requires Typed(s) && Strict(s) && k < |s.bus.active| && s.bus.active[k] != [] && s.bus.flight.None?
    requires Typed(s.(bus := Pop(s.bus, k)))
    ensures Strict(s.(bus := Pop(s.bus, k)))
  {
  }

  lemma PopDevKeepsStrict(s: Sys, k: nat)
    requires Typed(s) && Strict(s) && k < |s.dev.active| && s.dev.active[k] != [] && Typed(s.(dev := Pop(s.dev, k)))
    ensures Strict(s.(dev := Pop(s.dev, k)))
  {
  }

  lemma LandBusKeepsStrict(s: Sys)
    requires Typed(s) && Strict(s) && Flying(s.bus) && s.bus.objs[s.bus.flight.value].level < LEVEL_MAX
    ensures Typed(s.(bus := Take(s.bus))) ==> Strict(s.(bus := Take(s.bus)))
    ensures Typed(s.(bus := Drop(s.bus))) ==> Strict(s.(bus := Drop(s.bus)))
  {
  }

  lemma DropDevKeepsStrict(s: Sys)
    requires Typed(s) && Strict(s) && Flying(s.dev) && s.dev.objs[s.dev.flight.value].level < LEVEL_MAX
    requires Typed(s.(dev := Drop(s.dev)))
    ensures Strict(s.(dev := Drop(s.dev)))
  {
  }

  lemma TakeDevKeepsStrict(s: Sys)
    requires Typed(s) && Strict(s) && Flying(s.dev) && s.dev.objs[s.dev.flight.value].level < LEVEL_MAX
    requires var p := s.parent[s.dev.flight.value];
      p.None? || s.dev.objs[s.dev.flight.value].level < s.bus.objs[p.value].level
    requires Typed(s.(dev := Take(s.dev)))
    ensures Strict(s.(dev := Take(s.dev)))
  {
  }

  // ---------------------------------------------------------------- every step keeps the whole invariant

  lemma AddDevKeepsValid(s: Sys, id: nat, parent: Option<nat>, skip: bool)
    requires Valid(s) && id !in s.dev.objs && MayHost(s, parent)
    ensures Valid(AddDev(s, id, parent, skip))
  {
    AddDevKeepsLinked(s, id, parent, skip);
    hide Linked;
    RegisterKeepsPlaced(s.dev, id, skip);
    RegisterKeepsOrder(s.dev, id, skip);
  }

  lemma AddBusKeepsValid(s: Sys, id: nat, bridge: nat)
    requires Valid(s) && id !in s.bus.objs && bridge in s.dev.objs
    ensures Valid(AddBus(s, id, bridge))
  {
    AddBusKeepsLinked(s, id, bridge);
    hide Linked;
    RegisterKeepsPlaced(s.bus, id, false);
    RegisterKeepsOrder(s.bus, id, false);
  }

  lemma PopBusKeepsValid(s: Sys, k: nat)
    requires Valid(s) && k < s.level && s.bus.active[k] != [] && s.bus.flight.None?
    ensures Valid(s.(bus := Pop(s.bus, k))) && On(s.bus, s.bus.active[k][0], k)
  {
    Shape(s);
    hide Good, Linked;
    PopKeepsGood(s.bus, k);
    PopBusKeepsLinked(s, k);
  }

  lemma PopDevKeepsValid(s: Sys, k: nat)
    requires Valid(s) && k < s.level && s.dev.active[k] != [] && s.dev.flight.None?
    ensures Valid(s.(dev := Pop(s.dev, k))) && On(s.dev, s.dev.active[k][0], k)
  {
    Shape(s);
    hide Good, Linked;
    PopKeepsGood(s.dev, k);
    PopDevKeepsLinked(s, k);
  }

  lemma TakeBusKeepsValid(s: Sys)
    requires Valid(s) && s.bus.flight.Some?
    requires var d := s.dev.objs[s.bridge[s.bus.flight.value]];
      !d.failed && (!d.inactive ==> s.bus.objs[s.bus.flight.value].level <= d.level)
    ensures Valid(s.(bus := Take(s.bus)))
  {
    TakeBusKeepsLinked(s);
    assert s.bus.objs[s.bus.flight.value].level < LEVEL_MAX;
    hide Linked;
    TakeKeepsPlaced(s.bus);
    TakeKeepsOrder(s.bus);
  }

  lemma DropBusKeepsValid(s: Sys)
    requires Valid(s) && s.bus.flight.Some?
    ensures Valid(s.(bus := Drop(s.bus)))
  {
    DropBusKeepsLinked(s);
    hide Linked;
    DropKeepsPlaced(s.bus);
    DropKeepsOrder(s.bus);
  }

  lemma TakeDevKeepsValid(s: Sys)
    requires Valid(s) && s.dev.flight.Some?
    requires var d := s.dev.flight.value;
      s.parent[d].Some? ==> s.dev.objs[d].level == 0 || s.dev.objs[d].level < s.bus.objs[s.parent[d].value].level
    ensures Valid(s.(dev := Take(s.dev)))
  {
    TakeDevKeepsLinked(s);
    assert s.dev.objs[s.dev.flight.value].level < LEVEL_MAX;
    hide Linked;
    TakeKeepsPlaced(s.dev);
    TakeKeepsOrder(s.dev);
  }

  lemma DropDevKeepsValid(s: Sys)
    requires Valid(s) && s.dev.flight.Some?
    ensures Valid(s.(dev := Drop(s.dev)))
  {
    DropDevKeepsLinked(s);
    hide Linked;
    DropKeepsPlaced(s.dev);
    DropKeepsOrder(s.dev);
  }

  /** All lists have their five levels. */
  lemma Shape(s: Sys)
    requires Valid(s)
    ensures |s.bus.active| == |s.bus.taken| == |s.bus.tried| == LEVEL_MAX + 1
    ensures |s.dev.active| == |s.dev.taken| == |s.dev.tried| == LEVEL_MAX + 1
    ensures s.level <= LEVEL_MAX
  {
  }

  const FIVE_EMPTY: seq<seq<nat>> := [[], [], [], [], []]
  const EMPTY_SIDE := Side(map[], FIVE_EMPTY, [], None, FIVE_EMPTY, FIVE_EMPTY)
  const START := Sys(0, EMPTY_SIDE, EMPTY_SIDE, map[], map[])

  lemma StartIsValid()
    ensures Valid(START)
  {
    var x := EMPTY_SIDE;
    assert Placed(x) by {
      forall k, id | 0 <= k <= LEVEL_MAX ensures id in x.active[k] <==> On(x, id, k) {
        assert x.active[k] == [];
      }
    }
    assert InOrder(x) by {
      forall k | 0 <= k <= LEVEL_MAX ensures x.taken[k] == x.tried[k] + InFlightAt(x, k) + x.active[k] {
        assert x.taken[k] == [] && x.tried[k] == [] && x.active[k] == [];
      }
      forall k | 0 <= k < LEVEL_MAX ensures Subseq(x.taken[k + 1], x.tried[k]) {
        assert x.taken[k + 1] == [];
      }
    }
  }
}
