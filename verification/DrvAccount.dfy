/** Which init handlers have run, which refused, and who is to blame for every failure. */
module DrvAccount {
  import opened Bytes
  import opened DrvSide
  import opened DrvSystem

  /** What an object's `init[k]` does when it is called. Every handler is called at most once. */
  datatype Handler = Absent | Succeeds | Refuses

  type Inits = (nat, nat) -> Handler

  /** `ran` holds the pairs (object, k) whose handler `init[k]` was called; `refused` the objects that had one fail. */
  datatype Tally = Tally(ran: set<(nat, nat)>, refused: set<nat>)

  /**
   Exactly the handlers of the levels an object has passed were called, plus the one it failed in or is in. None that
   was passed refuses, and the objects that refused are those whose last handler called does.
   */
  ghost predicate Counted(x: Side, init: Inits, t: Tally) {
    && (forall id, k: nat :: id in x.objs && k < x.objs[id].level ==>
          (!init(id, k).Absent? ==> (id, k) in t.ran) && !init(id, k).Refuses?)
    && (forall id, k :: (id, k) in t.ran ==> id in x.objs && !init(id, k).Absent? && WasDue(x, id, k))
    && (forall id :: id in t.refused ==> id in x.objs && (x.objs[id].failed || x.flight == Some(id)))
    && (forall id :: id in x.objs ==>
          (id in t.refused <==> (id, x.objs[id].level) in t.ran && init(id, x.objs[id].level).Refuses?))
  }

  predicate WasDue(x: Side, id: nat, k: nat)
    requires id in x.objs
  {
    k < x.objs[id].level || (k == x.objs[id].level && (x.objs[id].failed || x.flight == Some(id)))
  }

  /** A failed bus refused itself or has a failed bridge; a failed device refused itself or hangs on a failed bus. */
  ghost predicate Blamed(s: Sys, bus: Tally, dev: Tally) {
    && (forall b :: b in s.bus.objs && s.bus.objs[b].failed ==>
          b in bus.refused || (b in s.bridge && s.bridge[b] in s.dev.objs && s.dev.objs[s.bridge[b]].failed))
    && (forall d :: d in s.dev.objs && s.dev.objs[d].failed ==>
          d in dev.refused || (d in s.parent && s.parent[d].Some? && s.parent[d].value in s.bus.objs
                               && s.bus.objs[s.parent[d].value].failed))
  }

  ghost predicate Accounted(s: Sys, busInit: Inits, devInit: Inits, bus: Tally, dev: Tally) {
    Counted(s.bus, busInit, bus) && Counted(s.dev, devInit, dev) && Blamed(s, bus, dev)
  }

  // ---------------------------------------------------------------- what the steps do to the account

  lemma RegisterCounted(x: Side, id: nat, skip: bool, init: Inits, t: Tally)
    requires Counted(x, init, t) && id !in x.objs && |x.active| == |x.taken| == LEVEL_MAX + 1
    ensures Counted(Register(x, id, skip), init, t)
  {
  }

  /** An object just taken off its list has not run the handler it is taken off for. */
  lemma PopCounted(x: Side, k: nat, init: Inits, t: Tally)
    requires Counted(x, init, t) && Placed(x) && k <= LEVEL_MAX && x.active[k] != [] && x.flight.None?
    ensures Counted(Pop(x, k), init, t)
    ensures (x.active[k][0], k) !in t.ran && x.active[k][0] !in t.refused
  {
    assert x.active[k][0] in x.active[k];
    assert On(x, x.active[k][0], k);
    hide Placed;
  }

  function AfterRun(t: Tally, id: nat, k: nat, error: bool): Tally {
    Tally(t.ran + {(id, k)}, if error then t.refused + {id} else t.refused)
  }

  /** Calling the handler of the object in flight. */
  lemma RunCounted(x: Side, init: Inits, t: Tally, error: bool)
    requires Counted(x, init, t) && x.flight.Some? && x.flight.value in x.objs
    requires var h := init(x.flight.value, x.objs[x.flight.value].level); !h.Absent? && error == h.Refuses?
    ensures Counted(x, init, AfterRun(t, x.flight.value, x.objs[x.flight.value].level, error))
  {
  }

  lemma TakeCounted(x: Side, init: Inits, t: Tally)
    requires Counted(x, init, t) && Flying(x) && x.objs[x.flight.value].level < LEVEL_MAX
    requires var id := x.flight.value; !init(id, x.objs[id].level).Absent? ==> (id, x.objs[id].level) in t.ran
    requires x.flight.value !in t.refused
    ensures Counted(Take(x), init, t)
  {
  }

  lemma DropCounted(x: Side, init: Inits, t: Tally)
    requires Counted(x, init, t) && Flying(x) && x.objs[x.flight.value].level <= LEVEL_MAX
    ensures Counted(Drop(x), init, t)
  {
  }

  lemma AddDevAccounted(s: Sys, id: nat, p: Option<nat>, skip: bool,
                        busInit: Inits, devInit: Inits, bus: Tally, dev: Tally)
    requires Accounted(s, busInit, devInit, bus, dev) && id !in s.dev.objs
    requires |s.dev.active| == |s.dev.taken| == LEVEL_MAX + 1
    ensures Accounted(AddDev(s, id, p, skip), busInit, devInit, bus, dev)
  {
    RegisterCounted(s.dev, id, skip, devInit, dev);
    hide Counted;
  }

  lemma AddBusAccounted(s: Sys, id: nat, d: nat,
                        busInit: Inits, devInit: Inits, bus: Tally, dev: Tally)
    requires Accounted(s, busInit, devInit, bus, dev) && id !in s.bus.objs
    requires |s.bus.active| == |s.bus.taken| == LEVEL_MAX + 1
    ensures Accounted(AddBus(s, id, d), busInit, devInit, bus, dev)
  {
    RegisterCounted(s.bus, id, false, busInit, bus);
    hide Counted;
  }

  /** The bus in flight lands: on the next list if its handler ran and did not refuse, else for one of two reasons. */
  lemma LandBusAccounted(s: Sys, y: Side,
                         busInit: Inits, devInit: Inits, bus: Tally, dev: Tally)
    requires Accounted(s, busInit, devInit, bus, dev) && Flying(s.bus)
    requires var b := s.bus.flight.value; var k := s.bus.objs[b].level;
      && k < LEVEL_MAX && b in s.bridge && s.bridge[b] in s.dev.objs
      && ((y == Take(s.bus) && b !in bus.refused && (!busInit(b, k).Absent? ==> (b, k) in bus.ran))
          || (y == Drop(s.bus) && (b in bus.refused || s.dev.objs[s.bridge[b]].failed)))
    ensures Accounted(s.(bus := y), busInit, devInit, bus, dev)
  {
    if y == Drop(s.bus) { DropCounted(s.bus, busInit, bus); } else { TakeCounted(s.bus, busInit, bus); }
    hide Counted;
  }

  lemma LandDevAccounted(s: Sys, y: Side,
                         busInit: Inits, devInit: Inits, bus: Tally, dev: Tally)
    requires Accounted(s, busInit, devInit, bus, dev) && Flying(s.dev)
    requires var d := s.dev.flight.value; var k := s.dev.objs[d].level;
      && k < LEVEL_MAX && d in s.parent && (s.parent[d].Some? ==> s.parent[d].value in s.bus.objs)
      && ((y == Take(s.dev) && d !in dev.refused && (!devInit(d, k).Absent? ==> (d, k) in dev.ran))
          || (y == Drop(s.dev) && (d in dev.refused || (s.parent[d].Some? && s.bus.objs[s.parent[d].value].failed))))
    ensures Accounted(s.(dev := y), busInit, devInit, bus, dev)
  {
    if y == Drop(s.dev) { DropCounted(s.dev, devInit, dev); } else { TakeCounted(s.dev, devInit, dev); }
    hide Counted;
  }

  lemma PopBusAccounted(s: Sys, k: nat, busInit: Inits, devInit: Inits, bus: Tally, dev: Tally)
    requires Accounted(s, busInit, devInit, bus, dev) && Valid(s)
    requires k < s.level && s.bus.active[k] != [] && s.bus.flight.None?
    ensures Accounted(s.(bus := Pop(s.bus, k)), busInit, devInit, bus, dev)
    ensures (s.bus.active[k][0], k) !in bus.ran && s.bus.active[k][0] !in bus.refused
  {
    PopCounted(s.bus, k, busInit, bus);
    hide Counted, Placed;
  }

  lemma PopDevAccounted(s: Sys, k: nat, busInit: Inits, devInit: Inits, bus: Tally, dev: Tally)
    requires Accounted(s, busInit, devInit, bus, dev) && Valid(s)
    requires k < s.level && s.dev.active[k] != [] && s.dev.flight.None?
    ensures Accounted(s.(dev := Pop(s.dev, k)), busInit, devInit, bus, dev)
    ensures (s.dev.active[k][0], k) !in dev.ran && s.dev.active[k][0] !in dev.refused
  {
    PopCounted(s.dev, k, devInit, dev);
    hide Counted, Placed;
  }

  lemma RunBusAccounted(s: Sys, error: bool,
                        busInit: Inits, devInit: Inits, bus: Tally, dev: Tally)
    requires Accounted(s, busInit, devInit, bus, dev) && s.bus.flight.Some? && s.bus.flight.value in s.bus.objs
    requires var h := busInit(s.bus.flight.value, s.bus.objs[s.bus.flight.value].level);
      !h.Absent? && error == h.Refuses?
    ensures var b := s.bus.flight.value;
      Accounted(s, busInit, devInit, AfterRun(bus, b, s.bus.objs[b].level, error), dev)
  {
    RunCounted(s.bus, busInit, bus, error);
    hide Counted;
  }

  lemma RunDevAccounted(s: Sys, error: bool,
                        busInit: Inits, devInit: Inits, bus: Tally, dev: Tally)
    requires Accounted(s, busInit, devInit, bus, dev) && s.dev.flight.Some? && s.dev.flight.value in s.dev.objs
    requires var h := devInit(s.dev.flight.value, s.dev.objs[s.dev.flight.value].level);
      !h.Absent? && error == h.Refuses?
    ensures var d := s.dev.flight.value;
      Accounted(s, busInit, devInit, bus, AfterRun(dev, d, s.dev.objs[d].level, error))
  {
    RunCounted(s.dev, devInit, dev, error);
    hide Counted;
  }

  /** At rest at level N an active device has run every handler it has below N, and no other, and none refuses. */
  lemma HandlersOfActiveDevice(s: Sys, d: nat, k: nat,
                               busInit: Inits, devInit: Inits, bus: Tally, dev: Tally)
    requires Valid(s) && Quiescent(s) && Accounted(s, busInit, devInit, bus, dev)
    requires d in s.dev.objs && !s.dev.objs[d].inactive
    ensures (d, k) in dev.ran <==> k < s.level && !devInit(d, k).Absent?
    ensures k < s.level ==> !devInit(d, k).Refuses?
  {
    assert On(s.dev, d, s.dev.objs[d].level);
    assert d in s.dev.active[s.dev.objs[d].level];
  }

  /** A failed device was refused by its own handler at the level where it stopped, or its bus has failed. */
  lemma CauseOfFailure(s: Sys, d: nat, busInit: Inits, devInit: Inits,
                       bus: Tally, dev: Tally)
    requires Accounted(s, busInit, devInit, bus, dev) && d in s.dev.objs && s.dev.objs[d].failed
    ensures devInit(d, s.dev.objs[d].level).Refuses?
         || (d in s.parent && s.parent[d].Some? && s.parent[d].value in s.bus.objs
             && s.bus.objs[s.parent[d].value].failed)
  {
  }

  /** A failed bus was refused by its own handler at the level where it stopped, or its bridge has failed. */
  lemma CauseOfBusFailure(s: Sys, b: nat, busInit: Inits, devInit: Inits,
                          bus: Tally, dev: Tally)
    requires Accounted(s, busInit, devInit, bus, dev) && b in s.bus.objs && s.bus.objs[b].failed
    ensures busInit(b, s.bus.objs[b].level).Refuses?
         || (b in s.bridge && s.bridge[b] in s.dev.objs && s.dev.objs[s.bridge[b]].failed)
  {
  }
}
