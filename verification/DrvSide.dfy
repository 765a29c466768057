/**
 One side of the driver manager (its buses, or its devices): the per-level lists, the inactive list,
 and the level and state fields of the objects on them. The steps are the list operations the manager
 performs; every step keeps each object on exactly one list.
 */
module DrvSide {
  import opened Bytes

  const LEVEL_MAX := 4

  /** `inactive`: on the inactive list. `failed`: initialisation failed (an object may be inactive without). */
  datatype Obj = Obj(level: nat, inactive: bool, failed: bool)

  /**
   `flight` is the object taken off its list and being initialised. `tried[k]` and `taken[k]` record, in
   order, the objects taken off list `k` for the next level and those put at its end.
   */
  datatype Side = Side(objs: map<nat, Obj>, active: seq<seq<nat>>, inactive: seq<nat>,
                       flight: Option<nat>, tried: seq<seq<nat>>, taken: seq<seq<nat>>)

  // ---------------------------------------------------------------- steps

  /** A new object goes to the end of list 0, or to the end of the inactive list. */
  function Register(x: Side, id: nat, skip: bool): Side
    requires |x.active| == |x.taken| == LEVEL_MAX + 1
  {
    var y := x.(objs := x.objs[id := Obj(0, skip, false)]);
    if skip then y.(inactive := x.inactive + [id])
    else y.(active := x.active[0 := x.active[0] + [id]], taken := x.taken[0 := x.taken[0] + [id]])
  }

  /** The first object of list `k` is taken off it. */
  function Pop(x: Side, k: nat): Side
    requires k < |x.active| && x.active[k] != []
  {
    x.(active := x.active[k := x.active[k][1..]], flight := Some(x.active[k][0]))
  }

  /** The object in flight reaches the next level and goes to the end of that list. */
  function Take(x: Side): Side
    requires |x.active| == |x.taken| == |x.tried| == LEVEL_MAX + 1
    requires x.flight.Some? && x.flight.value in x.objs && x.objs[x.flight.value].level < LEVEL_MAX
  {
    var id := x.flight.value;
    var k := x.objs[id].level;
    x.(objs := x.objs[id := x.objs[id].(level := k + 1)],
       active := x.active[k + 1 := x.active[k + 1] + [id]],
       flight := None,
       tried := x.tried[k := x.tried[k] + [id]],
       taken := x.taken[k + 1 := x.taken[k + 1] + [id]])
  }

  /** The object in flight failed and goes to the front of the inactive list. */
  function Drop(x: Side): Side
    requires |x.tried| == LEVEL_MAX + 1
    requires x.flight.Some? && x.flight.value in x.objs && x.objs[x.flight.value].level <= LEVEL_MAX
  {
    var id := x.flight.value;
    var k := x.objs[id].level;
    x.(objs := x.objs[id := x.objs[id].(inactive := true, failed := true)],
       inactive := [id] + x.inactive,
       flight := None,
       tried := x.tried[k := x.tried[k] + [id]])
  }

  // ---------------------------------------------------------------- what every step keeps

  ghost predicate NoDup(s: seq<nat>) { forall i, j :: 0 <= i < j < |s| ==> s[i] != s[j] }

  /** The object belongs on list `k`. */
  predicate On(x: Side, id: nat, k: nat) {
    id in x.objs && !x.objs[id].inactive && x.objs[id].level == k && x.flight != Some(id)
  }

  /** Lists and state fields agree, both ways. */
  ghost predicate Placed(x: Side) {
    && |x.active| == LEVEL_MAX + 1
    && (forall k, id :: 0 <= k <= LEVEL_MAX ==> (id in x.active[k] <==> On(x, id, k)))
    && (forall id :: id in x.inactive <==> id in x.objs && x.objs[id].inactive)
    && (forall k :: 0 <= k <= LEVEL_MAX ==> NoDup(x.active[k]))
    && NoDup(x.inactive)
    && (forall id :: id in x.objs ==> x.objs[id].level <= LEVEL_MAX && (x.objs[id].failed ==> x.objs[id].inactive))
    && (x.flight.Some? ==> x.flight.value in x.objs && !x.objs[x.flight.value].inactive)
  }

  /** `a` is `b` with some elements left out. */
  ghost predicate Subseq(a: seq<nat>, b: seq<nat>) {
    if a == [] then true
    else if b == [] then false
    else (a[|a| - 1] == b[|b| - 1] && Subseq(a[..|a| - 1], b[..|b| - 1])) || Subseq(a, b[..|b| - 1])
  }

  function InFlightAt(x: Side, k: nat): seq<nat> {
    if x.flight.Some? && x.flight.value in x.objs && x.objs[x.flight.value].level == k then [x.flight.value] else []
  }

  /**
   First in, first out: what was put on list `k` is what was taken off it followed by what is still
   there, and what reached the next level did so in the order it was taken off.
   */
  ghost predicate InOrder(x: Side) {
    && |x.active| == |x.taken| == |x.tried| == LEVEL_MAX + 1
    && (forall k :: 0 <= k <= LEVEL_MAX ==> x.taken[k] == x.tried[k] + InFlightAt(x, k) + x.active[k])
    && (forall k :: 0 <= k < LEVEL_MAX ==> Subseq(x.taken[k + 1], x.tried[k]))
  }

  ghost predicate Good(x: Side) { Placed(x) && InOrder(x) }

  /** A registered object that is not in flight is on one list and on no other. */
  lemma OnExactlyOneList(x: Side, id: nat)
    requires Placed(x) && id in x.objs && x.flight != Some(id)
    ensures id in x.inactive <==> forall k :: 0 <= k <= LEVEL_MAX ==> id !in x.active[k]
    ensures forall k :: 0 <= k <= LEVEL_MAX && id in x.active[k] ==> k == x.objs[id].level
    ensures id !in x.inactive ==> id in x.active[x.objs[id].level]
  {
    assert On(x, id, x.objs[id].level) <==> !x.objs[id].inactive;
  }

  lemma RegisterKeepsPlaced(x: Side, id: nat, skip: bool)
    requires Placed(x) && |x.taken| == LEVEL_MAX + 1 && id !in x.objs
    ensures Placed(Register(x, id, skip))
  {
    var y := Register(x, id, skip);
    assert id !in x.active[0] by { assert !On(x, id, 0); }
    forall k, i | 0 <= k <= LEVEL_MAX ensures i in y.active[k] <==> On(y, i, k) {
      assert i in x.active[k] <==> On(x, i, k);
      assert On(y, i, k) <==> On(x, i, k) || (i == id && k == 0 && !skip);
    }
  }

  lemma PopKeepsPlaced(x: Side, k: nat)
    requires Placed(x) && k <= LEVEL_MAX && x.active[k] != [] && x.flight.None?
    ensures Placed(Pop(x, k)) && On(x, x.active[k][0], k)
  {
    var y, id := Pop(x, k), x.active[k][0];
    assert id in x.active[k];
    assert x.active[k] == [id] + x.active[k][1..];
    forall j, i | 0 <= j <= LEVEL_MAX ensures i in y.active[j] <==> On(y, i, j) {
      assert i in x.active[j] <==> On(x, i, j);
      assert On(y, i, j) <==> On(x, i, j) && i != id;
      if j == k { assert id !in x.active[k][1..]; }
    }
  }

  lemma TakeKeepsPlaced(x: Side)
    requires Placed(x) && |x.taken| == |x.tried| == LEVEL_MAX + 1
    requires x.flight.Some? && x.objs[x.flight.value].level < LEVEL_MAX
    ensures Placed(Take(x))
  {
    var y, id := Take(x), x.flight.value;
    var n := x.objs[id].level + 1;
    assert id !in x.active[n] by { assert !On(x, id, n); }
    forall j, i | 0 <= j <= LEVEL_MAX ensures i in y.active[j] <==> On(y, i, j) {
      assert i in x.active[j] <==> On(x, i, j);
      assert On(y, i, j) <==> On(x, i, j) || (i == id && j == n);
    }
  }

  lemma DropKeepsPlaced(x: Side)
    requires Placed(x) && |x.tried| == LEVEL_MAX + 1 && x.flight.Some?
    ensures Placed(Drop(x))
  {
    var y, id := Drop(x), x.flight.value;
    forall j, i | 0 <= j <= LEVEL_MAX ensures i in y.active[j] <==> On(y, i, j) {
      assert i in x.active[j] <==> On(x, i, j);
      assert On(y, i, j) <==> On(x, i, j);
    }
  }

  // ---------------------------------------------------------------- order

  lemma RegisterKeepsOrder(x: Side, id: nat, skip: bool)
    requires InOrder(x) && id !in x.objs
    requires x.flight.Some? ==> x.flight.value in x.objs
    ensures InOrder(Register(x, id, skip))
  {
    hide Subseq;
    var y := Register(x, id, skip);
    forall k | 0 <= k <= LEVEL_MAX ensures y.taken[k] == y.tried[k] + InFlightAt(y, k) + y.active[k] {
      assert InFlightAt(y, k) == InFlightAt(x, k);
      assert x.taken[k] == x.tried[k] + InFlightAt(x, k) + x.active[k];
    }
    forall k | 0 <= k < LEVEL_MAX ensures Subseq(y.taken[k + 1], y.tried[k]) {
      assert Subseq(x.taken[k + 1], x.tried[k]);
    }
  }

  lemma PopKeepsOrder(x: Side, k: nat)
    requires Good(x) && k <= LEVEL_MAX && x.active[k] != [] && x.flight.None?
    ensures InOrder(Pop(x, k))
  {
    hide Subseq;
    var y, id := Pop(x, k), x.active[k][0];
    PopKeepsPlaced(x, k);
    assert x.active[k] == [id] + x.active[k][1..];
    forall j | 0 <= j <= LEVEL_MAX ensures y.taken[j] == y.tried[j] + InFlightAt(y, j) + y.active[j] {
      assert x.taken[j] == x.tried[j] + InFlightAt(x, j) + x.active[j];
    }
    forall j | 0 <= j < LEVEL_MAX ensures Subseq(y.taken[j + 1], y.tried[j]) {
      assert Subseq(x.taken[j + 1], x.tried[j]);
    }
  }

  lemma SubseqSnoc(a: seq<nat>, b: seq<nat>, id: nat)
    requires Subseq(a, b)
    ensures Subseq(a, b + [id]) && Subseq(a + [id], b + [id])
  {
    assert (b + [id])[..|b|] == b && (a + [id])[..|a|] == a;
  }

  lemma TakeKeepsOrder(x: Side)
    requires InOrder(x) && x.flight.Some? && x.flight.value in x.objs && x.objs[x.flight.value].level < LEVEL_MAX
    ensures InOrder(Take(x))
  {
    hide Subseq;
    var y, id := Take(x), x.flight.value;
    forall j | 0 <= j <= LEVEL_MAX ensures y.taken[j] == y.tried[j] + InFlightAt(y, j) + y.active[j] {
      assert x.taken[j] == x.tried[j] + InFlightAt(x, j) + x.active[j];
    }
    forall j | 0 <= j < LEVEL_MAX ensures Subseq(y.taken[j + 1], y.tried[j]) {
      SubseqSnoc(x.taken[j + 1], x.tried[j], id);
    }
  }

  lemma DropKeepsOrder(x: Side)
    requires InOrder(x) && x.flight.Some? && x.flight.value in x.objs && x.objs[x.flight.value].level <= LEVEL_MAX
    ensures InOrder(Drop(x))
  {
    hide Subseq;
    var y, id := Drop(x), x.flight.value;
    forall j | 0 <= j <= LEVEL_MAX ensures y.taken[j] == y.tried[j] + InFlightAt(y, j) + y.active[j] {
      assert x.taken[j] == x.tried[j] + InFlightAt(x, j) + x.active[j];
    }
    forall j | 0 <= j < LEVEL_MAX ensures Subseq(y.taken[j + 1], y.tried[j]) {
      SubseqSnoc(x.taken[j + 1], x.tried[j], id);
    }
  }

  lemma PopKeepsGood(x: Side, k: nat)
    requires Good(x) && k <= LEVEL_MAX && x.active[k] != [] && x.flight.None?
    ensures Good(Pop(x, k)) && On(x, x.active[k][0], k)
  {
    PopKeepsPlaced(x, k);
    PopKeepsOrder(x, k);
  }
}
