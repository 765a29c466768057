/**
 The depth-first walk over the device tree: a single cursor that follows child, sibling and parent
 pointers, without a stack, visits exactly the recursive preorder.
 */
module DevWalk {
  import opened Bytes

  /** Links: a bus has a first child and a bridge device, a device a next sibling, a parent bus and perhaps a bus. */
  datatype Pointers = Pointers(children: map<nat, Option<nat>>, bridge: map<nat, nat>,
                               next: map<nat, Option<nat>>, parent: map<nat, nat>, bus: map<nat, Option<nat>>)

  datatype Tree = Tree(id: nat, bus: Option<nat>, kids: seq<Tree>)

  function Preorder(f: seq<Tree>): seq<nat> {
    if f == [] then [] else [f[0].id] + Preorder(f[0].kids) + Preorder(f[1..])
  }

  /** Up to and including the first device for which `func` returns nonzero. */
  function Visit(order: seq<nat>, func: nat -> int): seq<nat> {
    if order == [] then []
    else if func(order[0]) != 0 then [order[0]]
    else [order[0]] + Visit(order[1..], func)
  }

  function Head(f: seq<Tree>): Option<nat> { if f == [] then None else Some(f[0].id) }

  /** The links spell out the siblings `f` on bus `b` and everything below them; no device is the root. */
  ghost predicate Wired(p: Pointers, root: nat, f: seq<Tree>, b: nat) {
    f != [] ==>
      var t := f[0];
      && t.id != root && t.id in p.parent && p.parent[t.id] == b && b in p.bridge
      && t.id in p.next && p.next[t.id] == Head(f[1..])
      && t.id in p.bus && p.bus[t.id] == t.bus
      && (t.bus.None? ==> t.kids == [])
      && (t.bus.Some? ==> t.bus.value in p.children && p.children[t.bus.value] == Head(t.kids)
                          && t.bus.value in p.bridge && p.bridge[t.bus.value] == t.id)
      && (t.bus.Some? ==> Wired(p, root, t.kids, t.bus.value))
      && Wired(p, root, f[1..], b)
  }

  /** The ancestors of the cursor: each with the siblings after it. */
  datatype Path = Top | Under(f: seq<Tree>, b: nat, up: Path)

  ghost predicate WiredPath(p: Pointers, root: nat, b: nat, path: Path)
    decreases path
  {
    match path
    case Top => b in p.bridge && p.bridge[b] == root
    case Under(f, b', up) =>
      f != [] && f[0].bus == Some(b) && Wired(p, root, f, b') && WiredPath(p, root, b', up)
  }

  /** What is still to be visited once the cursor's subtree and later siblings are done. */
  ghost function After(path: Path): seq<nat> {
    match path
    case Top => []
    case Under(f, _, up) => (if f == [] then [] else Preorder(f[1..])) + After(up)
  }

  /** Everything still to be visited, the cursor's device first. */
  ghost function Todo(cur: seq<Tree>, path: Path): seq<nat> { Preorder(cur) + After(path) }

  lemma PreorderParts(cur: seq<Tree>, b: nat, path: Path)
    requires cur != []
    ensures Preorder(cur) == [cur[0].id] + Preorder(cur[0].kids) + Preorder(cur[1..]) && Preorder([]) == []
    ensures After(Under(cur, b, path)) == Preorder(cur[1..]) + After(path)
  {
  }

  /** After the cursor's device come the devices below it, or what follows its subtree. */
  lemma TodoSteps(cur: seq<Tree>, b: nat, path: Path)
    requires cur != []
    ensures Todo(cur, path) != [] && Todo(cur, path)[0] == cur[0].id
    ensures Todo(cur[0].kids, Under(cur, b, path)) == Todo(cur, path)[1..]
    ensures cur[0].kids == [] ==> Todo(cur[1..], path) == Todo(cur, path)[1..]
  {
    hide Preorder, After;
    PreorderParts(cur, b, path);
    var k, rest, up := Preorder(cur[0].kids), Preorder(cur[1..]), After(path);
    assert Todo(cur, path) == [cur[0].id] + (k + (rest + up));
  }

  /**
   The walk calls `func` on the devices of the tree in preorder, each exactly as often as it occurs there,
   and stops at the first nonzero result, which it returns.
   */
  method ForEachDevDepth(p: Pointers, root: nat, rootBus: nat, func: nat -> int, ghost f: seq<Tree>)
    returns (ret: int, calls: seq<nat>)
    requires rootBus in p.bridge && p.bridge[rootBus] == root
    requires rootBus in p.children && p.children[rootBus] == Head(f) && Wired(p, root, f, rootBus)
    ensures calls == Visit(Preorder(f), func)
    ensures ret == if calls == [] then 0 else func(calls[|calls| - 1])
  {
    ret, calls := 0, [];
    var cursor := p.children[rootBus];
    ghost var cur, b, path := f, rootBus, Top;
    ghost var todo := Preorder(f);
    assert At(p, root, cursor, cur, b, path, todo);
    assert Called(todo, func, calls, todo);
    hide At, Preorder, Visit, Called, Wired;
    while cursor.Some?
      invariant At(p, root, cursor, cur, b, path, todo)
      invariant Called(Preorder(f), func, calls, todo) && ret == 0
      decreases |todo|
    {
      var dev := cursor.value;
      AtFacts(p, root, cursor, cur, b, path, todo);
      CallStep(Preorder(f), func, calls, todo);
      ret := func(dev);
      calls := calls + [dev];
      if ret != 0 { return; }
      cursor, cur, b, path := Advance(p, root, dev, cur, b, path, todo);
      todo := todo[1..];
    }
    AtFacts(p, root, cursor, cur, b, path, todo);
    CallsEnd(Preorder(f), func, calls, todo);
  }

  /** The calls so far, none of which ended the walk, and those `todo` will bring make up the whole walk. */
  ghost predicate Called(order: seq<nat>, func: nat -> int, calls: seq<nat>, todo: seq<nat>) {
    calls + Visit(todo, func) == Visit(order, func) && (calls != [] ==> func(calls[|calls| - 1]) == 0)
  }

  lemma CallStep(order: seq<nat>, func: nat -> int, calls: seq<nat>, todo: seq<nat>)
    requires Called(order, func, calls, todo) && todo != []
    ensures func(todo[0]) != 0 ==> calls + [todo[0]] == Visit(order, func)
    ensures func(todo[0]) == 0 ==> Called(order, func, calls + [todo[0]], todo[1..])
  {
    hide Visit;
    VisitStep(todo, func);
    assert calls + ([todo[0]] + Visit(todo[1..], func)) == calls + [todo[0]] + Visit(todo[1..], func);
  }

  lemma CallsEnd(order: seq<nat>, func: nat -> int, calls: seq<nat>, todo: seq<nat>)
    requires Called(order, func, calls, todo) && todo == []
    ensures calls == Visit(order, func) && (calls != [] ==> func(calls[|calls| - 1]) == 0)
  {
  }

  lemma VisitStep(order: seq<nat>, func: nat -> int)
    ensures order == [] ==> Visit(order, func) == []
    ensures order != [] ==>
      Visit(order, func) == [order[0]] + if func(order[0]) != 0 then [] else Visit(order[1..], func)
  {
  }

  /** The cursor stands on the first device of `cur`, with `todo` still to visit. */
  ghost predicate At(p: Pointers, root: nat, cursor: Option<nat>, cur: seq<Tree>, b: nat, path: Path, todo: seq<nat>) {
    && cursor == Head(cur) && Wired(p, root, cur, b) && WiredPath(p, root, b, path)
    && todo == Todo(cur, path) && (cursor.None? ==> todo == [])
  }

  lemma AtFacts(p: Pointers, root: nat, cursor: Option<nat>, cur: seq<Tree>, b: nat, path: Path, todo: seq<nat>)
    requires At(p, root, cursor, cur, b, path, todo)
    ensures cursor.None? ==> todo == []
    ensures cursor.Some? ==> todo != [] && todo[0] == cursor.value
  {
    if cursor.Some? { TodoSteps(cur, b, path); }
  }

  /** Down to the first device below, or on past the finished subtree. */
  method Advance(p: Pointers, root: nat, dev: nat,
                 ghost f: seq<Tree>, ghost fb: nat, ghost fpath: Path, ghost todo: seq<nat>)
    returns (cursor: Option<nat>, ghost cur: seq<Tree>, ghost b: nat, ghost path: Path)
    requires At(p, root, Some(dev), f, fb, fpath, todo) && todo != []
    ensures At(p, root, cursor, cur, b, path, todo[1..])
  {
    hide Wired, Todo;
    TodoSteps(f, fb, fpath);
    var below := Below(p, root, dev, f, fb);
    if below.Some? {
      cursor, cur, b, path := below, f[0].kids, f[0].bus.value, Under(f, fb, fpath);
    } else {
      cursor, cur, b, path := NextDev(p, root, dev, f, fb, fpath);
    }
  }

  /** The first device below `dev`: one on the bus it bridges to. */
  method Below(p: Pointers, root: nat, dev: nat, ghost cur: seq<Tree>, ghost b: nat) returns (below: Option<nat>)
    requires cur != [] && cur[0].id == dev && Wired(p, root, cur, b)
    ensures below == Head(cur[0].kids)
    ensures below.Some? ==> cur[0].bus.Some? && Wired(p, root, cur[0].kids, cur[0].bus.value)
  {
    below := if p.bus[dev].Some? then p.children[p.bus[dev].value] else None;
  }

  /** From a finished subtree to the next device: up through the parents until there is a next sibling, or the root. */
  method NextDev(p: Pointers, root: nat, from: nat, ghost f: seq<Tree>, ghost fb: nat, ghost fpath: Path)
    returns (cursor: Option<nat>, ghost cur: seq<Tree>, ghost b: nat, ghost path: Path)
    requires f != [] && f[0].id == from && Wired(p, root, f, fb) && WiredPath(p, root, fb, fpath)
    ensures cursor == Head(cur) && Wired(p, root, cur, b) && WiredPath(p, root, b, path)
    ensures Todo(cur, path) == Todo(f[1..], fpath)
    ensures cursor.None? ==> Todo(cur, path) == []
  {
    var dev := from;
    cur, b, path := f, fb, fpath;
    while p.next[dev].None?
      invariant cur != [] && cur[0].id == dev && dev in p.next
      invariant Wired(p, root, cur, b) && WiredPath(p, root, b, path)
      invariant Todo(cur[1..], path) == Todo(f[1..], fpath)
      decreases path
    {
      assert cur[1..] == [];
      dev := p.bridge[p.parent[dev]];
      if dev == root {
        assert path.Top?;
        cursor, cur := None, [];
        return;
      }
      assert path.Under?;
      cur, b, path := path.f, path.b, path.up;
    }
    cursor := p.next[dev];
    cur := cur[1..];
  }

  // ---------------------------------------------------------------- no device is visited twice

  datatype Place = Place(cur: seq<Tree>, b: nat, path: Path)

  ghost predicate Stands(p: Pointers, root: nat, x: Place, todo: seq<nat>) {
    At(p, root, Head(x.cur), x.cur, x.b, x.path, todo)
  }

  /** Where the tree goes on after the first subtree of `f`. */
  ghost function Onward(f: seq<Tree>, b: nat, path: Path): Place
    requires f != []
    decreases path
  {
    if f[1..] != [] || path.Top? || path.f == [] then Place(f[1..], b, path)
    else Onward(path.f, path.b, path.up)
  }

  ghost function Move(x: Place): Place
    requires x.cur != []
  {
    if x.cur[0].kids != [] && x.cur[0].bus.Some? then
      Place(x.cur[0].kids, x.cur[0].bus.value, Under(x.cur, x.b, x.path))
    else Onward(x.cur, x.b, x.path)
  }

  lemma {:induction false} OnwardStands(p: Pointers, root: nat, f: seq<Tree>, b: nat, path: Path)
    requires f != [] && Wired(p, root, f, b) && WiredPath(p, root, b, path)
    ensures Stands(p, root, Onward(f, b, path), Todo(f[1..], path))
    decreases path
  {
    if f[1..] == [] && path.Under? {
      OnwardStands(p, root, path.f, path.b, path.up);
    }
  }

  lemma MoveStands(p: Pointers, root: nat, x: Place, todo: seq<nat>)
    requires Stands(p, root, x, todo) && x.cur != []
    ensures todo != [] && Stands(p, root, Move(x), todo[1..])
  {
    TodoSteps(x.cur, x.b, x.path);
    if x.cur[0].kids == [] { OnwardStands(p, root, x.cur, x.b, x.path); }
  }

  /** Which device comes next depends on the current one only. */
  lemma {:induction false} OnwardSame(p: Pointers, root: nat, f: seq<Tree>, b: nat, path: Path,
                                      f': seq<Tree>, b': nat, path': Path)
    requires f != [] && Wired(p, root, f, b) && WiredPath(p, root, b, path)
    requires f' != [] && Wired(p, root, f', b') && WiredPath(p, root, b', path')
    requires f[0].id == f'[0].id
    ensures Head(Onward(f, b, path).cur) == Head(Onward(f', b', path').cur)
    decreases path
  {
    assert Head(f[1..]) == Head(f'[1..]) && b == b';
    if f[1..] == [] && path.Under? && path'.Under? {
      OnwardSame(p, root, path.f, path.b, path.up, path'.f, path'.b, path'.up);
    }
  }

  lemma MoveSame(p: Pointers, root: nat, x: Place, y: Place, tx: seq<nat>, ty: seq<nat>)
    requires Stands(p, root, x, tx) && Stands(p, root, y, ty)
    requires x.cur != [] && y.cur != [] && x.cur[0].id == y.cur[0].id
    ensures Head(Move(x).cur) == Head(Move(y).cur)
  {
    assert Head(x.cur[0].kids) == Head(y.cur[0].kids);
    if x.cur[0].kids == [] { OnwardSame(p, root, x.cur, x.b, x.path, y.cur, y.b, y.path); }
  }

  lemma {:induction false} SameTodo(p: Pointers, root: nat, x: Place, y: Place, tx: seq<nat>, ty: seq<nat>)
    requires Stands(p, root, x, tx) && Stands(p, root, y, ty) && Head(x.cur) == Head(y.cur)
    ensures tx == ty
    decreases |tx|
  {
    AtFacts(p, root, Head(x.cur), x.cur, x.b, x.path, tx);
    AtFacts(p, root, Head(y.cur), y.cur, y.b, y.path, ty);
    if x.cur != [] {
      MoveSame(p, root, x, y, tx, ty);
      hide Stands, Move;
      MoveStands(p, root, x, tx);
      MoveStands(p, root, y, ty);
      SameTodo(p, root, Move(x), Move(y), tx[1..], ty[1..]);
      assert tx == [tx[0]] + tx[1..] && ty == [ty[0]] + ty[1..];
    }
  }

  /** Every device of the tree is the cursor's at some time. */
  lemma {:induction false} Reaches(p: Pointers, root: nat, rootBus: nat, f: seq<Tree>, i: nat) returns (x: Place)
    requires rootBus in p.bridge && p.bridge[rootBus] == root && Wired(p, root, f, rootBus) && i <= |Preorder(f)|
    ensures Stands(p, root, x, Preorder(f)[i..])
  {
    if i == 0 {
      x := Place(f, rootBus, Top);
    } else {
      x := Reaches(p, root, rootBus, f, i - 1);
      AtFacts(p, root, Head(x.cur), x.cur, x.b, x.path, Preorder(f)[i - 1..]);
      MoveStands(p, root, x, Preorder(f)[i - 1..]);
      assert Preorder(f)[i - 1..][1..] == Preorder(f)[i..];
      x := Move(x);
    }
  }

  /** Links that spell out a tree give every device one place in it. */
  lemma EachDeviceOnce(p: Pointers, root: nat, rootBus: nat, f: seq<Tree>, i: nat, j: nat)
    requires rootBus in p.bridge && p.bridge[rootBus] == root && Wired(p, root, f, rootBus)
    requires i < j < |Preorder(f)|
    ensures Preorder(f)[i] != Preorder(f)[j]
  {
    if Preorder(f)[i] == Preorder(f)[j] {
      var x := Reaches(p, root, rootBus, f, i);
      var y := Reaches(p, root, rootBus, f, j);
      AtFacts(p, root, Head(x.cur), x.cur, x.b, x.path, Preorder(f)[i..]);
      AtFacts(p, root, Head(y.cur), y.cur, y.b, y.path, Preorder(f)[j..]);
      SameTodo(p, root, x, y, Preorder(f)[i..], Preorder(f)[j..]);
    }
  }

  lemma {:induction false} VisitIsPrefix(order: seq<nat>, func: nat -> int)
    ensures Visit(order, func) <= order
  {
    if order != [] { VisitIsPrefix(order[1..], func); }
  }

  /** So the walk calls `func` at most once for each device. */
  lemma EachCalledOnce(p: Pointers, root: nat, rootBus: nat, f: seq<Tree>, func: nat -> int, i: nat, j: nat)
    requires rootBus in p.bridge && p.bridge[rootBus] == root && Wired(p, root, f, rootBus)
    requires i < j < |Visit(Preorder(f), func)|
    ensures Visit(Preorder(f), func)[i] != Visit(Preorder(f), func)[j]
  {
    hide Wired, Visit;
    VisitIsPrefix(Preorder(f), func);
    EachDeviceOnce(p, root, rootBus, f, i, j);
  }
}
