/**
 Address translation across bridges: along the path between a bus and the root each bridge's windows move
 an address; the paired option runs the same windows backwards.
 */
module Translate {
  import opened Bytes

  const SPACE := 0x1_0000_0000
  const NO_LIMIT := 0xffff_ffff
  const MAX_LEVELS := 16

  /** A window of `size` addresses (a table ends at size 0, here at its last entry). */
  datatype Window = Window(fromAdr: nat, toAdr: nat, size: nat)

  datatype Maps = OneToOne | NoBridge | Table(windows: seq<Window>)

  function Base(w: Window, reverse: bool): nat { if reverse then w.toAdr else w.fromAdr }

  predicate Covers(w: Window, reverse: bool, a: nat) {
    Base(w, reverse) <= a < Base(w, reverse) + w.size
  }

  /** The first window that covers the address, if any. */
  function Lookup(ws: seq<Window>, reverse: bool, a: nat): (r: Option<Window>)
    ensures r.Some? ==> r.value in ws && Covers(r.value, reverse, a)
  {
    if ws == [] then None else if Covers(ws[0], reverse, a) then Some(ws[0]) else Lookup(ws[1..], reverse, a)
  }

  /** Where an address ends up, and how many more addresses after it move along with it. */
  datatype Image = Image(adr: nat, room: nat)

  function Cross(m: Maps, reverse: bool, a: nat): Option<Image> {
    match m
    case OneToOne => Some(Image(a, NO_LIMIT))
    case NoBridge => None
    case Table(ws) =>
      match Lookup(ws, reverse, a)
      case None => None
      case Some(w) => Some(Image(a - Base(w, reverse) + Base(w, !reverse), Base(w, reverse) + w.size - 1 - a))
  }

  /** Crossing several bridges: the addresses compose, the room is the smallest met. */
  function CrossAll(ms: seq<Maps>, reverse: bool, a: nat): Option<Image> {
    if ms == [] then Some(Image(a, NO_LIMIT))
    else match Cross(ms[0], reverse, a)
      case None => None
      case Some(i) =>
        match CrossAll(ms[1..], reverse, i.adr)
        case None => None
        case Some(j) => Some(Image(j.adr, Min(i.room, j.room)))
  }

  // ---------------------------------------------------------------- reversibility

  ghost predicate Apart(ws: seq<Window>, reverse: bool) {
    forall i, j, a :: 0 <= i < j < |ws| && Covers(ws[i], reverse, a) ==> !Covers(ws[j], reverse, a)
  }

  /** The windows of a bridge lie inside the address space and do not overlap on either side. */
  ghost predicate Proper(m: Maps) {
    m.Table? ==>
      && Apart(m.windows, false) && Apart(m.windows, true)
      && forall w :: w in m.windows ==> w.size > 0 && w.fromAdr + w.size <= SPACE && w.toAdr + w.size <= SPACE
  }

  function Backwards(ms: seq<Maps>): seq<Maps> {
    if ms == [] then [] else Backwards(ms[1..]) + [ms[0]]
  }

  /** With disjoint windows the lookup finds the one window that covers the address. */
  lemma {:induction false} LookupFinds(ws: seq<Window>, reverse: bool, a: nat, w: Window)
    requires Apart(ws, reverse) && w in ws && Covers(w, reverse, a)
    ensures Lookup(ws, reverse, a) == Some(w)
  {
    if w == ws[0] {
    } else {
      var j :| 0 <= j < |ws| && ws[j] == w;
      assert !Covers(ws[0], reverse, a);
      assert ws[1..][j - 1] == w;
      assert Apart(ws[1..], reverse) by {
        forall i, k, x | 0 <= i < k < |ws[1..]| && Covers(ws[1..][i], reverse, x)
          ensures !Covers(ws[1..][k], reverse, x)
        {
          assert ws[1..][i] == ws[i + 1] && ws[1..][k] == ws[k + 1];
        }
      }
      LookupFinds(ws[1..], reverse, a, w);
    }
  }

  lemma CrossBack(m: Maps, reverse: bool, a: nat)
    requires Proper(m) && a < SPACE
    ensures match Cross(m, reverse, a)
      case None => true
      case Some(i) => i.adr < SPACE && Cross(m, !reverse, i.adr) == Some(Image(a, i.room))
  {
    if m.Table? {
      var r := Lookup(m.windows, reverse, a);
      if r.Some? {
        LookupFinds(m.windows, !reverse, a - Base(r.value, reverse) + Base(r.value, !reverse), r.value);
      }
    }
  }

  lemma {:induction false} CrossAppend(ms: seq<Maps>, last: Maps, reverse: bool, a: nat)
    ensures CrossAll(ms + [last], reverse, a) ==
      match CrossAll(ms, reverse, a)
      case None => None
      case Some(i) => match Cross(last, reverse, i.adr)
        case None => None
        case Some(j) => Some(Image(j.adr, Min(i.room, Min(j.room, NO_LIMIT))))
  {
    if ms == [] {
      assert ms + [last] == [last];
      assert [last][1..] == [];
    } else {
      assert (ms + [last])[1..] == ms[1..] + [last];
      match Cross(ms[0], reverse, a)
      case None =>
      case Some(i) => CrossAppend(ms[1..], last, reverse, i.adr);
    }
  }

  /** A translation is undone by the opposite direction over the reversed path, with the same room. */
  lemma {:induction false} CrossAllBack(ms: seq<Maps>, reverse: bool, a: nat)
    requires (forall m :: m in ms ==> Proper(m)) && a < SPACE
    ensures match CrossAll(ms, reverse, a)
      case None => true
      case Some(i) =>
        && i.adr < SPACE && i.room <= NO_LIMIT
        && CrossAll(Backwards(ms), !reverse, i.adr) == Some(Image(a, i.room))
  {
    if ms != [] {
      CrossBack(ms[0], reverse, a);
      match Cross(ms[0], reverse, a)
      case None =>
      case Some(i) =>
        CrossAllBack(ms[1..], reverse, i.adr);
        var r := CrossAll(ms[1..], reverse, i.adr);
        if r.Some? {
          CrossAppend(Backwards(ms[1..]), ms[0], !reverse, r.value.adr);
        }
    }
  }

  lemma CrossShifts(m: Maps, reverse: bool, a: nat, k: nat)
    requires Proper(m) && Cross(m, reverse, a).Some? && k <= Cross(m, reverse, a).value.room
    ensures var i := Cross(m, reverse, a).value;
      && Cross(m, reverse, a + k).Some?
      && Cross(m, reverse, a + k).value.adr == i.adr + k
      && Cross(m, reverse, a + k).value.room >= i.room - k
  {
    if m.Table? {
      LookupFinds(m.windows, reverse, a + k, Lookup(m.windows, reverse, a).value);
    }
  }

  /** Every address up to `room` further on moves by the same offset, and keeps the rest of the room. */
  lemma {:induction false} CrossAllShifts(ms: seq<Maps>, reverse: bool, a: nat, k: nat)
    requires forall m :: m in ms ==> Proper(m)
    requires CrossAll(ms, reverse, a).Some? && k <= CrossAll(ms, reverse, a).value.room
    ensures CrossAll(ms, reverse, a + k).Some?
    ensures CrossAll(ms, reverse, a + k).value.adr == CrossAll(ms, reverse, a).value.adr + k
    ensures CrossAll(ms, reverse, a + k).value.room >= CrossAll(ms, reverse, a).value.room - k
  {
    if ms != [] {
      assert Proper(ms[0]);
      CrossShifts(ms[0], reverse, a, k);
      CrossAllShifts(ms[1..], reverse, Cross(ms[0], reverse, a).value.adr, k);
    }
  }

  // ---------------------------------------------------------------- no room left

  /** The address is the last one of the window it is found in. */
  predicate AtEdge(m: Maps, reverse: bool, a: nat) {
    m.Table? && match Lookup(m.windows, reverse, a)
      case None => false
      case Some(w) => a == Base(w, reverse) + w.size - 1
  }

  /** At some bridge on the way the address arrives as the last one of a window. */
  predicate MeetsEdge(ms: seq<Maps>, reverse: bool, a: nat) {
    ms != [] && Cross(ms[0], reverse, a).Some?
    && (AtEdge(ms[0], reverse, a) || MeetsEdge(ms[1..], reverse, Cross(ms[0], reverse, a).value.adr))
  }

  /** A successful translation has no room left exactly when it meets the edge of a window. */
  lemma {:induction false} NoRoomExactlyAtEdge(ms: seq<Maps>, reverse: bool, a: nat)
    requires CrossAll(ms, reverse, a).Some?
    ensures CrossAll(ms, reverse, a).value.room == 0 <==> MeetsEdge(ms, reverse, a)
  {
    if ms != [] {
      NoRoomExactlyAtEdge(ms[1..], reverse, Cross(ms[0], reverse, a).value.adr);
    }
  }

  // ---------------------------------------------------------------- the bus tree

  /** For each bus: the bus its bridge device sits on, its depth, and the windows of its bridge. */
  datatype Topology = Topology(up: map<nat, Option<nat>>, depth: map<nat, nat>,
                               mapsUp: map<nat, Maps>, mapsDown: map<nat, Maps>)

  /** `chain` leads from `bot` up to, not including, its ancestor `top`. */
  ghost predicate Chain(t: Topology, bot: nat, top: nat, chain: seq<nat>) {
    && top in t.depth && bot in t.depth && t.depth[bot] == t.depth[top] + |chain|
    && (if chain == [] then bot == top else chain[0] == bot)
    && (forall i :: 0 <= i < |chain| ==>
          && chain[i] in t.up && chain[i] in t.mapsUp && chain[i] in t.mapsDown && chain[i] != top
          && t.up[chain[i]] == Some(if i + 1 < |chain| then chain[i + 1] else top))
  }

  /** `chain` leads from `bot` all the way up and does not meet `top`. */
  ghost predicate Unconnected(t: Topology, bot: nat, top: nat, chain: seq<nat>) {
    && chain != [] && chain[0] == bot
    && (forall i :: 0 <= i < |chain| ==>
          chain[i] != top && chain[i] in t.up && t.up[chain[i]] == if i + 1 < |chain| then Some(chain[i + 1]) else None)
  }

  lemma ChainUp(t: Topology, bot: nat, top: nat, chain: seq<nat>, i: nat)
    requires Chain(t, bot, top, chain) && i < |chain|
    ensures chain[i] in t.up && t.up[chain[i]] == Some(if i + 1 < |chain| then chain[i + 1] else top)
  {
  }

  lemma UnconnectedUp(t: Topology, bot: nat, top: nat, chain: seq<nat>, i: nat)
    requires Unconnected(t, bot, top, chain) && i < |chain|
    ensures chain[i] in t.up && t.up[chain[i]] == (if i + 1 < |chain| then Some(chain[i + 1]) else None)
  {
  }

  /** The windows used on a bus: those towards the root for upward plain and downward reversed requests. */
  function Select(t: Topology, b: nat, dir: bool, reverse: bool): Maps
    requires b in t.mapsUp && b in t.mapsDown
  {
    if dir == reverse then t.mapsUp[b] else t.mapsDown[b]
  }

  /** The windows met from `from` to `to`, in the order they are met. */
  ghost function Route(t: Topology, chain: seq<nat>, dir: bool, reverse: bool): seq<Maps>
    requires forall b :: b in chain ==> b in t.mapsUp && b in t.mapsDown
  {
    if chain == [] then []
    else if dir then Route(t, chain[1..], dir, reverse) + [Select(t, chain[0], dir, reverse)]
    else [Select(t, chain[0], dir, reverse)] + Route(t, chain[1..], dir, reverse)
  }

  /** One bridge crossed by scanning its table. */
  method CrossBridge(m: Maps, reverse: bool, a: nat, sz: nat) returns (ok: bool, dst: nat, sz': nat)
    ensures ok <==> Cross(m, reverse, a).Some?
    ensures ok ==> Cross(m, reverse, a).value.adr == dst
    ensures ok ==> sz' == (if m.OneToOne? then sz else Min(Cross(m, reverse, a).value.room, sz))
    ensures !ok ==> sz' == 0 && dst == a
  {
    dst, sz' := a, sz;
    if m.OneToOne? { return true, dst, sz'; }
    if m.NoBridge? { return false, dst, 0; }
    var i := 0;
    while i < |m.windows|
      invariant 0 <= i <= |m.windows|
      invariant Lookup(m.windows, reverse, a) == Lookup(m.windows[i..], reverse, a)
    {
      var w := m.windows[i];
      var lo, to := Base(w, reverse), Base(w, !reverse);
      if lo <= dst && dst <= lo + (w.size - 1) {
        if lo + (w.size - 1) - dst < sz' {
          sz' := lo + (w.size - 1) - dst;
        }
        return true, dst - lo + to, sz';
      }
      i := i + 1;
    }
    return false, dst, 0;
  }

  /** The buses of the path, bottom up, put into the order in which the request meets them. */
  method CollectPath(t: Topology, bot: nat, top: nat, dir: bool, levels: nat,
                     ghost chain: seq<nat>, ghost connected: bool)
    returns (path: array<nat>, ok: bool)
    requires connected ==> Chain(t, bot, top, chain) && levels == |chain| < MAX_LEVELS
    requires !connected ==> !dir && Unconnected(t, bot, top, chain) && |chain| <= MAX_LEVELS
    ensures fresh(path) && path.Length == MAX_LEVELS && ok == connected
    ensures ok ==> forall k :: 0 <= k < levels ==> path[k] == chain[if dir then levels - 1 - k else k]
  {
    path := new nat[MAX_LEVELS];
    var i, b := 0, Some(bot);
    while b.Some? && b.value != top
      invariant 0 <= i <= |chain|
      invariant b == if i < |chain| then Some(chain[i]) else if connected then Some(top) else None
      invariant forall k :: 0 <= k < i ==> path[if dir then levels - 1 - k else k] == chain[k]
      decreases |chain| - i
    {
      assert i < |chain| && chain[i] == b.value;
      if connected { ChainUp(t, bot, top, chain, i); } else { UnconnectedUp(t, bot, top, chain, i); }
      if dir {
        path[levels - 1 - i] := b.value;
      } else {
        path[i] := b.value;
      }
      i := i + 1;
      b := t.up[b.value];
    }
    ok := b.Some?;
    if connected {
      forall k | 0 <= k < levels ensures path[k] == chain[if dir then levels - 1 - k else k] {
        var j := if dir then levels - 1 - k else k;
        assert path[if dir then levels - 1 - j else j] == chain[j];
      }
    }
  }

  lemma {:induction false} RouteAt(t: Topology, chain: seq<nat>, dir: bool, reverse: bool, k: nat)
    requires forall b :: b in chain ==> b in t.mapsUp && b in t.mapsDown
    requires k < |chain|
    ensures |Route(t, chain, dir, reverse)| == |chain|
    ensures Route(t, chain, dir, reverse)[k] == Select(t, chain[if dir then |chain| - 1 - k else k], dir, reverse)
  {
    RouteLength(t, chain[1..], dir, reverse);
    if dir && k < |chain| - 1 {
      RouteAt(t, chain[1..], dir, reverse, k);
    } else if !dir && k > 0 {
      RouteAt(t, chain[1..], dir, reverse, k - 1);
    }
  }

  lemma {:induction false} RouteLength(t: Topology, chain: seq<nat>, dir: bool, reverse: bool)
    requires forall b :: b in chain ==> b in t.mapsUp && b in t.mapsDown
    ensures |Route(t, chain, dir, reverse)| == |chain|
  {
    if chain != [] { RouteLength(t, chain[1..], dir, reverse); }
  }

  /**
   Translates an address between two buses on one path to the root: the composition of the windows met,
   with the room left, or size 0 when some bridge has no window for it (or the path is too long).
   */
  method TranslateBus(t: Topology, from: nat, to: nat, reverse: bool, src: nat,
                      ghost chain: seq<nat>, ghost connected: bool)
    returns (sz: nat, dst: Option<nat>)
    requires from in t.depth && to in t.depth
    requires connected ==> if t.depth[from] > t.depth[to] then Chain(t, from, to, chain) else Chain(t, to, from, chain)
    requires !connected ==>
      t.depth[from] > t.depth[to] && Unconnected(t, from, to, chain) && |chain| <= MAX_LEVELS
    ensures !connected || |chain| >= MAX_LEVELS ==> sz == 0 && dst == None
    ensures connected && |chain| < MAX_LEVELS ==>
      var dir := t.depth[from] <= t.depth[to];
      match CrossAll(Route(t, chain, dir, reverse), reverse, src)
      case None => sz == 0 && dst.Some?
      case Some(i) => sz == i.room && dst == Some(i.adr)
  {
    if from == to {
      return NO_LIMIT, Some(src);
    }
    var dir := t.depth[from] <= t.depth[to];
    var bot, top := if dir then to else from, if dir then from else to;
    var levels := t.depth[bot] - t.depth[top];
    if levels >= MAX_LEVELS { return 0, None; }
    var path, ok := CollectPath(t, bot, top, dir, levels, chain, connected);
    if !ok { return 0, None; }
    ghost var route := Route(t, chain, dir, reverse);
    RouteLength(t, chain, dir, reverse);
    forall k | 0 <= k < levels
      ensures path[k] in t.mapsUp && path[k] in t.mapsDown && route[k] == Select(t, path[k], dir, reverse)
    {
      RouteAt(t, chain, dir, reverse, k);
    }
    var d;
    sz, d := CrossPath(t, path, levels, dir, reverse, src, route);
    dst := Some(d);
  }

  /** The loop over the bridges of the path. */
  method CrossPath(t: Topology, path: array<nat>, levels: nat, dir: bool, reverse: bool, src: nat,
                   ghost route: seq<Maps>)
    returns (sz: nat, d: nat)
    requires levels <= path.Length && levels == |route|
    requires forall k :: 0 <= k < levels ==>
      path[k] in t.mapsUp && path[k] in t.mapsDown && route[k] == Select(t, path[k], dir, reverse)
    ensures match CrossAll(route, reverse, src)
      case None => sz == 0
      case Some(i) => sz == i.room && d == i.adr
  {
    hide Select;
    sz, d := NO_LIMIT, src;
    var i := 0;
    while i < levels
      invariant 0 <= i <= levels
      invariant CrossAll(route[..i], reverse, src) == Some(Image(d, sz)) && sz <= NO_LIMIT
    {
      ghost var m := route[i];
      assert route[..i + 1] == route[..i] + [m];
      CrossAppend(route[..i], m, reverse, src);
      var ok;
      ok, d, sz := CrossBridge(Select(t, path[i], dir, reverse), reverse, d, sz);
      if !ok {
        CrossFails(route, i + 1, reverse, src);
        return 0, d;
      }
      i := i + 1;
    }
    assert route[..levels] == route;
  }

  lemma {:induction false} CrossFails(ms: seq<Maps>, i: nat, reverse: bool, a: nat)
    requires i <= |ms| && CrossAll(ms[..i], reverse, a) == None
    ensures CrossAll(ms, reverse, a) == None
    decreases i
  {
    if i > 0 {
      assert ms[..i][1..] == ms[1..][..i - 1];
      match Cross(ms[0], reverse, a)
      case None =>
      case Some(j) => CrossFails(ms[1..], i - 1, reverse, j.adr);
    }
  }

  // ---------------------------------------------------------------- requests of a device

  const CPUMEM_TO_DMA := 0
  const CPUMEM_FROM_DMA := 1
  const DMAMEM_TO_CPU := 2
  const DMAMEM_FROM_CPU := 3

  /** Requests that go from the root bus down to the device's bus. */
  predicate Downward(options: nat) { options == CPUMEM_TO_DMA || options == DMAMEM_FROM_CPU }

  /** Lowest bit clear: the tables are read backwards. */
  predicate Reversed(options: nat) { options % 2 == 0 }

  function Opposite(options: nat): nat {
    if options == CPUMEM_TO_DMA then CPUMEM_FROM_DMA
    else if options == CPUMEM_FROM_DMA then CPUMEM_TO_DMA
    else if options == DMAMEM_TO_CPU then DMAMEM_FROM_CPU
    else DMAMEM_TO_CPU
  }

  /** What a device's request gives: `chain` leads from the device's bus to the root bus. */
  ghost function Requested(t: Topology, chain: seq<nat>, options: nat, a: nat): Option<Image>
    requires forall b :: b in chain ==> b in t.mapsUp && b in t.mapsDown
  {
    CrossAll(Route(t, chain, Downward(options), Reversed(options)), Reversed(options), a)
  }

  ghost predicate RequestMeetsEdge(t: Topology, chain: seq<nat>, options: nat, a: nat)
    requires forall b :: b in chain ==> b in t.mapsUp && b in t.mapsDown
  {
    MeetsEdge(Route(t, chain, Downward(options), Reversed(options)), Reversed(options), a)
  }

  // ---------------------------------------------------------------- which table moves an address, and which way

  /** `r` is where `a` goes from the `fromAdr` to the `toAdr` side of its window, the rest of which is its room. */
  ghost predicate Forth(m: Maps, a: nat, r: Option<Image>) {
    match m
    case OneToOne => r == Some(Image(a, 0xffff_ffff))
    case NoBridge => r == None
    case Table(ws) =>
      && (forall w :: w in ws && w.fromAdr <= a < w.fromAdr + w.size ==>
            r == Some(Image(a - w.fromAdr + w.toAdr, w.fromAdr + w.size - 1 - a)))
      && ((forall w :: w in ws ==> !(w.fromAdr <= a < w.fromAdr + w.size)) ==> r == None)
  }

  /** The same from the `toAdr` to the `fromAdr` side. */
  ghost predicate Back(m: Maps, a: nat, r: Option<Image>) {
    match m
    case OneToOne => r == Some(Image(a, 0xffff_ffff))
    case NoBridge => r == None
    case Table(ws) =>
      && (forall w :: w in ws && w.toAdr <= a < w.toAdr + w.size ==>
            r == Some(Image(a - w.toAdr + w.fromAdr, w.toAdr + w.size - 1 - a)))
      && ((forall w :: w in ws ==> !(w.toAdr <= a < w.toAdr + w.size)) ==> r == None)
  }

  lemma CrossMoves(m: Maps, reverse: bool, a: nat)
    requires Proper(m)
    ensures if reverse then Back(m, a, CrossAll([m], reverse, a)) else Forth(m, a, CrossAll([m], reverse, a))
  {
    assert [m][1..] == [];
    if m.Table? {
      forall w | w in m.windows && Covers(w, reverse, a) ensures Lookup(m.windows, reverse, a) == Some(w) {
        LookupFinds(m.windows, reverse, a, w);
      }
      hide Apart, Lookup;
    }
  }

  /** Over one bridge: each option's table, and the side of its windows on which the address comes in. */
  lemma OneBridge(t: Topology, b: nat, a: nat)
    requires b in t.mapsUp && b in t.mapsDown && Proper(t.mapsUp[b]) && Proper(t.mapsDown[b])
    ensures Forth(t.mapsUp[b], a, Requested(t, [b], CPUMEM_FROM_DMA, a))
    ensures Back(t.mapsUp[b], a, Requested(t, [b], CPUMEM_TO_DMA, a))
    ensures Forth(t.mapsDown[b], a, Requested(t, [b], DMAMEM_FROM_CPU, a))
    ensures Back(t.mapsDown[b], a, Requested(t, [b], DMAMEM_TO_CPU, a))
  {
    hide Forth, Back, Proper, CrossAll;
    CrossMoves(t.mapsUp[b], false, a);
    CrossMoves(t.mapsUp[b], true, a);
    CrossMoves(t.mapsDown[b], false, a);
    CrossMoves(t.mapsDown[b], true, a);
    RouteOfOne(t, b, true, true);
    RouteOfOne(t, b, true, false);
    RouteOfOne(t, b, false, true);
    RouteOfOne(t, b, false, false);
  }

  lemma RouteOfOne(t: Topology, b: nat, dir: bool, reverse: bool)
    requires b in t.mapsUp && b in t.mapsDown
    ensures Route(t, [b], dir, reverse) == [Select(t, b, dir, reverse)]
  {
    assert [b][1..] == [];
    assert Route(t, [], dir, reverse) == [];
  }

  /** Where the next translation starts. */
  function Landing(first: Option<Image>): nat { if first.Some? then first.value.adr else 0 }

  /** One translation after another, with the smaller room of the two. */
  function Joined(first: Option<Image>, second: Option<Image>): Option<Image> {
    if first.None? || second.None? then None
    else Some(Image(second.value.adr, Min(first.value.room, second.value.room)))
  }

  /** Over several: requests towards the root cross the device's own bus first, requests from the root last. */
  lemma ManyBridges(t: Topology, chain: seq<nat>, options: nat, a: nat)
    requires chain != [] && options <= 3 && forall b :: b in chain ==> b in t.mapsUp && b in t.mapsDown
    ensures options == CPUMEM_FROM_DMA || options == DMAMEM_TO_CPU ==>
      var first := Requested(t, [chain[0]], options, a);
      Requested(t, chain, options, a) == Joined(first, Requested(t, chain[1..], options, Landing(first)))
    ensures options == CPUMEM_TO_DMA || options == DMAMEM_FROM_CPU ==>
      var first := Requested(t, chain[1..], options, a);
      Requested(t, chain, options, a) == Joined(first, Requested(t, [chain[0]], options, Landing(first)))
  {
    var dir, rev := Downward(options), Reversed(options);
    var m, rest := Select(t, chain[0], dir, rev), Route(t, chain[1..], dir, rev);
    RouteOfOne(t, chain[0], dir, rev);
    assert Route(t, chain, dir, rev) == if dir then rest + [m] else [m] + rest;
    hide CrossAll, Route, Select, Joined, Landing;
    if dir { LastBridge(rest, m, rev, a); } else { FirstBridge(m, rest, rev, a); }
  }

  lemma FirstBridge(m: Maps, rest: seq<Maps>, reverse: bool, a: nat)
    ensures var first := CrossAll([m], reverse, a);
      CrossAll([m] + rest, reverse, a) == Joined(first, CrossAll(rest, reverse, Landing(first)))
  {
    assert [m][1..] == [] && ([m] + rest)[1..] == rest;
    if Cross(m, reverse, a).Some? { RoomIsLimited(rest, reverse, Cross(m, reverse, a).value.adr); }
  }

  lemma LastBridge(rest: seq<Maps>, m: Maps, reverse: bool, a: nat)
    ensures var first := CrossAll(rest, reverse, a);
      CrossAll(rest + [m], reverse, a) == Joined(first, CrossAll([m], reverse, Landing(first)))
  {
    assert [m][1..] == [];
    CrossAppend(rest, m, reverse, a);
  }

  lemma {:induction false} RoomIsLimited(ms: seq<Maps>, reverse: bool, a: nat)
    ensures CrossAll(ms, reverse, a).Some? ==> CrossAll(ms, reverse, a).value.room <= NO_LIMIT
  {
    if ms != [] && Cross(ms[0], reverse, a).Some? {
      RoomIsLimited(ms[1..], reverse, Cross(ms[0], reverse, a).value.adr);
    }
  }

  /** A request answered by size 0 although it was translated, and one answered by size 0 because it was not. */
  lemma SizeZeroIsAmbiguous(t: Topology, chain: seq<nat>)
    requires t == Topology(map[1 := Some(0)], map[0 := 0, 1 := 1],
                           map[1 := Table([Window(0, 256, 16)])], map[1 := OneToOne])
    requires chain == [1]
    ensures Chain(t, 1, 0, chain) && (forall b :: b in chain ==> b in t.mapsUp && b in t.mapsDown)
    ensures Requested(t, chain, CPUMEM_FROM_DMA, 15) == Some(Image(271, 0))
    ensures Requested(t, chain, CPUMEM_FROM_DMA, 16) == None
  {
    var ws := [Window(0, 256, 16)];
    assert chain[1..] == [] && ws[1..] == [];
    assert Route(t, [], false, false) == [];
    assert Route(t, chain, false, false) == [Table(ws)];
    assert [Table(ws)][1..] == [];
    assert CrossAll([], false, 271) == Some(Image(271, NO_LIMIT));
  }

  method TranslateDev(t: Topology, root: nat, bus: nat, options: nat, src: nat, ghost chain: seq<nat>)
    returns (sz: nat, dst: Option<nat>)
    requires Chain(t, bus, root, chain)
    ensures |chain| >= MAX_LEVELS ==> sz == 0 && dst == None
    ensures |chain| < MAX_LEVELS ==>
      match Requested(t, chain, options, src)
      case None => sz == 0 && dst.Some?
      case Some(i) => sz == i.room && dst == Some(i.adr)
    ensures |chain| < MAX_LEVELS ==>
      (sz == 0 <==> Requested(t, chain, options, src).None? || RequestMeetsEdge(t, chain, options, src))
  {
    if |chain| < MAX_LEVELS && Requested(t, chain, options, src).Some? {
      NoRoomExactlyAtEdge(Route(t, chain, Downward(options), Reversed(options)), Reversed(options), src);
    }
    if Downward(options) {
      sz, dst := TranslateBus(t, root, bus, Reversed(options), src, chain, true);
    } else {
      sz, dst := TranslateBus(t, bus, root, Reversed(options), src, chain, true);
    }
  }

  lemma {:induction false} RouteBackwards(t: Topology, chain: seq<nat>, dir: bool, reverse: bool)
    requires forall b :: b in chain ==> b in t.mapsUp && b in t.mapsDown
    ensures Route(t, chain, !dir, !reverse) == Backwards(Route(t, chain, dir, reverse))
  {
    if chain != [] {
      RouteBackwards(t, chain[1..], dir, reverse);
      var rest, m := Route(t, chain[1..], dir, reverse), Select(t, chain[0], dir, reverse);
      if dir {
        BackwardsOfAppended(rest, m);
      } else {
        assert ([m] + rest)[1..] == rest;
      }
    }
  }

  lemma {:induction false} BackwardsOfAppended(ms: seq<Maps>, m: Maps)
    ensures Backwards(ms + [m]) == [m] + Backwards(ms)
  {
    if ms == [] {
      assert [m][1..] == [];
      assert ms + [m] == [m];
    } else {
      assert (ms + [m])[1..] == ms[1..] + [m];
      BackwardsOfAppended(ms[1..], m);
    }
  }

  /**
   A translated address goes back to where it came from by the opposite option, with the same room; and every
   address within the room translates by the same offset.
   */
  lemma OppositeUndoes(t: Topology, chain: seq<nat>, options: nat, a: nat, k: nat)
    requires forall b :: b in chain ==> b in t.mapsUp && b in t.mapsDown && Proper(t.mapsUp[b]) && Proper(t.mapsDown[b])
    requires options <= DMAMEM_FROM_CPU && a < SPACE && Requested(t, chain, options, a).Some?
    ensures var i := Requested(t, chain, options, a).value;
      && Requested(t, chain, Opposite(options), i.adr) == Some(Image(a, i.room))
      && (k <= i.room ==>
            && Requested(t, chain, options, a + k).Some?
            && Requested(t, chain, options, a + k).value.adr == i.adr + k)
  {
    hide Proper, Cross, CrossAll, Route, Backwards;
    var dir, rev := Downward(options), Reversed(options);
    var route := Route(t, chain, dir, rev);
    RouteBackwards(t, chain, dir, rev);
    RouteIsProper(t, chain, dir, rev);
    CrossAllBack(route, rev, a);
    if k <= CrossAll(route, rev, a).value.room {
      CrossAllShifts(route, rev, a, k);
    }
  }

  lemma {:induction false} RouteIsProper(t: Topology, chain: seq<nat>, dir: bool, reverse: bool)
    requires forall b :: b in chain ==> b in t.mapsUp && b in t.mapsDown && Proper(t.mapsUp[b]) && Proper(t.mapsDown[b])
    ensures forall m :: m in Route(t, chain, dir, reverse) ==> Proper(m)
  {
    hide Proper;
    if chain != [] {
      RouteIsProper(t, chain[1..], dir, reverse);
      assert chain[0] in chain;
    }
  }
}
