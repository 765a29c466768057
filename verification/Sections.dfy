/**
 Placing the sections of an object file: one pass adds up the memory a kind of section needs, another
 numbers the sections, and a third, restarting its scan after every section, gives each its address.
 */
module Sections {
  import opened Bytes

  datatype Kind = Text | Const | Eh | Data | Bss | Other

  /** What is done to a placed section: read from the file, cleared, or neither (an error). */
  datatype Fill = Load | Zero | Neither

  datatype Sect = Sect(kind: Kind, size: nat, alignment: nat, fill: Fill, loadOrder: int, base: Option<nat>)

  /**
   The next multiple of a power-of-two alignment; 0 and 1 mean none. Masking with `alignment - 1` is the
   remainder, and with its complement the multiple below.
   */
  function Align(offset: nat, alignment: nat): (r: nat)
    ensures offset <= r && (alignment > 1 ==> r % alignment == 0 && r < offset + alignment)
    ensures alignment <= 1 || offset % alignment == 0 ==> r == offset
  {
    if alignment > 1 && offset % alignment != 0 then
      AlignedAbove(offset + alignment, alignment);
      (offset + alignment) - (offset + alignment) % alignment
    else offset
  }

  lemma AlignedAbove(x: nat, a: nat)
    requires a > 1 && x >= a
    ensures (x - x % a) % a == 0 && x - a < x - x % a <= x
    ensures (x - a) % a == x % a
  {
    var q := x / a;
    assert x == q * a + x % a;
    assert x - x % a == q * a;
    MultipleMod(q, a);
    assert x - a == (q - 1) * a + x % a;
    ModUnique(x - a, q - 1, x % a, a);
  }

  lemma MultipleMod(q: nat, a: nat)
    requires a > 0
    ensures (q * a) % a == 0
  {
    ModUnique(q * a, q, 0, a);
  }

  lemma ModUnique(x: int, q: int, r: nat, a: nat)
    requires x == q * a + r && r < a
    ensures x % a == r
  {
    var q', r' := x / a, x % a;
    assert x == q' * a + r';
    var d := q - q';
    assert d * a == r' - r by { assert d * a == q * a - q' * a; }
    if d >= 1 { TimesAtLeast(d, a); }
    if d <= -1 { TimesAtLeast(-d, a); }
  }

  lemma TimesAtLeast(d: int, a: nat)
    requires d >= 1
    ensures d * a >= a
  {
    assert d * a == (d - 1) * a + a;
  }

  // ---------------------------------------------------------------- masks

  function Pow2(k: nat): (r: nat)
    ensures r > 0
  {
    if k == 0 then 1 else 2 * Pow2(k - 1)
  }

  /** `x & m`, bit by bit. */
  function BitAnd(x: nat, m: nat): nat
    decreases m
  {
    if m == 0 then 0 else (x % 2) * (m % 2) + 2 * BitAnd(x / 2, m / 2)
  }

  /** The remainder by twice `a` is the lowest bit and twice the remainder of the rest by `a`. */
  lemma RemainderStep(x: nat, a: nat)
    requires a > 0
    ensures x % (2 * a) == x % 2 + 2 * (x / 2 % a)
  {
    var q, r := x / 2 / a, x / 2 % a;
    assert x / 2 == q * a + r;
    assert x == 2 * (x / 2) + x % 2;
    assert 2 * (q * a) == q * (2 * a);
    ModUnique(x, q, x % 2 + 2 * r, 2 * a);
  }

  lemma BitAndOdd(x: nat, m: nat)
    ensures BitAnd(x, 2 * m + 1) == x % 2 + 2 * BitAnd(x / 2, m)
  {
    assert (2 * m + 1) % 2 == 1 && (2 * m + 1) / 2 == m;
  }

  lemma EmptyMask(x: nat)
    ensures BitAnd(x, 0) == x % 1
  {
  }

  lemma MaskStep(x: nat, a: nat)
    requires a > 0 && BitAnd(x / 2, a - 1) == x / 2 % a
    ensures BitAnd(x, 2 * a - 1) == x % (2 * a)
  {
    hide BitAnd;
    BitAndOdd(x, a - 1);
    RemainderStep(x, a);
    assert 2 * (a - 1) + 1 == 2 * a - 1;
  }

  /** Masking with one less than a power of two is the remainder. */
  lemma {:induction false} MaskIsRemainder(x: nat, k: nat)
    ensures BitAnd(x, Pow2(k) - 1) == x % Pow2(k)
    decreases k
  {
    hide BitAnd;
    if k == 0 {
      EmptyMask(x);
    } else {
      var a := Pow2(k - 1);
      assert Pow2(k) == 2 * a;
      hide Pow2;
      MaskIsRemainder(x / 2, k - 1);
      MaskStep(x, a);
    }
  }

  /** Masking with its complement in `w` bits takes the remainder away, and all bits from `w` up. */
  lemma {:induction false} ComplementClears(x: nat, k: nat, w: nat)
    requires k < w
    ensures Pow2(k) < Pow2(w) && BitAnd(x, Pow2(w) - Pow2(k)) == x % Pow2(w) - x % Pow2(k)
    decreases k
  {
    hide BitAnd;
    if k == 0 {
      MaskIsRemainder(x, w);
      assert Pow2(w) == 2 * Pow2(w - 1);
    } else {
      var a, b := Pow2(k - 1), Pow2(w - 1);
      assert Pow2(k) == 2 * a && Pow2(w) == 2 * b;
      hide Pow2;
      ComplementClears(x / 2, k - 1, w - 1);
      BitAndEven(x, b - a);
      RemainderStep(x, a);
      RemainderStep(x, b);
    }
  }

  lemma BitAndEven(x: nat, m: nat)
    ensures BitAnd(x, 2 * m) == 2 * BitAnd(x / 2, m)
  {
    assert 2 * m % 2 == 0 && 2 * m / 2 == m;
  }

  lemma {:induction false} PowSum(j: nat, k: nat)
    ensures Pow2(j + k) == Pow2(j) * Pow2(k)
  {
    if j > 0 {
      assert Pow2(j) == 2 * Pow2(j - 1) && Pow2(j + k) == 2 * Pow2(j - 1 + k);
      hide Pow2;
      PowSum(j - 1, k);
      TwiceProduct(Pow2(j - 1), Pow2(k));
    }
  }

  lemma TwiceProduct(a: nat, b: nat)
    ensures 2 * (a * b) == (2 * a) * b
  {
  }

  /** Wrapping in a wider word does not show in the lower bits. */
  lemma WrapKeepsLowBits(x: nat, m: nat, w: nat)
    requires m <= w
    ensures x % Pow2(w) % Pow2(m) == x % Pow2(m)
  {
    PowSum(w - m, m);
    var c, a := Pow2(w - m), Pow2(m);
    hide Pow2;
    RemainderOfRemainder(x, c, a);
  }

  lemma RemainderOfRemainder(x: nat, c: nat, a: nat)
    requires c > 0 && a > 0 && c * a > 0
    ensures x % (c * a) % a == x % a
  {
    var n := c * a;
    var q, r := x / n, x % n;
    var q', r' := r / a, r % a;
    assert x == q * n + r;
    assert r == q' * a + r';
    assert q * (c * a) == (q * c) * a;
    assert (q * c + q') * a == (q * c) * a + q' * a;
    ModUnique(x, q * c + q', r', a);
  }

  /** The code as it is written, with an alignment of `m` bits and an offset of `w`: the complement has only `m`. */
  function AlignMasked(offset: nat, alignment: nat, m: nat, w: nat): nat
    requires alignment <= Pow2(m)
  {
    if alignment > 1 && BitAnd(offset, alignment - 1) != 0 then
      BitAnd((offset + alignment) % Pow2(w), Pow2(m) - alignment)
    else offset
  }

  lemma MaskedValue(offset: nat, k: nat, m: nat, w: nat)
    requires k < m <= w
    ensures Pow2(k) < Pow2(m)
    ensures AlignMasked(offset, Pow2(k), m, w) ==
      if offset % Pow2(k) == 0 then offset else (offset + Pow2(k)) % Pow2(m) - (offset + Pow2(k)) % Pow2(k)
  {
    var x := offset + Pow2(k);
    MaskIsRemainder(offset, k);
    ComplementClears(x % Pow2(w), k, m);
    WrapKeepsLowBits(x, m, w);
    WrapKeepsLowBits(x, k, w);
    hide Pow2, BitAnd;
  }

  /**
   For powers of two it is the alignment above exactly when the offset is aligned already or the sum fits the width of
   the alignment, which is 32 bits in the source whatever the width of offsets. Otherwise the bits above are lost.
   */
  lemma AlignIsMaskedExactly(offset: nat, k: nat, m: nat, w: nat)
    requires k < m <= w && offset < Pow2(w)
    ensures Pow2(k) < Pow2(m)
    ensures AlignMasked(offset, Pow2(k), m, w) == Align(offset, Pow2(k)) <==>
      offset % Pow2(k) == 0 || offset + Pow2(k) < Pow2(m)
    ensures offset % Pow2(k) != 0 ==> AlignMasked(offset, Pow2(k), m, w) < Pow2(m)
  {
    MaskedValue(offset, k, m, w);
    hide AlignMasked, Pow2;
    FitsExactly(offset + Pow2(k), Pow2(m));
  }

  lemma FitsExactly(x: nat, a: nat)
    requires a > 0
    ensures x % a < a && (x % a == x <==> x < a)
  {
  }

  lemma Doubled(k: nat, v: nat)
    requires Pow2(k) == v
    ensures Pow2(2 * k) == v * v
  {
    PowSum(k, k);
  }

  lemma TwoTo32()
    ensures Pow2(1) == 2 && Pow2(32) == 0x1_0000_0000
  {
    assert Pow2(1) == 2;
    hide Pow2;
    Doubled(1, 2);
    Doubled(2, 4);
    Doubled(4, 16);
    Doubled(8, 256);
    Doubled(16, 65536);
  }

  /** With offsets of 64 bits, the first odd offset above 4 GB goes back to the start. */
  lemma AlignLosesUpperHalf()
    ensures 2 <= Pow2(32)
    ensures AlignMasked(0x1_0000_0001, 2, 32, 64) == 2 && Align(0x1_0000_0001, 2) == 0x1_0000_0002
  {
    hide Pow2, BitAnd, AlignMasked;
    TwoTo32();
    MaskedValue(0x1_0000_0001, 1, 32, 64);
  }

  // ---------------------------------------------------------------- where sections go

  predicate Takes(s: Sect, kind: Kind) { s.kind == kind }

  /** How many sections of the kind come before index `i`. */
  function Rank(ss: seq<Sect>, kind: Kind, i: nat): nat
    requires i <= |ss|
  {
    if i == 0 then 0 else Rank(ss, kind, i - 1) + if Takes(ss[i - 1], kind) then 1 else 0
  }

  /** Where the sections of the kind before index `i` end when laid out one after the other, each aligned. */
  function EndBefore(ss: seq<Sect>, kind: Kind, i: nat): nat
    requires i <= |ss|
    decreases i, 0
  {
    if i == 0 then 0
    else if Takes(ss[i - 1], kind) then Offset(ss, kind, i - 1) + ss[i - 1].size
    else EndBefore(ss, kind, i - 1)
  }

  function Offset(ss: seq<Sect>, kind: Kind, i: nat): nat
    requires i < |ss|
    decreases i, 1
  {
    Align(EndBefore(ss, kind, i), ss[i].alignment)
  }

  lemma {:induction false} EndsGrow(ss: seq<Sect>, kind: Kind, i: nat, j: nat)
    requires i <= j <= |ss|
    ensures EndBefore(ss, kind, i) <= EndBefore(ss, kind, j)
    ensures Rank(ss, kind, i) <= Rank(ss, kind, j)
    ensures Rank(ss, kind, i) == Rank(ss, kind, j) ==> EndBefore(ss, kind, i) == EndBefore(ss, kind, j)
    decreases j - i
  {
    if i < j { EndsGrow(ss, kind, i, j - 1); }
  }

  /** Sections of a kind are aligned, come in order, do not overlap, and end where the sizing pass says. */
  lemma Disjoint(ss: seq<Sect>, kind: Kind, i: nat, j: nat)
    requires i < j < |ss| && Takes(ss[i], kind) && Takes(ss[j], kind)
    ensures Offset(ss, kind, i) + ss[i].size <= Offset(ss, kind, j)
    ensures ss[j].alignment > 1 ==> Offset(ss, kind, j) % ss[j].alignment == 0
    ensures Offset(ss, kind, j) + ss[j].size <= EndBefore(ss, kind, |ss|)
  {
    EndsGrow(ss, kind, i + 1, j);
    EndsGrow(ss, kind, j + 1, |ss|);
  }

  lemma LastEndsAtSize(ss: seq<Sect>, kind: Kind, i: nat)
    requires i < |ss| && Takes(ss[i], kind) && forall j :: i < j < |ss| ==> !Takes(ss[j], kind)
    ensures Offset(ss, kind, i) + ss[i].size == EndBefore(ss, kind, |ss|)
  {
    for j := i + 1 to |ss|
      invariant EndBefore(ss, kind, j) == EndBefore(ss, kind, i + 1)
    {
    }
  }

  // ---------------------------------------------------------------- the passes

  /** The sizing pass. */
  method SectionSize(ss: array<Sect>, kind: Kind) returns (size: nat)
    ensures size == EndBefore(ss[..], kind, ss.Length)
  {
    size := 0;
    for i := 0 to ss.Length
      invariant size == EndBefore(ss[..], kind, i)
    {
      if Takes(ss[i], kind) {
        size := Align(size, ss[i].alignment) + ss[i].size;
      }
    }
  }

  /** Same sections, whatever their load order and address. */
  predicate SameSect(s: Sect, t: Sect) {
    s == t.(loadOrder := s.loadOrder, base := s.base)
  }

  ghost predicate SameSects(ss: seq<Sect>, tt: seq<Sect>) {
    |ss| == |tt| && forall i :: 0 <= i < |ss| ==> SameSect(ss[i], tt[i])
  }

  lemma {:induction false} SamePlaces(ss: seq<Sect>, tt: seq<Sect>, kind: Kind, i: nat)
    requires SameSects(ss, tt) && i <= |ss|
    ensures Rank(ss, kind, i) == Rank(tt, kind, i) && EndBefore(ss, kind, i) == EndBefore(tt, kind, i)
    ensures i < |ss| ==> Offset(ss, kind, i) == Offset(tt, kind, i)
  {
    assert i < |ss| ==> SameSect(ss[i], tt[i]);
    if i > 0 {
      assert SameSect(ss[i - 1], tt[i - 1]);
      SamePlaces(ss, tt, kind, i - 1);
    }
  }

  ghost predicate Ordered(ss: seq<Sect>, kind: Kind) {
    forall i :: 0 <= i < |ss| && Takes(ss[i], kind) ==> ss[i].loadOrder == Rank(ss, kind, i)
  }

  /** The numbering pass: unlinked sections are numbered as they come. */
  method LinkOrder(ss: array<Sect>, kind: Kind)
    modifies ss
    ensures SameSects(old(ss[..]), ss[..]) && Ordered(ss[..], kind)
    ensures forall i :: 0 <= i < ss.Length && !Takes(ss[i], kind) ==> ss[i] == old(ss[i])
    ensures forall i :: 0 <= i < ss.Length ==> ss[i].base == old(ss[i].base)
  {
    var order := 0;
    ghost var was := ss[..];
    for n := 0 to ss.Length
      invariant order == Rank(was, kind, n)
      invariant forall i :: 0 <= i < ss.Length ==> SameSect(was[i], ss[i]) && ss[i].base == was[i].base
      invariant forall i :: 0 <= i < n && Takes(ss[i], kind) ==> ss[i].loadOrder == Rank(was, kind, i)
      invariant forall i :: 0 <= i < ss.Length && (i >= n || !Takes(ss[i], kind)) ==> ss[i] == was[i]
    {
      if Takes(ss[n], kind) {
        ss[n] := ss[n].(loadOrder := order);
        order := order + 1;
      }
    }
    forall i | 0 <= i < ss.Length ensures Rank(was, kind, i) == Rank(ss[..], kind, i) {
      SamePlaces(was, ss[..], kind, i);
    }
  }

  /** What the loader needs of a section: it can be filled. `handler` is the outcome of reading section `i`. */
  predicate Fillable(s: Sect, i: nat, handler: nat -> bool) {
    s.fill.Zero? || (s.fill.Load? && handler(i))
  }

  /** The sections of the kind before `q` have their address; `q` is just behind the one placed last. */
  ghost predicate PlacedUpTo(ss: seq<Sect>, kind: Kind, base: nat, handler: nat -> bool, q: nat, order: nat, end: nat) {
    && q <= |ss| && order == Rank(ss, kind, q) && end == EndBefore(ss, kind, q)
    && forall i :: 0 <= i < q && Takes(ss[i], kind) ==>
         ss[i].base == Some(base + Offset(ss, kind, i)) && Fillable(ss[i], i, handler)
  }

  /** The next section in load order is the next one of the kind, so its offset is the running one, aligned. */
  lemma NextInOrder(ss: seq<Sect>, kind: Kind, base: nat, handler: nat -> bool, q: nat, order: nat, end: nat, i: nat)
    requires PlacedUpTo(ss, kind, base, handler, q, order, end) && Ordered(ss, kind)
    requires i < |ss| && Takes(ss[i], kind) && ss[i].loadOrder == order
    ensures q <= i && Align(end, ss[i].alignment) == Offset(ss, kind, i)
    ensures forall k :: q <= k < i ==> !Takes(ss[k], kind)
  {
    if i < q { EndsGrow(ss, kind, i + 1, q); }
    EndsGrow(ss, kind, q, i);
    forall k | q <= k < i ensures !Takes(ss[k], kind) {
      EndsGrow(ss, kind, q, k);
      EndsGrow(ss, kind, k + 1, i);
    }
  }

  lemma PlacedNext(ss: seq<Sect>, kind: Kind, base: nat, handler: nat -> bool, q: nat, order: nat, end: nat, i: nat)
    requires PlacedUpTo(ss, kind, base, handler, q, order, end) && Ordered(ss, kind)
    requires i < |ss| && Takes(ss[i], kind) && ss[i].loadOrder == order && Fillable(ss[i], i, handler)
    ensures var tt := ss[i := ss[i].(base := Some(base + Offset(ss, kind, i)))];
      && SameSects(ss, tt) && Ordered(tt, kind)
      && PlacedUpTo(tt, kind, base, handler, i + 1, order + 1, Offset(ss, kind, i) + ss[i].size)
  {
    NextInOrder(ss, kind, base, handler, q, order, end, i);
    var tt := ss[i := ss[i].(base := Some(base + Offset(ss, kind, i)))];
    assert SameSects(ss, tt);
    forall k | 0 <= k <= |ss| ensures SamePlacesAt(ss, tt, kind, k) { SamePlaces(ss, tt, kind, k); }
    assert SamePlacesAt(ss, tt, kind, i + 1) && SamePlacesAt(ss, tt, kind, i);
    assert Rank(ss, kind, i) == order;
    forall k | 0 <= k < i + 1 && Takes(tt[k], kind)
      ensures tt[k].base == Some(base + Offset(tt, kind, k)) && Fillable(tt[k], k, handler)
    {
      assert SamePlacesAt(ss, tt, kind, k);
    }
    forall k | 0 <= k < |tt| && Takes(tt[k], kind) ensures tt[k].loadOrder == Rank(tt, kind, k) {
      assert SamePlacesAt(ss, tt, kind, k);
    }
  }

  ghost predicate SamePlacesAt(ss: seq<Sect>, tt: seq<Sect>, kind: Kind, k: nat)
    requires k <= |ss| == |tt|
  {
    && Rank(ss, kind, k) == Rank(tt, kind, k) && EndBefore(ss, kind, k) == EndBefore(tt, kind, k)
    && (k < |ss| ==> Offset(ss, kind, k) == Offset(tt, kind, k))
  }

  /** Once a whole scan finds no section with the next number, none of the kind is left. */
  lemma NothingLeft(ss: seq<Sect>, kind: Kind, base: nat, handler: nat -> bool, q: nat, order: nat, end: nat)
    requires PlacedUpTo(ss, kind, base, handler, q, order, end) && Ordered(ss, kind)
    requires forall k :: 0 <= k < |ss| && Takes(ss[k], kind) ==> ss[k].loadOrder != order
    ensures forall i :: q <= i < |ss| ==> !Takes(ss[i], kind)
    ensures end == EndBefore(ss, kind, |ss|)
  {
    var i := q;
    while i < |ss|
      invariant q <= i <= |ss| && Rank(ss, kind, i) == order
      invariant forall k :: q <= k < i ==> !Takes(ss[k], kind)
    {
      i := i + 1;
    }
    EndsGrow(ss, kind, q, |ss|);
  }

  /**
   The placing pass. It terminates, succeeds exactly when every section of the kind can be filled, and then each
   has its own aligned place; the last one ends where the sizing pass said.
   */
  method Loader(ss: array<Sect>, kind: Kind, base: nat, handler: nat -> bool) returns (ok: bool, end: nat)
    requires Ordered(ss[..], kind) && forall i :: 0 <= i < ss.Length ==> ss[i].size > 0
    modifies ss
    ensures SameSects(old(ss[..]), ss[..])
    ensures ok <==> forall i :: 0 <= i < ss.Length && Takes(ss[i], kind) ==> Fillable(ss[i], i, handler)
    ensures ok ==> end == EndBefore(ss[..], kind, ss.Length)
    ensures ok ==> forall i :: 0 <= i < ss.Length && Takes(ss[i], kind) ==>
      ss[i].base == Some(base + Offset(ss[..], kind, i))
    ensures forall i :: 0 <= i < ss.Length && !Takes(ss[i], kind) ==> ss[i] == old(ss[i])
    ensures Ordered(ss[..], kind)
  {
    hide Ordered, PlacedUpTo, SameSects, Offset, EndBefore;
    var node, order := 0, 0;
    var first := true;
    end := 0;
    ghost var q := 0;
    StartPlaced(ss[..], kind, base, handler);
    while node < ss.Length
      invariant 0 <= node <= ss.Length && 0 <= order && 0 <= q <= ss.Length
      invariant first ==> end == 0
      invariant SameSects(old(ss[..]), ss[..]) && Ordered(ss[..], kind)
      invariant forall i :: 0 <= i < ss.Length && !Takes(ss[i], kind) ==> ss[i] == old(ss[i])
      invariant PlacedUpTo(ss[..], kind, base, handler, q, order, end)
      invariant forall k :: 0 <= k < node && Takes(ss[k], kind) ==> ss[k].loadOrder != order
      invariant forall i :: 0 <= i < ss.Length ==> ss[i].size > 0
      decreases ss.Length + 1 - q, ss.Length - node
    {
      var s := ss[node];
      if s.size != 0 && Takes(s, kind) && s.loadOrder == order {
        ghost var was, reached := ss[..], end;
        NextInOrder(was, kind, base, handler, q, order, end, node);
        if !first {
          end := Align(end, s.alignment);
        }
        first := false;
        ss[node] := s.(base := Some(base + end));
        assert ss[..] == was[node := s.(base := Some(base + end))];
        if !Fillable(s, node, handler) {
          ss[node] := s.(base := None);
          assert ss[..] == was[node := s.(base := None)];
          StillSame(old(ss[..]), was, node, None);
          StillOrdered(was, kind, node, None);
          ok := false;
          return;
        }
        PlacedNext(was, kind, base, handler, q, order, reached, node);
        StillSame(old(ss[..]), was, node, Some(base + end));
        end := end + s.size;
        order := order + 1;
        q := node + 1;
        node := 0;
      } else {
        node := node + 1;
      }
    }
    NothingLeft(ss[..], kind, base, handler, q, order, end);
    AllPlaced(ss[..], kind, base, handler, q, order, end);
    ok := true;
  }

  lemma StartPlaced(ss: seq<Sect>, kind: Kind, base: nat, handler: nat -> bool)
    ensures PlacedUpTo(ss, kind, base, handler, 0, 0, 0) && SameSects(ss, ss)
  {
  }

  lemma StillSame(ss: seq<Sect>, tt: seq<Sect>, i: nat, base: Option<nat>)
    requires SameSects(ss, tt) && i < |tt|
    ensures SameSects(ss, tt[i := tt[i].(base := base)])
  {
    assert SameSect(ss[i], tt[i]);
  }

  lemma StillOrdered(ss: seq<Sect>, kind: Kind, i: nat, base: Option<nat>)
    requires Ordered(ss, kind) && i < |ss|
    ensures Ordered(ss[i := ss[i].(base := base)], kind)
  {
    var tt := ss[i := ss[i].(base := base)];
    OrderedKept(ss, tt, kind);
  }

  /** The order of a kind's sections depends on nothing but them. */
  lemma OrderedKept(ss: seq<Sect>, tt: seq<Sect>, kind: Kind)
    requires Ordered(ss, kind) && SameSects(ss, tt)
    requires forall i :: 0 <= i < |ss| && Takes(ss[i], kind) ==> tt[i].loadOrder == ss[i].loadOrder
    ensures Ordered(tt, kind)
  {
    hide Rank;
    forall i | 0 <= i < |tt| && Takes(tt[i], kind) ensures tt[i].loadOrder == Rank(tt, kind, i) {
      assert SameSect(ss[i], tt[i]);
      SamePlaces(ss, tt, kind, i);
    }
  }

  lemma AllPlaced(ss: seq<Sect>, kind: Kind, base: nat, handler: nat -> bool, q: nat, order: nat, end: nat)
    requires PlacedUpTo(ss, kind, base, handler, q, order, end)
    requires forall i :: q <= i < |ss| ==> !Takes(ss[i], kind)
    ensures forall i :: 0 <= i < |ss| && Takes(ss[i], kind) ==>
      ss[i].base == Some(base + Offset(ss, kind, i)) && Fillable(ss[i], i, handler)
  {
  }

  /** Section `i` lies in `[base, base + size)`, aligned, before the later ones of its kind; the last one ends it. */
  ghost predicate WellPlaced(ss: seq<Sect>, kind: Kind, base: nat, size: nat, i: nat)
    requires i < |ss|
  {
    && ss[i].base.Some? && base <= ss[i].base.value && ss[i].base.value + ss[i].size <= base + size
    && (ss[i].alignment > 1 ==> (ss[i].base.value - base) % ss[i].alignment == 0)
    && (forall j :: i < j < |ss| && Takes(ss[j], kind) && ss[j].base.Some? ==>
          ss[i].base.value + ss[i].size <= ss[j].base.value)
    && ((forall j :: i < j < |ss| ==> !Takes(ss[j], kind)) ==> ss[i].base.value + ss[i].size == base + size)
  }

  /** Sizing, numbering and placing agree: the sections fit exactly into the memory that was asked for. */
  method PlaceKind(ss: array<Sect>, kind: Kind, base: nat, handler: nat -> bool) returns (size: nat, ok: bool)
    requires forall i :: 0 <= i < ss.Length ==> ss[i].size > 0
    modifies ss
    ensures SameSects(old(ss[..]), ss[..])
    ensures ok <==> forall i :: 0 <= i < ss.Length && Takes(ss[i], kind) ==> Fillable(ss[i], i, handler)
    ensures ok ==> forall i :: 0 <= i < ss.Length && Takes(ss[i], kind) ==> WellPlaced(ss[..], kind, base, size, i)
    ensures forall i :: 0 <= i < ss.Length && !Takes(ss[i], kind) ==> ss[i] == old(ss[i])
  {
    hide Rank, Align, EndBefore, Offset, Ordered;
    ghost var was := ss[..];
    size := SectionSize(ss, kind);
    LinkOrder(ss, kind);
    ghost var numbered := ss[..];
    SamePlaces(was, numbered, kind, ss.Length);
    var end;
    ok, end := Loader(ss, kind, base, handler);
    SameAgain(was, numbered, ss[..]);
    if ok {
      SamePlaces(numbered, ss[..], kind, ss.Length);
      forall i | 0 <= i < ss.Length && Takes(ss[i], kind) ensures WellPlaced(ss[..], kind, base, size, i) {
        PlacedWell(ss[..], kind, base, i);
      }
    }
  }

  lemma SameAgain(a: seq<Sect>, b: seq<Sect>, c: seq<Sect>)
    requires SameSects(a, b) && SameSects(b, c)
    ensures SameSects(a, c)
  {
    forall i | 0 <= i < |a| ensures SameSect(a[i], c[i]) { assert SameSect(a[i], b[i]) && SameSect(b[i], c[i]); }
  }

  lemma PlacedWell(ss: seq<Sect>, kind: Kind, base: nat, i: nat)
    requires i < |ss| && Takes(ss[i], kind)
    requires forall k :: 0 <= k < |ss| && Takes(ss[k], kind) ==> ss[k].base == Some(base + Offset(ss, kind, k))
    ensures WellPlaced(ss, kind, base, EndBefore(ss, kind, |ss|), i)
  {
    EndsGrow(ss, kind, i + 1, |ss|);
    forall j | i < j < |ss| && Takes(ss[j], kind) ensures ss[i].base.value + ss[i].size <= ss[j].base.value {
      Disjoint(ss, kind, i, j);
    }
    if forall j :: i < j < |ss| ==> !Takes(ss[j], kind) { LastEndsAtSize(ss, kind, i); }
  }

  // ---------------------------------------------------------------- all kinds

  ghost predicate Numbered(ss: seq<Sect>, kinds: set<Kind>) { forall k :: k in kinds ==> Ordered(ss, k) }

  /** Every section of these kinds is well placed in the memory of its kind. */
  ghost predicate PlacedAll(ss: seq<Sect>, kinds: set<Kind>, base: Kind -> nat) {
    forall i :: 0 <= i < |ss| && ss[i].kind in kinds ==>
      WellPlaced(ss, ss[i].kind, base(ss[i].kind), EndBefore(ss, ss[i].kind, |ss|), i)
  }

  /** Placing one kind leaves the places of another as they were. */
  lemma WellPlacedKept(ss: seq<Sect>, tt: seq<Sect>, kind: Kind, base: nat, i: nat)
    requires i < |ss| && SameSects(ss, tt) && Takes(ss[i], kind)
    requires forall j :: 0 <= j < |ss| && Takes(ss[j], kind) ==> tt[j] == ss[j]
    requires WellPlaced(ss, kind, base, EndBefore(ss, kind, |ss|), i)
    ensures WellPlaced(tt, kind, base, EndBefore(tt, kind, |tt|), i)
  {
    hide EndBefore;
    SamePlaces(ss, tt, kind, |ss|);
    assert forall j :: 0 <= j < |ss| ==> SameSect(ss[j], tt[j]);
    assert forall j :: 0 <= j < |ss| ==> (Takes(ss[j], kind) <==> Takes(tt[j], kind));
  }

  /** Every section of these kinds can be filled. */
  ghost predicate CanFill(ss: seq<Sect>, kinds: set<Kind>, handler: nat -> bool) {
    forall i :: 0 <= i < |ss| && ss[i].kind in kinds ==> Fillable(ss[i], i, handler)
  }

  lemma SameCanFill(ss: seq<Sect>, tt: seq<Sect>, kinds: set<Kind>, handler: nat -> bool)
    requires SameSects(ss, tt)
    ensures CanFill(ss, kinds, handler) <==> CanFill(tt, kinds, handler)
  {
    assert forall i :: 0 <= i < |ss| ==> SameSect(ss[i], tt[i]);
  }

  lemma CanFillMore(ss: seq<Sect>, kinds: set<Kind>, kind: Kind, handler: nat -> bool)
    ensures CanFill(ss, kinds + {kind}, handler) <==> CanFill(ss, kinds, handler) && CanFill(ss, {kind}, handler)
    ensures CanFill(ss, {}, handler)
  {
  }

  /** Numbers one kind more; `orig` are the sections as they were at first. */
  method NumberNext(ss: array<Sect>, kind: Kind, ghost done: set<Kind>, ghost orig: seq<Sect>)
    requires Numbered(ss[..], done) && kind !in done && SameSects(orig, ss[..])
    modifies ss
    ensures SameSects(orig, ss[..]) && Numbered(ss[..], done + {kind})
  {
    hide Ordered, Rank;
    ghost var was := ss[..];
    LinkOrder(ss, kind);
    SameAgain(orig, was, ss[..]);
    forall k | k in done ensures Ordered(ss[..], k) {
      assert forall i :: 0 <= i < |was| ==> SameSect(was[i], ss[..][i]);
      OrderedKept(was, ss[..], k);
    }
  }

  /** Places one kind more. */
  method PlaceNext(ss: array<Sect>, kind: Kind, base: Kind -> nat, handler: nat -> bool,
                   ghost done: set<Kind>, ghost all: set<Kind>, ghost orig: seq<Sect>)
    returns (ok: bool)
    requires Numbered(ss[..], all) && kind in all && kind !in done && PlacedAll(ss[..], done, base)
    requires SameSects(orig, ss[..]) && forall i :: 0 <= i < |orig| ==> orig[i].size > 0
    modifies ss
    ensures SameSects(orig, ss[..]) && Numbered(ss[..], all)
    ensures ok <==> CanFill(orig, {kind}, handler)
    ensures ok ==> PlacedAll(ss[..], done + {kind}, base)
  {
    hide Ordered, EndBefore, Offset, WellPlaced;
    ghost var was := ss[..];
    assert forall i :: 0 <= i < |was| ==> SameSect(orig[i], was[i]);
    var end;
    ok, end := Loader(ss, kind, base(kind), handler);
    ghost var now := ss[..];
    SameAgain(orig, was, now);
    SameCanFill(orig, now, {kind}, handler);
    assert forall i :: 0 <= i < |was| ==> SameSect(was[i], now[i]);
    forall k | k in all ensures Ordered(now, k) {
      if k != kind { OrderedKept(was, now, k); }
    }
    if ok {
      forall i | 0 <= i < |now| && now[i].kind in done + {kind}
        ensures WellPlaced(now, now[i].kind, base(now[i].kind), EndBefore(now, now[i].kind, |now|), i)
      {
        if now[i].kind == kind {
          PlacedWell(now, kind, base(kind), i);
        } else {
          WellPlacedKept(was, now, now[i].kind, base(now[i].kind), i);
        }
      }
    }
  }

  const LOADED: set<Kind> := {Text, Const, Eh, Data}

  /**
   Numbers and then places text, constants, exception handling and data, each kind in its own memory. All is well
   exactly when every section can be filled, and then every one of them is in its own aligned place.
   */
  method LoadSections(ss: array<Sect>, base: Kind -> nat, handler: nat -> bool) returns (ok: bool)
    requires forall i :: 0 <= i < ss.Length ==> ss[i].size > 0
    modifies ss
    ensures SameSects(old(ss[..]), ss[..])
    ensures ok <==> CanFill(ss[..], LOADED, handler)
    ensures ok ==> PlacedAll(ss[..], LOADED, base)
  {
    hide Numbered, PlacedAll, CanFill, SameSects;
    SameSelf(ss[..]);
    ghost var none: set<Kind> := {};
    assert none + {Text} == {Text} && {Text} + {Const} == {Text, Const};
    assert {Text, Const} + {Eh} == {Text, Const, Eh} && {Text, Const, Eh} + {Data} == LOADED;
    NothingDone(ss[..], base);
    ghost var was := ss[..];
    CanFillMore(was, {}, Text, handler);
    CanFillMore(was, {Text}, Const, handler);
    CanFillMore(was, {Text, Const}, Eh, handler);
    CanFillMore(was, {Text, Const, Eh}, Data, handler);
    NumberNext(ss, Text, {}, was);
    NumberNext(ss, Const, {Text}, was);
    NumberNext(ss, Eh, {Text, Const}, was);
    NumberNext(ss, Data, {Text, Const, Eh}, was);
    NothingDone(ss[..], base);
    ok := PlaceNext(ss, Text, base, handler, {}, LOADED, was);
    if ok {
      ok := PlaceNext(ss, Const, base, handler, {Text}, LOADED, was);
    }
    if ok {
      ok := PlaceNext(ss, Eh, base, handler, {Text, Const}, LOADED, was);
    }
    if ok {
      ok := PlaceNext(ss, Data, base, handler, {Text, Const, Eh}, LOADED, was);
    }
    SameCanFill(was, ss[..], LOADED, handler);
  }

  lemma SameSelf(ss: seq<Sect>)
    ensures SameSects(ss, ss)
  {
  }

  lemma NothingDone(ss: seq<Sect>, base: Kind -> nat)
    ensures Numbered(ss, {}) && PlacedAll(ss, {}, base)
  {
  }

  /** Sections of all kinds keep apart when the memories of the kinds do. */
  lemma AllDisjoint(ss: seq<Sect>, kinds: set<Kind>, base: Kind -> nat, i: nat, j: nat)
    requires PlacedAll(ss, kinds, base) && i < j < |ss| && ss[i].kind in kinds && ss[j].kind in kinds
    requires forall k, l :: k in kinds && l in kinds && k != l ==>
      base(k) + EndBefore(ss, k, |ss|) <= base(l) || base(l) + EndBefore(ss, l, |ss|) <= base(k)
    ensures ss[i].base.Some? && ss[j].base.Some?
    ensures ss[i].base.value + ss[i].size <= ss[j].base.value || ss[j].base.value + ss[j].size <= ss[i].base.value
  {
    hide EndBefore;
    assert WellPlaced(ss, ss[i].kind, base(ss[i].kind), EndBefore(ss, ss[i].kind, |ss|), i);
    assert WellPlaced(ss, ss[j].kind, base(ss[j].kind), EndBefore(ss, ss[j].kind, |ss|), j);
  }
}
