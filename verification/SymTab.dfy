/**
 The global symbol table: a hash table of chains. Looking a name up must give what a search through all live
 symbols in the order of their insertion would give, whatever the hash does and however many buckets there are.
 */
module SymTab {
  import opened Bytes

  const WORD := 0x1_0000_0000

  /** A symbol is a node of its own; two may have the same name. */
  datatype Sym = Sym(id: nat, name: seq<byte>, value: nat)

  function HashOf(name: seq<byte>): nat {
    if name == [] then 5381 else HashOf(name[..|name| - 1]) * 33 + name[|name| - 1]
  }

  /** The accumulation wraps at every step; the result is the hash modulo 2^32 all the same. */
  method SymbolHash(name: seq<byte>) returns (h: nat)
    ensures h == HashOf(name) % WORD
  {
    h := 5381;
    for i := 0 to |name|
      invariant h == HashOf(name[..i]) % WORD
    {
      assert name[..i + 1][..i] == name[..i];
      WrapStep(HashOf(name[..i]), name[i]);
      h := (h * 33 + name[i]) % WORD;
    }
    assert name[..|name|] == name;
  }

  lemma WrapStep(h: nat, c: nat)
    ensures (h % WORD * 33 + c) % WORD == (h * 33 + c) % WORD
  {
    var q, r := h / WORD, h % WORD;
    AddWraps(r * 33 + c, 33 * q);
    assert h == WORD * q + r;
  }

  lemma AddWraps(x: nat, k: nat)
    ensures (x + WORD * k) % WORD == x % WORD
  {
    var q, r := x / WORD, x % WORD;
    assert x + WORD * k == WORD * (q + k) + r;
  }

  function Slot(name: seq<byte>, n: nat): (r: nat)
    requires n > 0
    ensures r < n
  {
    HashOf(name) % WORD % n
  }

  // ---------------------------------------------------------------- chains and the order of insertion

  /** The symbols of `live` that belong in bucket `k` of `n`, in the same order. */
  function Bucket(live: seq<Sym>, n: nat, k: nat): seq<Sym>
    requires n > 0
  {
    if live == [] then []
    else Bucket(live[..|live| - 1], n, k) + if Slot(live[|live| - 1].name, n) == k then [live[|live| - 1]] else []
  }

  /** The earliest symbol of that name. */
  function First(live: seq<Sym>, name: seq<byte>): Option<Sym> {
    if live == [] then None
    else if First(live[..|live| - 1], name).Some? then First(live[..|live| - 1], name)
    else if live[|live| - 1].name == name then Some(live[|live| - 1])
    else None
  }

  /** All but that symbol. */
  function Without(live: seq<Sym>, s: Sym): seq<Sym> {
    if live == [] then [] else Without(live[..|live| - 1], s) + if live[|live| - 1] == s then [] else [live[|live| - 1]]
  }

  lemma {:induction false} FirstInBucket(live: seq<Sym>, n: nat, name: seq<byte>)
    requires n > 0
    ensures First(Bucket(live, n, Slot(name, n)), name) == First(live, name)
  {
    if live != [] {
      var front, last := live[..|live| - 1], live[|live| - 1];
      FirstInBucket(front, n, name);
      var b := Bucket(front, n, Slot(name, n));
      assert (b + [last])[..|b|] == b && b + [] == b;
    }
  }

  lemma {:induction false} BucketWithout(live: seq<Sym>, n: nat, k: nat, s: Sym)
    requires n > 0
    ensures Bucket(Without(live, s), n, k) == Without(Bucket(live, n, k), s)
  {
    if live != [] {
      var front, last := live[..|live| - 1], live[|live| - 1];
      BucketWithout(front, n, k, s);
      var w, b := Without(front, s), Bucket(front, n, k);
      assert (w + [last])[..|w|] == w;
      assert (b + [last])[..|b|] == b;
      assert w + [] == w && b + [] == b;
    }
  }

  lemma {:induction false} WithoutAbsent(live: seq<Sym>, s: Sym)
    requires s !in live
    ensures Without(live, s) == live
  {
    if live != [] {
      var front, last := live[..|live| - 1], live[|live| - 1];
      assert live == front + [last];
      assert s !in front && s != last;
      WithoutAbsent(front, s);
    }
  }

  lemma {:induction false} WithoutMembers(live: seq<Sym>, s: Sym, t: Sym)
    ensures t in Without(live, s) <==> t in live && t != s
  {
    if live != [] {
      var front, last := live[..|live| - 1], live[|live| - 1];
      WithoutMembers(front, s, t);
      assert live == front + [last];
    }
  }

  lemma {:induction false} BucketMembers(live: seq<Sym>, n: nat, k: nat, t: Sym)
    requires n > 0
    ensures t in Bucket(live, n, k) <==> t in live && Slot(t.name, n) == k
  {
    if live != [] {
      var front, last := live[..|live| - 1], live[|live| - 1];
      BucketMembers(front, n, k, t);
      assert live == front + [last];
    }
  }

  // ---------------------------------------------------------------- the table

  class Table {
    var buckets: seq<seq<Sym>>
    ghost var live: seq<Sym>   // the symbols in the table, oldest first

    ghost predicate Valid()
      reads this
    {
      |buckets| > 0 && forall k :: 0 <= k < |buckets| ==> buckets[k] == Bucket(live, |buckets|, k)
    }

    constructor (n: nat)
      requires n > 0
      ensures Valid() && live == [] && |buckets| == n
    {
      buckets := seq(n, _ => []);
      live := [];
    }

    /** The symbol's node must not be on a chain yet. */
    method Insert(s: Sym)
      requires Valid() && s !in live
      modifies this
      ensures Valid() && live == old(live) + [s] && |buckets| == |old(buckets)|
    {
      var h := SymbolHash(s.name);
      var k := h % |buckets|;
      buckets := buckets[k := buckets[k] + [s]];
      assert (live + [s])[..|live|] == live;
      live := live + [s];
    }

    /** Finds exactly what a linear search in insertion order would. */
    method Find(name: seq<byte>) returns (r: Option<Sym>)
      requires Valid()
      ensures r == First(live, name)
    {
      var h := SymbolHash(name);
      var bucket := buckets[h % |buckets|];
      FirstInBucket(live, |buckets|, name);
      for i := 0 to |bucket|
        invariant First(bucket[..i], name) == None
      {
        assert bucket[..i + 1][..i] == bucket[..i];
        if bucket[i].name == name {
          FirstStays(bucket, i + 1, name);
          return Some(bucket[i]);
        }
      }
      assert bucket[..|bucket|] == bucket;
      return None;
    }

    /** Takes a symbol off its chain if it is on one. */
    method Extract(s: Sym)
      requires Valid()
      modifies this
      ensures Valid() && live == Without(old(live), s) && |buckets| == |old(buckets)|
    {
      var k := Slot(s.name, |buckets|);
      BucketMembers(live, |buckets|, k, s);
      if s in buckets[k] {
        buckets := buckets[k := Without(buckets[k], s)];
      } else {
        WithoutAbsent(buckets[k], s);
      }
      forall j | 0 <= j < |buckets| ensures buckets[j] == Bucket(Without(live, s), |buckets|, j) {
        BucketWithout(live, |buckets|, j, s);
        if j != k {
          BucketMembers(live, |buckets|, j, s);
          WithoutAbsent(Bucket(live, |buckets|, j), s);
        }
      }
      live := Without(live, s);
    }

    /** All global symbols of an object. */
    method AddObject(table: seq<Sym>)
      requires Valid() && forall i :: 0 <= i < |table| ==> table[i] !in live
      requires forall i, j :: 0 <= i < j < |table| ==> table[i] != table[j]
      modifies this
      ensures Valid() && live == old(live) + table && |buckets| == |old(buckets)|
    {
      for i := 0 to |table|
        invariant Valid() && live == old(live) + table[..i] && |buckets| == |old(buckets)|
      {
        Insert(table[i]);
      }
      assert table[..|table|] == table;
    }

    method EraseObject(table: seq<Sym>)
      requires Valid()
      modifies this
      ensures Valid() && live == WithoutAll(old(live), table) && |buckets| == |old(buckets)|
    {
      for i := 0 to |table|
        invariant Valid() && live == WithoutAll(old(live), table[..i]) && |buckets| == |old(buckets)|
      {
        assert table[..i + 1][..i] == table[..i];
        Extract(table[i]);
      }
      assert table[..|table|] == table;
    }
  }

  lemma {:induction false} FirstStays(live: seq<Sym>, i: nat, name: seq<byte>)
    requires i <= |live| && First(live[..i], name).Some?
    ensures First(live, name) == First(live[..i], name)
    decreases |live| - i
  {
    if i == |live| {
      assert live[..i] == live;
    } else {
      assert live[..i + 1][..i] == live[..i];
      FirstStays(live, i + 1, name);
    }
  }

  function WithoutAll(live: seq<Sym>, table: seq<Sym>): seq<Sym> {
    if table == [] then live else Without(WithoutAll(live, table[..|table| - 1]), table[|table| - 1])
  }

  /** What is found is live, has the name, and no live symbol of that name is older. */
  lemma {:induction false} FirstIsEarliest(live: seq<Sym>, name: seq<byte>) returns (i: nat)
    ensures First(live, name).None? <==> forall s :: s in live ==> s.name != name
    ensures First(live, name).Some? ==>
      i < |live| && live[i] == First(live, name).value && live[i].name == name
      && forall j :: 0 <= j < i ==> live[j].name != name
  {
    i := 0;
    if live != [] {
      var front, last := live[..|live| - 1], live[|live| - 1];
      i := FirstIsEarliest(front, name);
      assert live == front + [last];
      if First(front, name).None? {
        i := |live| - 1;
        assert forall j :: 0 <= j < i ==> live[j] in front;
      }
    }
  }

  /** Erasing an object removes exactly its symbols. */
  lemma {:induction false} ErasedMembers(live: seq<Sym>, table: seq<Sym>, t: Sym)
    ensures t in WithoutAll(live, table) <==> t in live && t !in table
  {
    hide Without;
    if table != [] {
      var front, last := table[..|table| - 1], table[|table| - 1];
      ErasedMembers(live, front, t);
      WithoutMembers(WithoutAll(live, front), last, t);
      assert table == front + [last];
    }
  }
}
