/**
 The compressed stream: blocks of a two-byte big-endian length and a compressed piece, read through
 the cache and handed out in slices of any length.
 */
module ObjComp {
  import opened Bytes
  import opened FastLzFormat
  import opened FastLz
  import FastLzRoundTrip
  import FastLzCompress
  import opened ObjCache

  const COMP_NONE := 0
  const COMP_LZ77 := 1

  /** A block as stored, and the bytes it stands for. */
  datatype Block = Block(packed: seq<byte>, piece: seq<byte>)

  function Stored(b: Block): seq<byte>
    requires |b.packed| < 65536
  {
    [|b.packed| / 256, |b.packed| % 256] + b.packed
  }

  /** The block decodes to its piece whatever follows it in the cache, and both fit their buffers. */
  ghost predicate GoodBlock(compression: int, b: Block, cacheSize: nat, size: nat) {
    && 1 <= |b.packed| <= cacheSize && |b.packed| < 65536 && 1 <= |b.piece| <= size
    && (compression == COMP_NONE ==> b.piece == b.packed)
    && (compression == COMP_LZ77 ==> FastLzRoundTrip.CompressedForm(b.piece, b.packed))
  }

  function Layout(blocks: seq<Block>): seq<byte>
    requires forall b :: b in blocks ==> |b.packed| < 65536
  {
    if blocks == [] then [] else Stored(blocks[0]) + Layout(blocks[1..])
  }

  function LayoutSize(blocks: seq<Block>): nat {
    if blocks == [] then 0 else 2 + |blocks[0].packed| + LayoutSize(blocks[1..])
  }

  lemma {:induction false} LayoutHasSize(blocks: seq<Block>)
    requires forall b :: b in blocks ==> |b.packed| < 65536
    ensures |Layout(blocks)| == LayoutSize(blocks) && (LayoutSize(blocks) == 0 <==> blocks == [])
  {
    if blocks != [] {
      assert blocks[0] in blocks;
      LayoutHasSize(blocks[1..]);
    }
  }

  /** `rest` is what is left of the blocks after some of them. */
  predicate Tail(blocks: seq<Block>, rest: seq<Block>) {
    |rest| <= |blocks| && rest == blocks[|blocks| - |rest|..]
  }

  lemma LeftFits(sent: seq<byte>, rest: seq<byte>, all: seq<byte>, left: nat)
    requires all == sent + rest && |sent| + left <= |all|
    ensures left <= |rest|
  {
  }

  function Pieces(blocks: seq<Block>): seq<byte> {
    if blocks == [] then [] else blocks[0].piece + Pieces(blocks[1..])
  }

  class Comp {
    var cache: Cache?
    var fd: int
    var compression: int
    var offset: nat
    const size: nat
    var level: nat
    const buffer: array<byte>
    var read: SizeT
    ghost var blocks: seq<Block>   // the blocks from `offset` on

    constructor (size: nat)
      ensures this.size == size && cache == null && fresh(buffer) && buffer.Length == size
      ensures level == 0 && read == 0
    {
      cache, fd, compression, offset, level, read := null, NO_FD, COMP_LZ77, 0, 0, 0;
      this.size := size;
      buffer := new byte[size];
      blocks := [];
    }

    /** The file continues at `offset` with the blocks still to be read. */
    ghost predicate Streaming(files: map<int, seq<byte>>)
      reads this, cache, if cache != null then {cache.buffer} else {}
    {
      && cache != null && cache.Coherent(files) && cache.buffer != buffer
      && buffer.Length == size && level <= size
      && fd != NO_FD && fd in files && cache.size >= 2 && |files[fd]| + cache.size < SIZE_MAX
      && (forall b :: b in blocks ==> GoodBlock(compression, b, cache.size, size))
      && offset <= |files[fd]| && Layout(blocks) <= files[fd][offset..]
    }

    /** Where in the file the blocks end. */
    ghost function EndsAt(): nat
      reads this
    {
      offset + LayoutSize(blocks)
    }

    /** The blocks end where they did, at `end`, and are what is left of `start`. */
    ghost predicate Follows(end: nat, start: seq<Block>)
      reads this
    {
      EndsAt() == end && Tail(start, blocks)
    }

    lemma StartsHere()
      ensures Follows(EndsAt(), blocks)
    {
    }

    lemma FollowsFacts(end: nat, start: seq<Block>)
      requires Follows(end, start)
      ensures EndsAt() == end && Tail(start, blocks)
    {
    }

    lemma FollowsOn(end: nat, start: seq<Block>, here: seq<Block>)
      requires Follows(end, here) && Tail(start, here)
      ensures Follows(end, start)
    {
    }

    predicate KnownType()
      reads this`compression
    {
      compression == COMP_NONE || compression == COMP_LZ77
    }

    /** The buffered bytes and the pieces of the blocks to come. */
    ghost function Rest(): seq<byte>
      reads this, buffer
    {
      buffer[..Min(level, buffer.Length)] + Pieces(blocks)
    }

    /** What the stream still has to deliver; buffered bytes are lost once the cache serves another file. */
    ghost function Pending(): seq<byte>
      requires cache != null
      reads this, cache, buffer
    {
      if cache.fd == fd then Rest() else Pieces(blocks)
    }

    method Set(cache: Cache, fd: int, compression: int, offset: nat, ghost blocks: seq<Block>)
      modifies this
      ensures this.cache == cache && this.fd == fd && this.compression == compression && this.offset == offset
      ensures level == 0 && read == 0 && this.blocks == blocks
    {
      this.cache, this.fd, this.compression, this.offset := cache, fd, compression, offset;
      level, read := 0, 0;
      this.blocks := blocks;
    }

    /** Fetches the length and the bytes of the next block through the cache. */
    method FetchBlock(files: map<int, seq<byte>>, healthy: bool) returns (ok: bool, start: nat, n: nat)
      requires Streaming(files) && blocks != []
      modifies this`offset, cache, cache.buffer
      ensures healthy ==> ok
      ensures ok ==> cache.Coherent(files) && cache.fd == fd && n == |blocks[0].packed| && offset == old(offset) + 2
      ensures ok ==> start + n <= cache.buffer.Length && cache.buffer[start..start + n] == blocks[0].packed
    {
      hide Layout, FastLzRoundTrip.CompressedForm, Cache.Coherent;
      ghost var file, b := files[fd], blocks[0];
      assert b in blocks;
      FirstBlock(blocks, file, offset);
      var got;
      n := 0;
      ok, start, got := cache.Read(files, fd, offset, 2, healthy);
      if !ok { return; }
      assert cache.buffer[start] == file[offset] && cache.buffer[start + 1] == file[offset + 1] by {
        assert cache.buffer[start] == cache.buffer[start..start + 2][0];
        assert cache.buffer[start + 1] == cache.buffer[start..start + 2][1];
      }
      var blockSize := cache.buffer[start] * 256 + cache.buffer[start + 1] as int;
      offset := offset + 2;
      ok, start, got := cache.Read(files, fd, offset, blockSize, healthy);
      if !ok { return; }
      n := blockSize;
      if got != blockSize { ok := false; }
    }
  
    /** Turns the `n` cached bytes of block `b` into its piece. */
    method Unpack(start: nat, n: nat, ghost b: Block) returns (decompressed: nat)
      requires cache != null && cache.buffer != buffer && buffer.Length == size
      requires KnownType() && GoodBlock(compression, b, cache.size, size)
      requires start + n <= cache.buffer.Length && cache.buffer[start..start + n] == b.packed
      modifies buffer
      ensures 0 < decompressed <= size && buffer[..decompressed] == b.piece
    {
      hide FastLzRoundTrip.CompressedForm, Decode;
      if compression == COMP_NONE {
        forall i | 0 <= i < n { buffer[i] := cache.buffer[start + i]; }
        assert buffer[..n] == cache.buffer[start..start + n];
        decompressed := n;
      } else {
        var mem := cache.buffer[start..];
        assert mem == b.packed + mem[n..];
        FastLzRoundTrip.DecodeInvertsCompressedForm(b.piece, b.packed, mem[n..], size);
        var r := Decompress(mem, n, buffer, size);
        assert Reports(r, buffer[..], Done(b.piece));
        decompressed := r.n;
        assert buffer[..decompressed] == buffer[..][..decompressed];
      }
    }

    /** Replaces the buffer by the next block's piece. */
    method NextBlock(files: map<int, seq<byte>>, healthy: bool) returns (ok: bool)
      requires Streaming(files) && blocks != []
      modifies this`offset, this`level, this`blocks, buffer, cache, cache.buffer
      ensures healthy && KnownType() ==> ok
      ensures ok ==> Streaming(files) && cache.fd == fd && blocks == old(blocks)[1..]
      ensures ok ==> KnownType() && buffer[..level] == old(blocks)[0].piece && EndsAt() == old(EndsAt())
    {
      hide Layout, FastLzRoundTrip.CompressedForm, Cache.Coherent;
      assert blocks[0] in blocks;
      FirstBlock(blocks, files[fd], offset);
      var start, n;
      ok, start, n := FetchBlock(files, healthy);
      if !ok { return; }
      if !KnownType() { return false; }
      var decompressed := Unpack(start, n, blocks[0]);
      if decompressed == 0 { return false; }
      offset := offset + n;
      level := decompressed;
      blocks := blocks[1..];
    }

    /** Hands out the first `n` buffered bytes and moves the others to the front. */
    method TakeBuffered(dst: array<byte>, at: nat, n: nat)
      requires n <= level <= buffer.Length && at + n <= dst.Length && dst != buffer
      modifies this`level, this`read, buffer, dst
      ensures dst[..at + n] == old(dst[..at]) + old(buffer[..n])
      ensures level == old(level) - n && buffer[..level] == old(buffer[n..level])
      ensures read == Ahead(old(read), n)
    {
      forall i | 0 <= i < n { dst[at + i] := buffer[i]; }
      assert dst[..at + n] == old(dst[..at]) + old(buffer[..n]);
      forall i | 0 <= i < level - n { buffer[i] := buffer[n + i]; }
      level := level - n;
      read := (read + n) % SIZE_MAX;
    }

    /**
     Reads `length` bytes: the next slice of the concatenated pieces, however the blocks and the cache
     cut them. The counter counts exactly the bytes delivered (modulo its 32 bits).
     */
    method Read(files: map<int, seq<byte>>, dst: array<byte>, length: nat, healthy: bool) returns (ok: bool)
      requires cache != null ==> Streaming(files) && length <= |Pending()| && dst != cache.buffer
      requires dst != buffer && length <= dst.Length
      modifies this`offset, this`level, this`read, this`blocks, buffer, dst
      modifies if cache != null then {cache, cache.buffer} else {}
      ensures cache == null ==> !ok
      ensures cache != null && healthy && KnownType() ==> ok
      ensures ok ==> Streaming(files) && old(Pending()) == dst[..length] + Pending()
      ensures ok ==> Follows(old(EndsAt()), old(blocks))
      ensures ok ==> read == Ahead(old(read), length)
      ensures ok && length > 0 ==> cache.fd == fd || level == 0
    {
      hide GoodBlock, Layout, Pieces, Cache.Coherent;
      if cache == null { return false; }
      ghost var all := Pending();
      if fd != cache.fd { level := 0; }
      assert all == Rest() by { if level == 0 { assert buffer[..0] == []; } }
      ok := Collect(files, dst, length, healthy);
    }

    /** `at` bytes of the stream `all` are delivered and the rest is still to come. */
    ghost predicate Midway(files: map<int, seq<byte>>, dst: array<byte>, at: nat, all: seq<byte>,
                           count: SizeT, end: nat, start: seq<Block>)
      reads this, cache, if cache != null then {cache.buffer} else {}, buffer, dst
    {
      && Streaming(files) && (cache.fd == fd || level == 0) && dst != buffer && dst != cache.buffer
      && at <= dst.Length && all == dst[..at] + Rest()
      && read == Ahead(count, at) && Follows(end, start)
    }

    /** The copying loop. */
    method Collect(files: map<int, seq<byte>>, dst: array<byte>, length: nat, healthy: bool) returns (ok: bool)
      requires cache != null && Streaming(files) && length <= |Rest()| && (cache.fd == fd || level == 0)
      requires dst != buffer && dst != cache.buffer && length <= dst.Length
      modifies this`offset, this`level, this`read, this`blocks, buffer, dst, cache, cache.buffer
      ensures healthy && KnownType() ==> ok
      ensures ok ==> Midway(files, dst, length, old(Rest()), old(read), old(EndsAt()), old(blocks))
    {
      hide Streaming, Rest, Ahead, EndsAt, Follows, Midway;
      ghost var all, count, end, start := Rest(), read, EndsAt(), blocks;
      MidwayBegins(files, dst);
      var left: nat, at: nat := length, 0;
      ok := true;
      while left > 0
        invariant at + left == length && ok
        invariant Midway(files, dst, at, all, count, end, start)
        decreases left, |blocks|
      {
        var n;
        ok, n := CollectTurn(files, dst, at, left, healthy, all, count, end, start);
        if !ok { return; }
        at, left := at + n, left - n;
      }
    }

    lemma MidwayBegins(files: map<int, seq<byte>>, dst: array<byte>)
      requires Streaming(files) && (cache.fd == fd || level == 0) && dst != buffer && dst != cache.buffer
      ensures Midway(files, dst, 0, Rest(), read, EndsAt(), blocks)
    {
      hide Streaming, Rest, Ahead;
      Counted(read, 0, 0);
      assert dst[..0] + Rest() == Rest();
    }

    method CollectTurn(files: map<int, seq<byte>>, dst: array<byte>, at: nat, left: nat, healthy: bool,
                       ghost all: seq<byte>, ghost count: SizeT, ghost end: nat, ghost start: seq<Block>)
      returns (ok: bool, n: nat)
      requires cache != null && Midway(files, dst, at, all, count, end, start)
      requires at + left <= dst.Length && at + left <= |all|
      modifies this`offset, this`level, this`read, this`blocks, buffer, dst, cache, cache.buffer
      ensures healthy && KnownType() ==> ok
      ensures n <= left
      ensures ok ==> Midway(files, dst, at + n, all, count, end, start) && (n < left ==> |blocks| < old(|blocks|))
    {
      hide Streaming, Rest, Ahead, EndsAt, Follows, Tail;
      ghost var here := blocks;
      LeftFits(dst[..at], Rest(), all, left);
      FollowsFacts(end, start);
      ok, n := Round(files, dst, at, left, healthy);
      if !ok { return; }
      FollowsOn(end, start, here);
      Counted(count, at, n);
    }

    /** One turn: deliver what is there, and fetch a block when more is wanted. */
    method Round(files: map<int, seq<byte>>, dst: array<byte>, at: nat, left: nat, healthy: bool)
      returns (ok: bool, n: nat)
      requires cache != null && Streaming(files) && left <= |Rest()| && (cache.fd == fd || level == 0)
      requires dst != buffer && dst != cache.buffer && at + left <= dst.Length
      modifies this`offset, this`level, this`read, this`blocks, buffer, dst, cache, cache.buffer
      ensures healthy && KnownType() ==> ok
      ensures n <= left
      ensures ok ==> Streaming(files) && (cache.fd == fd || level == 0)
      ensures ok ==> dst[..at + n] + Rest() == old(dst[..at] + Rest()) && Follows(old(EndsAt()), old(blocks))
      ensures ok ==> read == Ahead(old(read), n) && (n < left ==> |blocks| < old(|blocks|))
    {
      hide Streaming, Rest;
      n := Deliver(files, dst, at, left);
      ok := true;
      if n < left {
        ghost var sent := dst[..at + n];
        ok := Refill(files, healthy);
        assert dst[..at + n] == sent;
      }
    }

    /** Delivers what the buffer has, at most `left` bytes. */
    method Deliver(ghost files: map<int, seq<byte>>, dst: array<byte>, at: nat, left: nat) returns (n: nat)
      requires Streaming(files) && at + left <= dst.Length && dst != buffer && dst != cache.buffer
      modifies this`level, this`read, buffer, dst
      ensures Streaming(files) && n == Min(left, old(level)) && level == old(level) - n
      ensures EndsAt() == old(EndsAt())
      ensures dst[..at + n] + Rest() == old(dst[..at] + Rest())
      ensures read == Ahead(old(read), n)
    {
      hide GoodBlock, Layout, Pieces;
      n := Min(left, level);
      ghost var sent, held, more := dst[..at], buffer[..level], Pieces(blocks);
      if n > 0 {
        TakeBuffered(dst, at, n);
        assert held == held[..n] + held[n..];
        assert buffer[..level] == held[n..] && dst[..at + n] == sent + held[..n];
        assert (sent + held[..n]) + (held[n..] + more) == sent + (held + more);
      }
    }

    /** With the buffer used up, the next block keeps the rest of the stream the same. */
    method Refill(files: map<int, seq<byte>>, healthy: bool) returns (ok: bool)
      requires Streaming(files) && level == 0 && Rest() != []
      modifies this`offset, this`level, this`blocks, buffer, cache, cache.buffer
      ensures healthy && KnownType() ==> ok
      ensures ok ==> Streaming(files) && cache.fd == fd && |blocks| < old(|blocks|)
      ensures ok ==> Rest() == old(Rest()) && Follows(old(EndsAt()), old(blocks))
    {
      hide GoodBlock, Layout;
      assert buffer[..level] == [];
      assert blocks != [];
      ok := NextBlock(files, healthy);
    }

    // -------------------------------------------------------------- when a read returns

    /**
     A read of any length from a stream whose blocks end the file. It returns exactly when the stream has that many
     bytes; otherwise it delivers all of them and then asks the cache for a block that is not there, which the cache
     never answers, however many `turns` its loop is given.
     */
    method ReadOrSpin(files: map<int, seq<byte>>, dst: array<byte>, length: nat, turns: nat) returns (returned: bool)
      requires cache != null && Streaming(files) && KnownType() && EndsAt() == |files[fd]|
      requires dst != buffer && dst != cache.buffer && length <= dst.Length
      modifies this`offset, this`level, this`read, this`blocks, buffer, dst, cache, cache.buffer
      ensures returned <==> length <= |old(Pending())|
      ensures returned ==> Streaming(files) && old(Pending()) == dst[..length] + Pending()
      ensures returned ==> read == Ahead(old(read), length) && EndsAt() == old(EndsAt())
      ensures !returned ==> dst[..|old(Pending())|] == old(Pending())
    {
      hide GoodBlock, Layout, Pieces, Cache.Coherent;
      ghost var all := Pending();
      if fd != cache.fd { level := 0; }
      assert all == Rest() by { if level == 0 { assert buffer[..0] == []; } }
      returned := CollectOrSpin(files, dst, length, turns);
    }

    method CollectOrSpin(files: map<int, seq<byte>>, dst: array<byte>, length: nat, turns: nat)
      returns (returned: bool)
      requires cache != null && fd in files && Streaming(files) && KnownType() && (cache.fd == fd || level == 0)
      requires EndsAt() == |files[fd]|
      requires dst != buffer && dst != cache.buffer && length <= dst.Length
      modifies this`offset, this`level, this`read, this`blocks, buffer, dst, cache, cache.buffer
      ensures returned <==> length <= |old(Rest())|
      ensures returned ==> Streaming(files) && (cache.fd == fd || level == 0) && EndsAt() == old(EndsAt())
      ensures returned ==> old(Rest()) == dst[..length] + Rest() && read == Ahead(old(read), length)
      ensures !returned ==> dst[..|old(Rest())|] == old(Rest())
    {
      hide Streaming, Rest, Ahead, EndsAt;
      Counted(read, 0, 0);
      var left: nat, at: nat := length, 0;
      ghost var all, count := Rest(), read;
      assert all == dst[..at] + all;
      while left > 0
        invariant at + left == length
        invariant Streaming(files) && (cache.fd == fd || level == 0) && EndsAt() == old(EndsAt())
        invariant all == dst[..at] + Rest() && read == Ahead(count, at)
        decreases left, |blocks|
      {
        var spun, n := RoundOrSpin(files, dst, at, left, turns);
        if spun {
          assert dst[..at + n] == all;
          return false;
        }
        Counted(count, at, n);
        at, left := at + n, left - n;
      }
      returned := true;
      assert |dst[..length] + Rest()| >= length;
    }

    /** One turn: deliver what is there; when more is wanted, fetch a block if the cache can find one. */
    method RoundOrSpin(files: map<int, seq<byte>>, dst: array<byte>, at: nat, left: nat, turns: nat)
      returns (spun: bool, n: nat)
      requires cache != null && fd in files && Streaming(files) && KnownType() && (cache.fd == fd || level == 0)
      requires EndsAt() == |files[fd]|
      requires dst != buffer && dst != cache.buffer && at + left <= dst.Length
      modifies this`offset, this`level, this`read, this`blocks, buffer, dst, cache, cache.buffer
      ensures n <= left
      ensures !spun ==> Streaming(files) && (cache.fd == fd || level == 0) && EndsAt() == old(EndsAt())
      ensures !spun ==> dst[..at + n] + Rest() == old(dst[..at] + Rest())
      ensures !spun ==> read == Ahead(old(read), n) && (n < left ==> |blocks| < old(|blocks|))
      ensures spun ==> n < left && dst[..at + n] == old(dst[..at] + Rest())
    {
      hide Streaming, Rest, EndsAt;
      n := Deliver(files, dst, at, left);
      spun := false;
      if n < left {
        BlocksOrEnd(files);
        if !cache.Returns(files[fd], fd, offset, 2) {
          ghost var sent := dst[..at + n];
          assert sent + [] == sent;
          var answered := Spins(files, turns);
          assert dst[..at + n] == sent;
          spun := !answered;
        } else {
          ghost var sent := dst[..at + n];
          var ok := Refill(files, true);
          assert dst[..at + n] == sent;
        }
      }
    }

    /** The cache's loop, for as many turns as wanted. */
    method Spins(files: map<int, seq<byte>>, turns: nat) returns (answered: bool)
      requires Streaming(files) && !cache.Returns(files[fd], fd, offset, 2)
      modifies cache, cache.buffer
      ensures !answered
    {
      hide GoodBlock, Layout;
      answered := cache.Spin(files, fd, offset, 2, turns);
    }

    /** With the buffer used up the cache can find a block exactly when there is one, and then something is left. */
    lemma BlocksOrEnd(files: map<int, seq<byte>>)
      requires Streaming(files) && level == 0 && EndsAt() == |files[fd]|
      ensures cache.Returns(files[fd], fd, offset, 2) <==> Rest() != []
      ensures Rest() == [] <==> blocks == []
    {
      assert buffer[..0] == [];
      if blocks != [] {
        assert blocks[0] in blocks;
        FirstBlock(blocks, files[fd], offset);
      }
    }
  }

  /** A counter of 32 bits, `n` further on. */
  function Ahead(count: SizeT, n: nat): SizeT { (count + n) % SIZE_MAX }

  /** Counting in two steps counts the sum. */
  lemma Counted(count: SizeT, a: nat, b: nat)
    ensures Ahead(Ahead(count, a), b) == Ahead(count, a + b) && Ahead(count, 0) == count
  {
  }

  /** Where the next block's length and bytes are in the file. */
  lemma FirstBlock(blocks: seq<Block>, file: seq<byte>, offset: nat)
    requires blocks != [] && forall b :: b in blocks ==> 1 <= |b.packed| < 65536
    requires offset <= |file| && Layout(blocks) <= file[offset..]
    ensures var n := |blocks[0].packed|;
      && offset + 2 + n <= |file|
      && file[offset] == n / 256 && file[offset + 1] == n % 256
      && file[offset + 2..offset + 2 + n] == blocks[0].packed
      && Layout(blocks[1..]) <= file[offset + 2 + n..]
  {
    var b, rest := blocks[0], Layout(blocks[1..]);
    assert b in blocks && Layout(blocks) == Stored(b) + rest;
    hide Layout;
    StartsWith(file, offset, Stored(b), rest);
    var n := |b.packed|;
    var part := file[offset..offset + 2 + n];
    assert file[offset] == part[0] && file[offset + 1] == part[1];
    assert file[offset + 2..offset + 2 + n] == part[2..] == b.packed;
  }

  lemma StartsWith(file: seq<byte>, offset: nat, a: seq<byte>, rest: seq<byte>)
    requires offset <= |file| && a + rest <= file[offset..]
    ensures offset + |a| <= |file| && file[offset..offset + |a|] == a && rest <= file[offset + |a|..]
  {
    var f := file[offset..];
    assert f[..|a|] == (a + rest)[..|a|] && f[|a|..|a + rest|] == (a + rest)[|a|..];
    assert file[offset..offset + |a|] == f[..|a|] && file[offset + |a|..] == f[|a|..];
  }

  // ---------------------------------------------------------------- end to end

  function Sum(ns: seq<nat>): nat { if ns == [] then 0 else ns[0] + Sum(ns[1..]) }

  /** The compressor makes a block the stream can read from any piece whose worst case fits the cache. */
  method Pack(piece: seq<byte>, cacheSize: nat, size: nat, slot: nat -> nat) returns (b: Block)
    requires 1 <= |piece| <= size && |piece| + |piece| / 32 + 1 <= cacheSize
    requires |piece| + |piece| / 32 + 1 < 65536
    requires forall p :: slot(p) < FastLzCompress.HASH_SIZE
    ensures b.piece == piece && GoodBlock(COMP_LZ77, b, cacheSize, size)
  {
    var out := new byte[|piece| + |piece| / 32 + 1];
    var n := CompressAuto(piece, out, slot);
    b := Block(out[..n], piece);
  }

  /**
   Any sequence of reads delivers consecutive slices of the pieces: each read gets as many bytes as it
   asked for, and together with what is left they make up the stream.
   */
  method ReadAll(comp: Comp, files: map<int, seq<byte>>, lengths: seq<nat>) returns (parts: seq<seq<byte>>)
    requires comp.cache != null && comp.Streaming(files) && comp.KnownType() && Sum(lengths) <= |comp.Pending()|
    modifies comp`offset, comp`level, comp`read, comp`blocks, comp.buffer, comp.cache, comp.cache.buffer
    ensures Answers(parts, lengths)
    ensures Flatten(parts) + comp.Pending() == old(comp.Pending())
    ensures comp.read == Ahead(old(comp.read), Sum(lengths))
    decreases lengths
  {
    hide Comp.Streaming, Comp.Pending, Ahead;
    Counted(comp.read, 0, 0);
    if lengths == [] { return []; }
    assert Sum(lengths) == lengths[0] + Sum(lengths[1..]);
    hide Sum, Flatten, Answers;
    var first := ReadPart(comp, files, lengths[0]);
    var more := ReadAll(comp, files, lengths[1..]);
    Counted(old(comp.read), lengths[0], Sum(lengths[1..]));
    parts := [first] + more;
    FlattenCons(first, more);
    AnswersCons(first, more, lengths);
    ghost var left := comp.Pending();
    assert first + Flatten(more) + left == first + (Flatten(more) + left);
  }

  /** Every read got as many bytes as it asked for. */
  ghost predicate Answers(parts: seq<seq<byte>>, lengths: seq<nat>) {
    |parts| == |lengths| && forall i :: 0 <= i < |parts| ==> |parts[i]| == lengths[i]
  }

  lemma AnswersCons(first: seq<byte>, more: seq<seq<byte>>, lengths: seq<nat>)
    requires lengths != [] && |first| == lengths[0] && Answers(more, lengths[1..])
    ensures Answers([first] + more, lengths)
  {
  }

  /** One read into a buffer of its own. */
  method ReadPart(comp: Comp, files: map<int, seq<byte>>, length: nat) returns (part: seq<byte>)
    requires comp.cache != null && comp.Streaming(files) && comp.KnownType() && length <= |comp.Pending()|
    modifies comp`offset, comp`level, comp`read, comp`blocks, comp.buffer, comp.cache, comp.cache.buffer
    ensures comp.Streaming(files) && |part| == length && part + comp.Pending() == old(comp.Pending())
    ensures comp.EndsAt() == old(comp.EndsAt()) && Tail(old(comp.blocks), comp.blocks)
    ensures comp.read == Ahead(old(comp.read), length)
  {
    hide Comp.Streaming, Comp.Pending;
    var dst := new byte[length];
    var ok := comp.Read(files, dst, length, true);
    part := dst[..];
    assert part == dst[..length];
  }

  /** A stream set to where the blocks begin in the file delivers their pieces. */
  lemma OpensStream(comp: Comp, files: map<int, seq<byte>>, before: seq<byte>, blocks: seq<Block>, after: seq<byte>)
    requires comp.cache != null && comp.cache.Coherent(files) && comp.cache.buffer != comp.buffer
    requires comp.buffer.Length == comp.size && comp.level == 0 && comp.blocks == blocks && comp.offset == |before|
    requires forall b :: b in blocks ==> GoodBlock(comp.compression, b, comp.cache.size, comp.size)
    requires forall b :: b in blocks ==> |b.packed| < 65536
    requires comp.fd != NO_FD && comp.fd in files && files[comp.fd] == before + Layout(blocks) + after
    requires comp.cache.size >= 2 && |files[comp.fd]| + comp.cache.size < SIZE_MAX
    ensures comp.Streaming(files) && comp.Pending() == Pieces(blocks)
    ensures comp.EndsAt() == |before| + |Layout(blocks)|
  {
    LayoutHasSize(blocks);
    hide Layout, Pieces, Cache.Coherent;
    assert files[comp.fd][|before|..] == Layout(blocks) + after;
    assert comp.buffer[..0] == [];
  }

  /** Buffered bytes are lost exactly when there are any and the cache has come to serve another file, or none. */
  lemma KeepsBufferedExactly(comp: Comp, files: map<int, seq<byte>>)
    requires comp.Streaming(files)
    ensures comp.Pending() == comp.Rest() <==> comp.cache.fd == comp.fd || comp.level == 0
  {
    hide GoodBlock, Layout, Pieces;
    assert |comp.Rest()| == comp.level + |Pieces(comp.blocks)|;
    if comp.level == 0 { assert comp.buffer[..0] == []; }
  }

  /** A flush between two reads takes the buffered bytes out of the stream. */
  method FlushLosesBuffered(comp: Comp, files: map<int, seq<byte>>)
    requires comp.Streaming(files) && comp.cache.fd == comp.fd
    modifies comp.cache
    ensures comp.Streaming(files) && comp.Pending() == old(comp.Pending())[comp.level..]
  {
    hide GoodBlock, Layout, Pieces;
    ghost var held, more := comp.buffer[..comp.level], Pieces(comp.blocks);
    comp.cache.Flush(files);
    assert (held + more)[comp.level..] == more;
  }

  /** Two bytes packed, one read, a flush: the other byte is gone. */
  method LosesAByte(fd: int, slot: nat -> nat) returns (first: seq<byte>, ghost left: seq<byte>)
    requires fd != NO_FD && forall p :: slot(p) < FastLzCompress.HASH_SIZE
    ensures first == [1] && left == []
  {
    hide GoodBlock, Layout, Cache.Coherent, Ahead, FastLzRoundTrip.CompressedForm;
    var b := Pack([1, 2], 2048, 2048, slot);
    var blocks := [b];
    BlocksFit(blocks, 2048, 2048);
    LayoutLength(blocks, 2048);
    var files := map[fd := [] + Layout(blocks) + []];
    var cache := new Cache(2048);
    var comp := new Comp(2048);
    comp.Set(cache, fd, COMP_LZ77, 0, blocks);
    OpensStream(comp, files, [], blocks, []);
    assert blocks[1..] == [] && Pieces(blocks) == [1, 2] + [] == [1, 2];
    first := ReadPart(comp, files, 1);
    assert first + comp.Pending() == [1, 2];
    OneLeft(comp, blocks, first, comp.Pending());
    FlushLosesBuffered(comp, files);
    left := comp.Pending();
  }

  /** After one byte of a block of two, the other one is in the buffer. */
  lemma OneLeft(comp: Comp, blocks: seq<Block>, first: seq<byte>, rest: seq<byte>)
    requires comp.cache != null && comp.level <= comp.buffer.Length && rest == comp.Pending()
    requires |blocks| == 1 && blocks[0].piece == [1, 2] && Tail(blocks, comp.blocks)
    requires |first| == 1 && first + rest == [1, 2]
    ensures first == [1] && comp.level == 1 && comp.cache.fd == comp.fd && |rest| == 1
  {
    assert first == (first + rest)[..1];
    assert |rest| == 1;
    assert blocks[1..] == [];
    assert |Pieces(blocks)| == 2;
  }

  predicate Packable(piece: seq<byte>, cacheSize: nat, size: nat) {
    1 <= |piece| <= size && |piece| + |piece| / 32 + 1 <= cacheSize && |piece| + |piece| / 32 + 1 < 65536
  }

  method PackAll(pieces: seq<seq<byte>>, cacheSize: nat, size: nat, slot: nat -> nat) returns (blocks: seq<Block>)
    requires forall p :: p in pieces ==> Packable(p, cacheSize, size)
    requires forall p :: slot(p) < FastLzCompress.HASH_SIZE
    ensures forall b :: b in blocks ==> GoodBlock(COMP_LZ77, b, cacheSize, size)
    ensures Pieces(blocks) == Flatten(pieces) && |blocks| == |pieces|
  {
    hide GoodBlock;
    if pieces == [] { return []; }
    assert pieces[0] in pieces;
    var first := Pack(pieces[0], cacheSize, size, slot);
    var rest := PackAll(pieces[1..], cacheSize, size, slot);
    blocks := [first] + rest;
    assert blocks[1..] == rest && [pieces[0]] + pieces[1..] == pieces;
    FlattenCons(pieces[0], pieces[1..]);
  }

  /** The compressed file: its length fits when every block is bounded. */
  lemma {:induction false} LayoutLength(blocks: seq<Block>, cacheSize: nat)
    requires forall b :: b in blocks ==> |b.packed| < 65536 && |b.packed| <= cacheSize
    ensures |Layout(blocks)| <= |blocks| * (cacheSize + 2)
  {
    if blocks != [] {
      var rest := blocks[1..];
      assert blocks[0] in blocks;
      LayoutLength(rest, cacheSize);
      assert |Layout(blocks)| == 2 + |blocks[0].packed| + |Layout(rest)|;
      OneMore(|rest|, cacheSize + 2);
    }
  }

  lemma OneMore(n: nat, k: nat)
    ensures (n + 1) * k == n * k + k
  {
  }

  /**
   Compressor, cache and stream together: any pieces are packed into a file, the file is opened, and any sequence of
   reads delivers consecutive slices of the pieces, from the first byte on.
   */
  method PackAndRead(pieces: seq<seq<byte>>, before: seq<byte>, after: seq<byte>, lengths: seq<nat>,
                     cacheSize: nat, size: nat, fd: int, slot: nat -> nat)
    returns (parts: seq<seq<byte>>, count: SizeT)
    requires forall p :: p in pieces ==> Packable(p, cacheSize, size)
    requires forall p :: slot(p) < FastLzCompress.HASH_SIZE
    requires cacheSize >= 2 && fd != NO_FD
    requires |before| + |pieces| * (cacheSize + 2) + |after| + cacheSize < SIZE_MAX
    requires Sum(lengths) <= |Flatten(pieces)|
    ensures Answers(parts, lengths) && Flatten(parts) <= Flatten(pieces)
    ensures count == Sum(lengths) % SIZE_MAX
  {
    hide GoodBlock, Layout, Pieces, Sum, Flatten, Answers, Cache.Coherent, Comp.Streaming, Comp.Pending;
    var blocks := PackAll(pieces, cacheSize, size, slot);
    BlocksFit(blocks, cacheSize, size);
    LayoutLength(blocks, cacheSize);
    var files := map[fd := before + Layout(blocks) + after];
    var cache := new Cache(cacheSize);
    var comp := new Comp(size);
    comp.Set(cache, fd, COMP_LZ77, |before|, blocks);
    OpensStream(comp, files, before, blocks, after);
    parts := ReadAll(comp, files, lengths);
    count := comp.read;
  }

  lemma BlocksFit(blocks: seq<Block>, cacheSize: nat, size: nat)
    requires forall b :: b in blocks ==> GoodBlock(COMP_LZ77, b, cacheSize, size)
    ensures forall b :: b in blocks ==> |b.packed| < 65536 && |b.packed| <= cacheSize
  {
  }
}
