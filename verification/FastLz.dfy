/** The decompressor, the level dispatch, and the two together. */
module FastLz {
  import opened Bytes
  import opened FastLzFormat
  import opened FastLzRoundTrip
  import opened FastLzCompress

  /** `Size(0)` is the error return; `Fault` means memory past the readable input was needed. */
  datatype Return = Size(n: nat) | Fault

  /** What the caller sees of an outcome: the size, and the bytes when there are any. */
  ghost predicate Reports(r: Return, output: seq<byte>, o: Outcome) {
    match o
    case Done(data) => r == Size(|data|) && data <= output
    case Reject => r == Size(0)
    case Overrun => r == Fault
  }

  /** Byte copies of a run repeat its last byte. */
  lemma {:induction false} RunCopy(out: seq<byte>, k: nat)
    requires out != []
    ensures var c := CopyFrom(out, 1, k); c[|c| - 1] == out[|out| - 1]
  {
    if k > 0 { RunCopy(out, k - 1); }
  }

  /** Copies `len` bytes from `dist` back, in place: a plain fill at distance one, else bytes or words. */
  method CopyMatch(output: array<byte>, op: nat, dist: nat, len: nat)
    requires 1 <= dist <= op && op + len <= output.Length
    modifies output
    ensures output[..op + len] == CopyFrom(old(output[..op]), dist, len)
    ensures output[op + len..] == old(output[op + len..])
  {
    if dist == 1 {
      FillRun(output, op, len);
    } else {
      var strictAlign: bool := *;
      if strictAlign || len < 3 {
        CopyBytes(output, op, dist, len);
      } else {
        CopyWords(output, op, dist, len);
      }
    }
  }

  method FillRun(output: array<byte>, op: nat, len: nat)
    requires 1 <= op && op + len <= output.Length
    modifies output
    ensures output[..op + len] == CopyFrom(old(output[..op]), 1, len)
    ensures output[op + len..] == old(output[op + len..])
  {
    ghost var start := output[..op];
    var b := output[op - 1];
    for k := 0 to len
      invariant output[..op + k] == CopyFrom(start, 1, k)
      invariant output[op + len..] == old(output[op + len..])
    {
      RunCopy(start, k);
      output[op + k] := b;
      assert output[..op + k + 1] == CopyFrom(start, 1, k) + [b];
    }
  }

  method CopyBytes(output: array<byte>, op: nat, dist: nat, len: nat)
    requires 1 <= dist <= op && op + len <= output.Length
    modifies output
    ensures output[..op + len] == CopyFrom(old(output[..op]), dist, len)
    ensures output[op + len..] == old(output[op + len..])
  {
    ghost var start := output[..op];
    for k := 0 to len
      invariant output[..op + k] == CopyFrom(start, dist, k)
      invariant output[op + len..] == old(output[op + len..])
    {
      ghost var before := output[..op + k];
      output[op + k] := output[op + k - dist];
      assert output[..op + k + 1] == before + [before[op + k - dist]];
    }
  }

  /** Three bytes singly, one more to make the rest even, and then 16 bits at a time. */
  method CopyWords(output: array<byte>, op: nat, dist: nat, len: nat)
    requires 2 <= dist <= op && op + len <= output.Length && len >= 3
    modifies output
    ensures output[..op + len] == CopyFrom(old(output[..op]), dist, len)
    ensures output[op + len..] == old(output[op + len..])
  {
    hide CopyFrom;
    ghost var start := output[..op];
    NothingCopied(start, dist);
    var at := CopySome(output, op, dist, 3, start, op, len);
    var rest := len - 3;
    if rest % 2 == 1 {
      at := CopySome(output, at, dist, 1, start, op, len);
      rest := rest - 1;
    }
    var n := rest / 2;
    while n > 4
      invariant 0 <= n && at + 2 * n == op + len && op <= at
      invariant output[..at] == CopyFrom(start, dist, at - op)
      invariant output[op + len..] == old(output[op + len..])
    {
      at := CopyWord(output, at, dist, start, op, len);
      at := CopyWord(output, at, dist, start, op, len);
      at := CopyWord(output, at, dist, start, op, len);
      at := CopyWord(output, at, dist, start, op, len);
      n := n - 4;
    }
    while n > 0
      invariant 0 <= n && at + 2 * n == op + len && op <= at
      invariant output[..at] == CopyFrom(start, dist, at - op)
      invariant output[op + len..] == old(output[op + len..])
    {
      at := CopyWord(output, at, dist, start, op, len);
      n := n - 1;
    }
  }

  lemma NothingCopied(out: seq<byte>, dist: nat)
    requires 1 <= dist <= |out|
    ensures CopyFrom(out, dist, 0) == out
  {
  }

  /** `n` bytes more of a copy that began at `op`. */
  method CopySome(output: array<byte>, at: nat, dist: nat, n: nat,
                  ghost start: seq<byte>, ghost op: nat, ghost len: nat)
    returns (at': nat)
    requires 1 <= dist <= |start| == op <= at && at + n <= op + len <= output.Length
    requires output[..at] == CopyFrom(start, dist, at - op)
    modifies output
    ensures at' == at + n && output[..at'] == CopyFrom(start, dist, at' - op)
    ensures output[op + len..] == old(output[op + len..])
  {
    hide CopyFrom;
    CopyBytes(output, at, dist, n);
    CopyFurther(start, dist, at - op, n);
    at' := at + n;
    ghost var tail := output[at'..];
    assert output[op + len..] == tail[op + len - at'..];
  }

  /** One 16-bit copy: both bytes are read before either is written. */
  method CopyWord(output: array<byte>, at: nat, dist: nat, ghost start: seq<byte>, ghost op: nat, ghost len: nat)
    returns (at': nat)
    requires 2 <= dist <= |start| == op <= at && at + 2 <= op + len <= output.Length
    requires output[..at] == CopyFrom(start, dist, at - op)
    modifies output
    ensures at' == at + 2 && output[..at'] == CopyFrom(start, dist, at' - op)
    ensures output[op + len..] == old(output[op + len..])
  {
    ghost var before, k := output[..at], at - op;
    var low, high := output[at - dist], output[at - dist + 1];
    output[at], output[at + 1] := low, high;
    at' := at + 2;
    assert output[..at'] == before + [low] + [high];
    assert CopyFrom(start, dist, k + 1) == before + [before[at - dist]];
    assert (before + [low])[at + 1 - dist] == high;
  }

  /** A copy of `m` bytes and then `n` more is a copy of all of them. */
  lemma {:induction false} CopyFurther(out: seq<byte>, dist: nat, m: nat, n: nat)
    requires 1 <= dist <= |out|
    ensures CopyFrom(CopyFrom(out, dist, m), dist, n) == CopyFrom(out, dist, m + n)
  {
    if n > 0 { CopyFurther(out, dist, m, n - 1); }
  }

  /** The level 2 length extension: adds bytes up to and including the first that is not 255. */
  method ReadRun(mem: seq<byte>, ip: nat, len: nat) returns (ok: bool, len': nat, ip': nat)
    ensures ok <==> ReadExtension(mem, ip).Some?
    ensures ok ==> ReadExtension(mem, ip) == Some((len' - len, ip')) && len <= len'
  {
    ok, len', ip' := true, len, ip;
    ghost var sum: int := 0;
    while true
      invariant len' == len + sum && ip <= ip'
      invariant ok
      invariant ReadExtension(mem, ip) == match ReadExtension(mem, ip')
        case None => None
        case Some((n, next)) => Some((n + sum, next))
      decreases |mem| - ip'
    {
      if ip' >= |mem| { ok := false; return; }
      var code := mem[ip'];
      len', ip', sum := len' + code, ip' + 1, sum + code as int;
      if code != 255 { return; }
    }
  }

  /** Length and distance of a match. */
  method ReadMatch(level: int, mem: seq<byte>, ip: nat, ctrl: byte) returns (ok: bool, len: nat, dist: nat, ip': nat)
    requires ctrl >= 32
    ensures ok <==> ParseMatch(level, mem, ip, ctrl).Some?
    ensures ok ==> ParseMatch(level, mem, ip, ctrl) == Some(Parsed(len + 3, dist, ip'))
  {
    var ofs := ctrl % 32 * 256;
    ok, len, dist, ip' := true, ctrl / 32 - 1, 0, ip;
    if len == 6 {
      if level == 1 {
        if ip' >= |mem| { ok := false; return; }
        len, ip' := len + mem[ip'], ip' + 1;
      } else {
        ok, len, ip' := ReadRun(mem, ip', len);
        if !ok { return; }
      }
    }
    if ip' >= |mem| { ok := false; return; }
    var code := mem[ip'];
    ip', dist := ip' + 1, ofs + code + 1;
    if level != 1 && code == 255 && ofs == 31 * 256 {
      if ip' + 1 >= |mem| { ok := false; return; }
      dist := mem[ip'] * 256 + mem[ip' + 1] + NEAR + 1;
      ip' := ip' + 2;
    }
  }

  /** One token: `stop` holds the return value when it ends the decoding. */
  method DecodeToken(level: int, mem: seq<byte>, length: nat, output: array<byte>, maxout: nat,
                     ip: nat, ctrl: byte, op: nat)
    returns (stop: Option<Return>, op': nat, ip': nat)
    requires length <= |mem| && op <= maxout <= output.Length
    modifies output
    ensures match DecodeTurn(level, mem, length, maxout, ip, ctrl, old(output[..op]))
      case Turn(out, next) => stop == None && op' <= maxout && out == output[..op'] && next == ip'
      case Rejected => stop == Some(Size(0))
      case Overran => stop == Some(Fault)
    ensures output[maxout..] == old(output[maxout..])
  {
    hide ParseMatch, CopyFrom;
    stop, op', ip' := None, op, ip;
    if ctrl >= 32 {
      var ok, len, dist, next := ReadMatch(level, mem, ip, ctrl);
      if !ok { stop := Some(Fault); return; }
      if op + len + 3 > maxout { stop := Some(Size(0)); return; }
      if dist > op { stop := Some(Size(0)); return; }
      op', ip' := op + len + 3, next;
      ghost var tail := output[op'..];
      CopyMatch(output, op, dist, len + 3);
      assert output[maxout..] == tail[maxout - op'..];
    } else {
      var n := ctrl as int + 1;
      if op + n > maxout { stop := Some(Size(0)); return; }
      if ip + n > length { stop := Some(Size(0)); return; }
      op', ip' := op + n, ip + n;
      ghost var tail := output[op'..];
      CopyLiterals(mem, ip, output, op, n);
      assert output[maxout..] == tail[maxout - op'..];
    }
  }

  /**
   Decompresses `length` bytes of `mem` into `output`, writing at most `maxout` bytes of it.
   Every array access is proved in bounds, so no copy starts before the output.
   */
  method DecompressLevel(level: int, mem: seq<byte>, length: nat, output: array<byte>, maxout: nat) returns (r: Return)
    requires length <= |mem| && maxout <= output.Length
    modifies output
    ensures Reports(r, output[..], DecodeLevel(level, mem, length, maxout))
    ensures output[maxout..] == old(output[maxout..])
  {
    hide DecodeTurn, DecodeFrom;
    if |mem| == 0 { return Fault; }
    var ctrl: byte, ip: nat, op: nat := mem[0] % 32, 1, 0;
    assert output[..0] == [];
    ghost var want := DecodeLevel(level, mem, length, maxout);
    hide DecodeLevel;
    while true
      invariant op <= maxout && ip <= |mem|
      invariant want == DecodeFrom(level, mem, length, maxout, ip, ctrl, output[..op])
      invariant output[maxout..] == old(output[maxout..])
      decreases |mem| - ip
    {
      var stop: Option<Return>;
      UnfoldDecode(level, mem, length, maxout, ip, ctrl, output[..op]);
      stop, op, ip := DecodeToken(level, mem, length, output, maxout, ip, ctrl, op);
      if stop.Some? { return stop.value; }
      if ip >= length {
        assert output[..op] == output[..][..op];
        return Size(op);
      }
      ctrl, ip := mem[ip], ip + 1;
    }
  }

  lemma UnfoldDecode(level: int, mem: seq<byte>, length: nat, maxout: nat, ip: nat, ctrl: byte, out: seq<byte>)
    requires length <= |mem| && |out| <= maxout
    ensures DecodeFrom(level, mem, length, maxout, ip, ctrl, out) ==
      match DecodeTurn(level, mem, length, maxout, ip, ctrl, out)
      case Overran => Overrun
      case Rejected => Reject
      case Turn(out', next) =>
        if next < length then DecodeFrom(level, mem, length, maxout, next + 1, mem[next], out') else Done(out')
  {
    hide DecodeTurn;
  }

  method CopyLiterals(mem: seq<byte>, ip: nat, output: array<byte>, op: nat, n: nat)
    requires ip + n <= |mem| && op + n <= output.Length
    modifies output
    ensures output[..op + n] == old(output[..op]) + mem[ip..ip + n]
    ensures output[op + n..] == old(output[op + n..])
  {
    for k := 0 to n
      invariant output[..op + k] == old(output[..op]) + mem[ip..ip + k]
      invariant output[op + n..] == old(output[op + n..])
    {
      output[op + k] := mem[ip + k];
    }
  }

  /** The level comes from the first byte; unknown levels are an error. */
  method Decompress(mem: seq<byte>, length: nat, output: array<byte>, maxout: nat) returns (r: Return)
    requires length <= |mem| && maxout <= output.Length
    modifies output
    ensures Reports(r, output[..], Decode(mem, length, maxout))
    ensures output[maxout..] == old(output[maxout..])
    ensures Readable(mem, length) ==> r != Fault
  {
    if |mem| == 0 { return Fault; }
    if Readable(mem, length) { NeverOverruns(mem, length, maxout); }
    hide Readable, DecodeLevel;
    var level := mem[0] / 32 + 1;
    if level == 1 || level == 2 {
      r := DecompressLevel(level, mem, length, output, maxout);
    } else {
      r := Size(0);
    }
  }

  /** Short blocks use level 1. */
  method CompressAuto(input: seq<byte>, output: array<byte>, slot: nat -> nat) returns (size: nat)
    requires output.Length >= |input| + |input| / 32 + 1
    requires forall p :: slot(p) < HASH_SIZE
    modifies output
    ensures size <= |input| + |input| / 32 + 1
    ensures CompressedForm(input, output[..size]) && (size == 0 <==> input == [])
    ensures input != [] ==> output[0] / 32 == if |input| < 65536 then 0 else 1
  {
    if |input| < 65536 {
      size := Compress(1, input, output, slot);
    } else {
      size := Compress(2, input, output, slot);
    }
  }

  /** Levels other than 1 and 2 compress nothing. */
  method CompressLevel(level: int, input: seq<byte>, output: array<byte>, slot: nat -> nat) returns (size: nat)
    requires output.Length >= |input| + |input| / 32 + 1
    requires forall p :: slot(p) < HASH_SIZE
    modifies output
    ensures size <= |input| + |input| / 32 + 1
    ensures level == 1 || level == 2 ==> CompressedForm(input, output[..size]) && (size == 0 <==> input == [])
    ensures (level == 1 || level == 2) && input != [] ==> output[0] / 32 == if |input| < 4 then 0 else level - 1
    ensures level != 1 && level != 2 ==> size == 0 && output[..] == old(output[..])
  {
    hide CompressedForm;
    size := 0;
    if level == 1 || level == 2 {
      size := Compress(level, input, output, slot);
    }
  }

  /** Compressing at either level and decompressing gives back the input, byte for byte. */
  method RoundTrip(level: int, input: seq<byte>, packed: array<byte>, output: array<byte>, slot: nat -> nat)
    returns (size: nat, r: Return)
    requires level == 1 || level == 2
    requires packed != output
    requires packed.Length >= |input| + |input| / 32 + 1 && output.Length >= |input|
    requires forall p :: slot(p) < HASH_SIZE
    modifies packed, output
    ensures r == Size(|input|) && output[..|input|] == input
  {
    hide CompressedForm, Decode;
    size := CompressLevel(level, input, packed, slot);
    ghost var z, after := packed[..size], packed[size..];
    assert packed[..] == z + after;
    r := Decompress(packed[..], size, output, output.Length);
    if input == [] {
      EmptyInput(packed[..], output.Length);
    } else {
      DecodeInvertsCompressedForm(input, z, after, output.Length);
    }
  }

  /** Zero bytes of input are refused, which reads as a size of zero. */
  lemma EmptyInput(mem: seq<byte>, maxout: nat)
    requires mem != []
    ensures Decode(mem, 0, maxout) == Reject
  {
  }

  // ---------------------------------------------------------------- how far the decoder reads

  lemma {:induction false} ExtensionEnds(mem: seq<byte>, ip: nat, stop: nat)
    requires ip <= stop < |mem| && mem[stop] != 255
    ensures ReadExtension(mem, ip).Some? && ReadExtension(mem, ip).value.1 <= stop + 1
    decreases stop - ip
  {
    if mem[ip] == 255 { ExtensionEnds(mem, ip + 1, stop); }
  }

  /**
   On arbitrary, even malformed, input the decoder stays inside readable memory when that memory
   extends two bytes past the input (level 1), or holds a byte other than 255 at `stop`, at or past
   the end of the input, and three bytes after it (level 2).
   */
  lemma {:induction false} StaysInMemory(level: int, mem: seq<byte>, length: nat, maxout: nat, stop: nat,
                                         ip: nat, ctrl: byte, out: seq<byte>)
    requires length <= |mem| && |out| <= maxout
    requires if level == 1 then length + 2 <= |mem| else length <= stop && stop + 3 < |mem| && mem[stop] != 255
    requires ip <= length || ctrl < 32
    ensures DecodeFrom(level, mem, length, maxout, ip, ctrl, out) != Overrun
    decreases |mem| - ip
  {
    if ctrl >= 32 && level != 1 { ExtensionEnds(mem, ip, stop); }
    match DecodeTurn(level, mem, length, maxout, ip, ctrl, out)
    case Turn(out', next) =>
      if next < length {
        StaysInMemory(level, mem, length, maxout, stop, next + 1, mem[next], out');
      }
    case _ =>
  }

  /** Enough memory behind the input for whatever its first byte says it is. */
  ghost predicate Readable(mem: seq<byte>, length: nat) {
    && mem != [] && length <= |mem|
    && (mem[0] / 32 == 0 ==> length + 2 <= |mem|)
    && (mem[0] / 32 == 1 ==> exists stop: nat :: length <= stop && stop + 3 < |mem| && mem[stop] != 255)
  }

  /** With that much memory a decoder call never reads outside it, on any input. */
  lemma NeverOverruns(mem: seq<byte>, length: nat, maxout: nat)
    requires Readable(mem, length)
    ensures Decode(mem, length, maxout) != Overrun
  {
    var level := mem[0] / 32 + 1;
    if level == 1 {
      StaysInMemory(1, mem, length, maxout, 0, 1, mem[0] % 32, []);
    } else if level == 2 {
      var stop: nat :| length <= stop && stop + 3 < |mem| && mem[stop] != 255;
      StaysInMemory(2, mem, length, maxout, stop, 1, mem[0] % 32, []);
    }
  }
}
