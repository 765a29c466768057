/**
 The FastLZ bitstream as a language of tokens: what a token means (`Expand`), how it is
 spelled in bytes at each level (`Emit`), and what the decompressor reads back (`Decode`).
 */
module FastLzFormat {
  import opened Bytes

  const MAX_COPY := 32
  const MAX_LEN := 264
  const NEAR := 8191       // level 2 MAX_DISTANCE; biased distances below it use 13 bits

  datatype Token = Literals(data: seq<byte>) | Match(len: nat, dist: nat)

  // ---------------------------------------------------------------- meaning of tokens

  /** Append `len` bytes, each equal to the byte `dist` places before it (the copy may overlap itself). */
  function CopyFrom(out: seq<byte>, dist: nat, len: nat): (r: seq<byte>)
    requires 1 <= dist <= |out|
    ensures |r| == |out| + len && out <= r
  {
    if len == 0 then out
    else
      var o := CopyFrom(out, dist, len - 1);
      o + [o[|o| - dist]]
  }

  /** Extend already expanded output by one token; a reference to before the start adds nothing. */
  function Apply(out: seq<byte>, t: Token): (r: seq<byte>)
    ensures out <= r
  {
    match t
    case Literals(data) => out + data
    case Match(len, dist) => if 1 <= dist <= |out| then CopyFrom(out, dist, len) else out
  }

  function Expand(toks: seq<Token>): seq<byte> {
    if toks == [] then [] else Apply(Expand(toks[..|toks| - 1]), toks[|toks| - 1])
  }

  // ---------------------------------------------------------------- spelling of tokens

  predicate Encodable(level: int, t: Token) {
    match t
    case Literals(data) => 1 <= |data| <= MAX_COPY
    case Match(len, dist) =>
      3 <= len && 1 <= dist && if level == 1 then len <= MAX_LEN && dist <= 8192 else dist <= NEAR + 65536
  }

  /** Every token has a spelling, no match reaches before the start, and the stream opens with literals. */
  predicate WellFormed(level: int, toks: seq<Token>) {
    && (forall i :: 0 <= i < |toks| ==> Encodable(level, toks[i]))
    && (forall i :: 0 <= i < |toks| && toks[i].Match? ==> toks[i].dist <= |Expand(toks[..i])|)
    && (|toks| > 0 ==> toks[0].Literals?)
  }

  /** Length extension of level 2: a run of 255s closed by a smaller byte. */
  function Extension(k: nat): (r: seq<byte>)
    ensures 255 * (|r| - 1) <= k < 255 * |r|
  {
    if k >= 255 then [255] + Extension(k - 255) else [k]
  }

  function LengthBytes(level: int, n: nat): seq<byte>
    requires level == 1 ==> n <= 262
  {
    if n < 7 then [] else if level == 1 then [n - 7] else Extension(n - 7)
  }

  /** The low bits of the control byte (of a biased distance). */
  function HighDistance(level: int, d: nat): byte
    requires if level == 1 then d < 8192 else d < NEAR + 65536
  {
    if level == 1 || d < NEAR then d / 256 else 31
  }

  /** The bytes that close a match; 31 in the control byte and 255 here announce a 16-bit distance. */
  function DistanceBytes(level: int, d: nat): seq<byte>
    requires if level == 1 then d < 8192 else d < NEAR + 65536
  {
    if level == 1 || d < NEAR then [d % 256] else [255, (d - NEAR) / 256, (d - NEAR) % 256]
  }

  function EmitMatch(level: int, len: nat, dist: nat): (r: seq<byte>)
    requires Encodable(level, Match(len, dist))
    ensures |r| >= 2 && 32 <= r[0]
    ensures level == 1 || dist <= NEAR || len >= 5 ==> |r| + 1 <= len
  {
    [32 * Min(len - 2, 7) + HighDistance(level, dist - 1)]
    + LengthBytes(level, len - 2) + DistanceBytes(level, dist - 1)
  }

  /** A token that has no spelling at this level spells nothing. */
  function EmitToken(level: int, t: Token): (r: seq<byte>)
    ensures Encodable(level, t) ==> |r| >= 2
  {
    if !Encodable(level, t) then []
    else match t
      case Literals(data) => [|data| - 1] + data
      case Match(len, dist) => EmitMatch(level, len, dist)
  }

  function Emit(level: int, toks: seq<Token>): seq<byte> {
    if toks == [] then []
    else Emit(level, toks[..|toks| - 1]) + EmitToken(level, toks[|toks| - 1])
  }

  /** `b | (1 << 5)` */
  function SetBit5(b: byte): byte {
    if b / 32 % 2 == 1 then b else b + 32
  }

  /** The three bits above the first control byte carry the level. */
  function Tagged(level: int, z: seq<byte>): seq<byte> {
    if level == 2 && |z| > 0 then z[0 := SetBit5(z[0])] else z
  }

  // ---------------------------------------------------------------- decoding

  /** `Overrun`: the decoder read past the last byte of readable memory. */
  datatype Outcome = Done(data: seq<byte>) | Reject | Overrun

  datatype Parsed = Parsed(len: nat, dist: nat, next: nat)

  /** Sum of a 255-run and its closing byte, and the position after it. */
  function ReadExtension(mem: seq<byte>, ip: nat): (r: Option<(nat, nat)>)
    ensures r.Some? ==> ip < r.value.1 <= |mem|
    decreases |mem| - ip
  {
    if ip >= |mem| then None
    else if mem[ip] != 255 then Some((mem[ip], ip + 1))
    else match ReadExtension(mem, ip + 1)
      case None => None
      case Some((n, next)) => Some((255 + n, next))
  }

  function ReadLength(level: int, mem: seq<byte>, ip: nat, base: nat): (r: Option<(nat, nat)>)
    ensures r.Some? ==> base <= r.value.0 && ip <= r.value.1
  {
    if base != 6 then Some((base, ip))
    else if level == 1 then (if ip < |mem| then Some((6 + mem[ip] as int, ip + 1)) else None)
    else match ReadExtension(mem, ip)
      case None => None
      case Some((extra, next)) => Some((6 + extra, next))
  }

  /** Unbiased distance and the position after it. */
  function ReadDistance(level: int, mem: seq<byte>, at: nat, ofs: nat): (r: Option<(nat, nat)>)
    ensures r.Some? ==> r.value.0 >= 1 && at < r.value.1 <= |mem|
  {
    if at >= |mem| then None
    else if level != 1 && mem[at] == 255 && ofs == 31 * 256 then
      if at + 2 >= |mem| then None
      else Some((mem[at + 1] * 256 + mem[at + 2] + NEAR + 1, at + 3))
    else Some((ofs + mem[at] + 1, at + 1))
  }

  /** Body of a match whose control byte `ctrl` has been read; `ip` is the byte after it. */
  function ParseMatch(level: int, mem: seq<byte>, ip: nat, ctrl: byte): (r: Option<Parsed>)
    requires ctrl >= 32
    ensures r.Some? ==> r.value.len >= 3 && r.value.dist >= 1 && ip < r.value.next <= |mem|
  {
    match ReadLength(level, mem, ip, ctrl / 32 - 1)
    case None => None
    case Some((len, at)) =>
      match ReadDistance(level, mem, at, ctrl % 32 * 256)
      case None => None
      case Some((dist, next)) => Some(Parsed(len + 3, dist, next))
  }

  /** One turn of the decoder's loop: the output so far extended by one token, and the next position. */
  datatype Turn = Turn(out: seq<byte>, next: nat) | Rejected | Overran

  function DecodeTurn(level: int, mem: seq<byte>, length: nat, maxout: nat,
                      ip: nat, ctrl: byte, out: seq<byte>): (r: Turn)
    requires length <= |mem| && |out| <= maxout
    ensures r.Turn? ==> out <= r.out && |r.out| <= maxout && ip < r.next <= |mem|
  {
    if ctrl >= 32 then
      match ParseMatch(level, mem, ip, ctrl)
      case None => Overran
      case Some(p) =>
        if |out| + p.len > maxout || p.dist > |out| then Rejected
        else Turn(CopyFrom(out, p.dist, p.len), p.next)
    else
      var n := ctrl + 1;
      if |out| + n > maxout || ip + n > length then Rejected
      else Turn(out + mem[ip..ip + n], ip + n)
  }

  function DecodeFrom(level: int, mem: seq<byte>, length: nat, maxout: nat,
                      ip: nat, ctrl: byte, out: seq<byte>): (r: Outcome)
    requires length <= |mem| && |out| <= maxout
    ensures r.Done? ==> |r.data| <= maxout
    decreases |mem| - ip
  {
    match DecodeTurn(level, mem, length, maxout, ip, ctrl, out)
    case Overran => Overrun
    case Rejected => Reject
    case Turn(out', next) =>
      if next < length then DecodeFrom(level, mem, length, maxout, next + 1, mem[next], out')
      else Done(out')
  }

  /** Decompressor of one level: `length` bytes of input at the start of readable memory `mem`. */
  function DecodeLevel(level: int, mem: seq<byte>, length: nat, maxout: nat): (r: Outcome)
    requires length <= |mem|
    ensures r.Done? ==> |r.data| <= maxout
  {
    if mem == [] then Overrun else DecodeFrom(level, mem, length, maxout, 1, mem[0] % 32, [])
  }

  /** The level is taken from the first byte. */
  function Decode(mem: seq<byte>, length: nat, maxout: nat): (r: Outcome)
    requires length <= |mem|
    ensures r.Done? ==> |r.data| <= maxout
  {
    if mem == [] then Overrun
    else
      var level := mem[0] / 32 + 1;
      if level == 1 || level == 2 then DecodeLevel(level, mem, length, maxout) else Reject
  }
}
