/** Every spelling of a token stream decodes to what the stream means, and to nothing else. */
module FastLzRoundTrip {
  import opened Bytes
  import opened FastLzFormat

  /** `z` is some spelling of `input`; the compressor is free to choose the tokens. */
  ghost predicate Spells(level: int, toks: seq<Token>, input: seq<byte>, z: seq<byte>) {
    && (level == 1 || level == 2)
    && WellFormed(level, toks)
    && Expand(toks) == input
    && z == Tagged(level, Emit(level, toks))
  }

  ghost predicate CompressedForm(input: seq<byte>, z: seq<byte>) {
    exists level, toks :: Spells(level, toks, input, z)
  }

  // ---------------------------------------------------------------- what bytes mean

  /** Level 1, byte by byte: length in the upper three bits, 13 bits of distance; 7 there adds a byte of length. */
  lemma MatchBytes1(mem: seq<byte>, ip: nat, ctrl: byte)
    requires 32 <= ctrl && ip + 1 < |mem|
    ensures ctrl < 224 ==>
      ParseMatch(1, mem, ip, ctrl) == Some(Parsed(ctrl / 32 + 2, 256 * (ctrl % 32) + mem[ip] as int + 1, ip + 1))
    ensures ctrl >= 224 ==>
      ParseMatch(1, mem, ip, ctrl) ==
        Some(Parsed(mem[ip] as int + 9, 256 * (ctrl % 32) + mem[ip + 1] as int + 1, ip + 2))
  {
  }

  /** Level 2: 31 and 255 announce two bytes of distance from 8192 on, and the length goes on while it is 255. */
  lemma MatchBytes2(mem: seq<byte>, ip: nat, ctrl: byte)
    requires 32 <= ctrl && ip + 5 < |mem|
    ensures ctrl < 224 && (ctrl % 32 != 31 || mem[ip] != 255) ==>
      ParseMatch(2, mem, ip, ctrl) == Some(Parsed(ctrl / 32 + 2, 256 * (ctrl % 32) + mem[ip] as int + 1, ip + 1))
    ensures ctrl < 224 && ctrl % 32 == 31 && mem[ip] == 255 ==>
      ParseMatch(2, mem, ip, ctrl) ==
        Some(Parsed(ctrl / 32 + 2, 256 * mem[ip + 1] as int + mem[ip + 2] as int + 8192, ip + 3))
    ensures ctrl == 255 && mem[ip] == 255 && mem[ip + 1] < 255 && mem[ip + 2] == 255 ==>
      ParseMatch(2, mem, ip, ctrl) ==
        Some(Parsed(mem[ip + 1] as int + 264, 256 * mem[ip + 3] as int + mem[ip + 4] as int + 8192, ip + 5))
  {
    if ctrl == 255 && mem[ip] == 255 && mem[ip + 1] < 255 {
      assert ReadExtension(mem, ip + 1) == Some((mem[ip + 1], ip + 2));
      assert ReadExtension(mem, ip) == Some((255 + mem[ip + 1] as int, ip + 2));
    }
  }

  /** One byte and a match of three at distance 1, at either level. */
  lemma KnownStream(level: int, a: byte)
    requires level == 1 || level == 2
    ensures Decode([32 * (level - 1), a, 32, 0], 4, 4) == Done([a, a, a, a])
  {
    var mem: seq<byte> := [32 * (level - 1), a, 32, 0];
    assert mem[1..2] == [a];
    assert CopyFrom([a], 1, 1) == [a, a];
    assert CopyFrom([a], 1, 2) == [a, a, a];
    assert CopyFrom([a], 1, 3) == [a, a, a, a];
    assert DecodeTurn(level, mem, 4, 4, 1, 0, []) == Turn([] + [a], 2);
    assert [] + [a] == [a];
    assert ParseMatch(level, mem, 3, 32) == Some(Parsed(3, 1, 4));
    assert DecodeTurn(level, mem, 4, 4, 3, 32, [a]) == Turn([a, a, a, a], 4);
    assert DecodeFrom(level, mem, 4, 4, 3, 32, [a]) == Done([a, a, a, a]);
    assert DecodeFrom(level, mem, 4, 4, 1, 0, []) == Done([a, a, a, a]);
    assert mem[0] % 32 == 0 && mem[0] / 32 + 1 == level;
  }

  // ---------------------------------------------------------------- one token

  /** The bytes of `e` are found in `mem` from position `ip` on. */
  predicate Holds(mem: seq<byte>, ip: nat, e: seq<byte>) {
    ip + |e| <= |mem| && mem[ip..ip + |e|] == e
  }

  lemma HoldsParts(mem: seq<byte>, ip: nat, a: seq<byte>, b: seq<byte>)
    requires Holds(mem, ip, a + b)
    ensures Holds(mem, ip, a) && Holds(mem, ip + |a|, b)
  {
    assert mem[ip..ip + |a|] == (a + b)[..|a|];
    assert mem[ip + |a|..ip + |a| + |b|] == (a + b)[|a|..];
  }

  lemma {:induction false} ReadsBackExtension(mem: seq<byte>, ip: nat, k: nat)
    requires Holds(mem, ip, Extension(k))
    ensures ReadExtension(mem, ip) == Some((k, ip + |Extension(k)|))
    decreases k
  {
    if k >= 255 {
      HoldsParts(mem, ip, [255], Extension(k - 255));
      assert mem[ip] == mem[ip..ip + 1][0];
      ReadsBackExtension(mem, ip + 1, k - 255);
    } else {
      assert mem[ip] == mem[ip..ip + 1][0];
    }
  }

  lemma ReadsBackLength(level: int, mem: seq<byte>, ip: nat, n: nat)
    requires 1 <= n && (level == 1 ==> n <= 262)
    requires Holds(mem, ip, LengthBytes(level, n))
    ensures ReadLength(level, mem, ip, Min(n, 7) - 1) == Some((n - 1, ip + |LengthBytes(level, n)|))
  {
    if n >= 7 {
      if level == 1 {
        assert mem[ip] == mem[ip..ip + 1][0];
      } else {
        ReadsBackExtension(mem, ip, n - 7);
      }
    }
  }

  /** Near distances never spell the far escape, and far ones always do. */
  lemma ReadsBackDistance(level: int, mem: seq<byte>, at: nat, d: nat)
    requires if level == 1 then d < 8192 else d < NEAR + 65536
    requires Holds(mem, at, DistanceBytes(level, d))
    ensures ReadDistance(level, mem, at, HighDistance(level, d) * 256)
         == Some((d + 1, at + |DistanceBytes(level, d)|))
  {
    var e := DistanceBytes(level, d);
    assert mem[at] == mem[at..at + |e|][0];
    if level != 1 && d >= NEAR {
      assert mem[at + 1] == mem[at..at + |e|][1] && mem[at + 2] == mem[at..at + |e|][2];
    }
  }

  /** How a spelled match splits into control byte, length bytes and distance bytes. */
  lemma MatchParts(level: int, len: nat, dist: nat)
    requires Encodable(level, Match(len, dist))
    ensures var e := EmitMatch(level, len, dist);
      && e[1..] == LengthBytes(level, len - 2) + DistanceBytes(level, dist - 1)
      && e[0] / 32 == Min(len - 2, 7) && e[0] % 32 == HighDistance(level, dist - 1)
  {
    hide LengthBytes, DistanceBytes;
  }

  /** A spelled match parses back to its own length and distance. */
  lemma ReadsBackMatch(level: int, mem: seq<byte>, ip: nat, ctrl: byte, len: nat, dist: nat)
    requires Encodable(level, Match(len, dist))
    requires EmitMatch(level, len, dist)[0] == ctrl
    requires Holds(mem, ip, EmitMatch(level, len, dist)[1..])
    ensures ParseMatch(level, mem, ip, ctrl)
         == Some(Parsed(len, dist, ip + |EmitMatch(level, len, dist)| - 1))
  {
    hide LengthBytes, DistanceBytes, ReadLength, ReadDistance, EmitMatch, HighDistance, Holds;
    var at := ip + |LengthBytes(level, len - 2)|;
    MatchParts(level, len, dist);
    HoldsParts(mem, ip, LengthBytes(level, len - 2), DistanceBytes(level, dist - 1));
    assert ReadLength(level, mem, ip, ctrl / 32 - 1) == Some((len - 3, at)) by {
      ReadsBackLength(level, mem, ip, len - 2);
    }
    assert ReadDistance(level, mem, at, ctrl % 32 * 256) == Some((dist, at + |DistanceBytes(level, dist - 1)|)) by {
      ReadsBackDistance(level, mem, at, dist - 1);
    }
  }

  // ---------------------------------------------------------------- prefixes of a stream

  lemma {:induction false} ExpandPrefix(toks: seq<Token>, i: nat)
    requires i <= |toks|
    ensures Expand(toks[..i]) <= Expand(toks)
    decreases |toks| - i
  {
    if i == |toks| {
      assert toks[..i] == toks;
    } else {
      ExpandPrefix(toks, i + 1);
      assert toks[..i + 1][..i] == toks[..i];
    }
  }

  // ---------------------------------------------------------------- whole streams

  /** The spelling of the tokens from `i` on. */
  ghost function Rest(level: int, toks: seq<Token>, i: nat): seq<byte>
    requires i <= |toks|
    decreases |toks| - i
  {
    if i == |toks| then [] else EmitToken(level, toks[i]) + Rest(level, toks, i + 1)
  }

  lemma {:induction false} RestIsEmitted(level: int, toks: seq<Token>, i: nat)
    requires i <= |toks|
    ensures Emit(level, toks) == Emit(level, toks[..i]) + Rest(level, toks, i)
    decreases |toks| - i
  {
    hide EmitToken;
    if i == |toks| {
      assert toks[..i] == toks;
    } else {
      RestIsEmitted(level, toks, i + 1);
      assert toks[..i + 1][..i] == toks[..i];
    }
  }

  /** One turn over a spelled token extends the output by the token's meaning, or refuses when it would not fit. */
  lemma TurnReadsToken(level: int, mem: seq<byte>, length: nat, maxout: nat, ip: nat, ctrl: byte,
                       t: Token, out: seq<byte>)
    requires Encodable(level, t) && (t.Match? ==> t.dist <= |out|)
    requires length <= |mem| && |out| <= maxout
    requires EmitToken(level, t)[0] == ctrl
    requires Holds(mem[..length], ip, EmitToken(level, t)[1..])
    ensures DecodeTurn(level, mem, length, maxout, ip, ctrl, out)
         == if |Apply(out, t)| <= maxout then Turn(Apply(out, t), ip + |EmitToken(level, t)| - 1) else Rejected
  {
    hide ParseMatch, EmitMatch, CopyFrom;
    var e := EmitToken(level, t);
    HoldsInFront(mem, length, ip, e[1..]);
    match t
    case Literals(data) =>
      assert e[1..] == data;
    case Match(len, dist) =>
      ReadsBackMatch(level, mem, ip, ctrl, len, dist);
  }

  lemma HoldsInFront(mem: seq<byte>, length: nat, ip: nat, e: seq<byte>)
    requires length <= |mem| && Holds(mem[..length], ip, e)
    ensures ip + |e| <= length && Holds(mem, ip, e)
  {
    assert mem[..length][ip..ip + |e|] == mem[ip..ip + |e|];
  }

  /** Decoding from token `i` on yields the expansion of the whole stream if it fits, and refuses if it does not. */
  lemma {:induction false} DecodesFromToken(level: int, toks: seq<Token>, mem: seq<byte>, length: nat, maxout: nat,
                                            i: nat, ip: nat, ctrl: byte)
    requires WellFormed(level, toks)
    requires i < |toks| && length <= |mem| && ip <= length
    requires [ctrl] + mem[ip..length] == Rest(level, toks, i)
    requires |Expand(toks[..i])| <= maxout
    ensures DecodeFrom(level, mem, length, maxout, ip, ctrl, Expand(toks[..i]))
         == if |Expand(toks)| <= maxout then Done(Expand(toks)) else Reject
    decreases |toks| - i
  {
    hide EmitToken, DecodeTurn, Apply, Rest;
    var out, out' := Expand(toks[..i]), Expand(toks[..i + 1]);
    var next := ip + |EmitToken(level, toks[i])| - 1;
    assert out' == Apply(out, toks[i]) by { assert toks[..i + 1][..i] == toks[..i]; }
    ExpandPrefix(toks, i + 1);
    RestSplits(level, toks, mem, length, i, ip, ctrl);
    TurnReadsToken(level, mem, length, maxout, ip, ctrl, toks[i], out);
    if |out'| <= maxout {
      if i + 1 < |toks| {
        DecodesFromToken(level, toks, mem, length, maxout, i + 1, next + 1, mem[next]);
      } else {
        assert toks[..i + 1] == toks;
      }
    }
  }

  /** What lies ahead is the spelling of token `i`, then the next control byte and the rest. */
  lemma RestSplits(level: int, toks: seq<Token>, mem: seq<byte>, length: nat, i: nat, ip: nat, ctrl: byte)
    requires WellFormed(level, toks)
    requires i < |toks| && length <= |mem| && ip <= length
    requires [ctrl] + mem[ip..length] == Rest(level, toks, i)
    ensures var e := EmitToken(level, toks[i]); var next := ip + |e| - 1;
      && |e| >= 2 && e[0] == ctrl && Holds(mem[..length], ip, e[1..])
      && next <= length && (i + 1 < |toks| <==> next < length)
      && (next < length ==> [mem[next]] + mem[next + 1..length] == Rest(level, toks, i + 1))
  {
    hide EmitToken, Expand;
    var e, rest := EmitToken(level, toks[i]), Rest(level, toks, i + 1);
    var next := ip + |e| - 1;
    assert mem[ip..length] == e[1..] + rest by {
      assert mem[ip..length] == ([ctrl] + mem[ip..length])[1..];
      assert e[1..] + rest == (e + rest)[1..];
    }
    assert Holds(mem[..length], ip, e[1..] + rest) by { assert mem[..length][ip..length] == mem[ip..length]; }
    HoldsParts(mem[..length], ip, e[1..], rest);
    assert rest == mem[next..length];
    assert ctrl == (e + rest)[0];
    if i + 1 < |toks| {
      assert |EmitToken(level, toks[i + 1])| >= 2;
      assert rest == [mem[next]] + mem[next + 1..length];
    }
  }

  /** A stream with something in it opens with the count of a literal run, below 32. */
  lemma OpensWithCount(level: int, toks: seq<Token>)
    requires WellFormed(level, toks) && Expand(toks) != []
    ensures toks != [] && Expand(toks[..0]) == []
    ensures Emit(level, toks) == Rest(level, toks, 0)
    ensures |Emit(level, toks)| > 0 && Emit(level, toks)[0] < 32
  {
    assert toks[..0] == [];
    RestIsEmitted(level, toks, 0);
    assert toks[0].Literals? && Encodable(level, toks[0]);
    assert Rest(level, toks, 0)[0] == EmitToken(level, toks[0])[0];
  }

  /**
   The decompressor inverts every spelling of an input, whatever bytes follow it in memory:
   it returns exactly the input when that fits in `maxout` bytes and refuses otherwise.
   */
  lemma DecodeInvertsCompressedForm(input: seq<byte>, z: seq<byte>, after: seq<byte>, maxout: nat)
    requires input != []
    requires CompressedForm(input, z)
    ensures Decode(z + after, |z|, maxout) == if |input| <= maxout then Done(input) else Reject
  {
    hide WellFormed, Emit, Expand, Rest, DecodeFrom;
    var level, toks :| Spells(level, toks, input, z);
    OpensWithCount(level, toks);
    var plain := Emit(level, toks);
    var mem := z + after;
    assert mem[1..|z|] == z[1..] == plain[1..];
    assert plain == [plain[0]] + plain[1..];
    assert plain[0] == mem[0] % 32 && mem[0] / 32 + 1 == level;
    DecodesFromToken(level, toks, mem, |z|, maxout, 0, 1, plain[0]);
  }
}
