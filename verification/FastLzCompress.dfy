/**
 The compressor: literal runs whose count is patched in afterwards, matches found through a
 hash table that is only a hint, and the level 2 extras (runs, far matches, the level tag).
 */
module FastLzCompress {
  import opened Bytes
  import opened FastLzFormat
  import opened FastLzRoundTrip

  const HASH_SIZE := 8192
  const MAX_DISTANCE_1 := 8192
  const MAX_FARDISTANCE := 65535 + NEAR - 1

  // ---------------------------------------------------------------- what the loops maintain

  /** `m` bytes from `a` on repeat the bytes `d` places earlier. */
  ghost predicate Agrees(input: seq<byte>, a: nat, d: nat, m: nat) {
    1 <= d <= a && a + m <= |input| && forall k :: a <= k < a + m ==> input[k - d] == input[k]
  }

  /** `z` spells the first `ip` bytes of the input and has no literal run open. */
  ghost predicate Closed(level: int, input: seq<byte>, toks: seq<Token>, z: seq<byte>, ip: nat) {
    && ip <= |input|
    && WellFormed(level, toks) && toks != []
    && Expand(toks) == input[..ip]
    && z == Emit(level, toks)
  }

  /**
   `out` spells the first `ip - copy` bytes, then holds a provisional count of 31 for an open run of
   `copy` literals. The size bound is what makes the documented output buffer sufficient.
   */
  ghost predicate Open(level: int, input: seq<byte>, toks: seq<Token>, out: seq<byte>, ip: nat, copy: nat) {
    && copy < MAX_COPY && copy <= ip <= |input| && copy < |out|
    && WellFormed(level, toks) && (toks == [] ==> copy > 0)
    && Expand(toks) == input[..ip - copy]
    && out == Emit(level, toks) + [MAX_COPY - 1] + input[ip - copy..ip]
    && |Emit(level, toks)| <= (ip - copy) + (ip - copy) / 32
  }

  lemma {:induction false} CopyReproduces(input: seq<byte>, a: nat, d: nat, m: nat)
    requires Agrees(input, a, d, m)
    ensures CopyFrom(input[..a], d, m) == input[..a + m]
  {
    if m > 0 {
      CopyReproduces(input, a, d, m - 1);
      assert input[..a + m] == input[..a + m - 1] + [input[a + m - 1]];
    }
  }

  /** Appending a token keeps a stream well formed and extends both its spelling and its meaning. */
  lemma Snoc(level: int, toks: seq<Token>, t: Token)
    requires WellFormed(level, toks) && Encodable(level, t)
    requires t.Match? ==> t.dist <= |Expand(toks)| && toks != []
    ensures WellFormed(level, toks + [t])
    ensures Expand(toks + [t]) == Apply(Expand(toks), t)
    ensures Emit(level, toks + [t]) == Emit(level, toks) + EmitToken(level, t)
  {
    hide EmitToken, Apply, Encodable;
    var ts := toks + [t];
    assert ts[..|ts| - 1] == toks;
    forall i | 0 <= i < |ts| && ts[i].Match? ensures ts[i].dist <= |Expand(ts[..i])| {
      if i < |toks| {
        assert ts[i] == toks[i];
        assert ts[..i] == toks[..i];
      } else {
        assert ts[..i] == toks;
      }
    }
  }

  lemma RunToken(level: int, input: seq<byte>, toks: seq<Token>, c: nat, ip: nat)
    requires c < ip <= |input| && ip - c <= MAX_COPY
    requires WellFormed(level, toks) && Expand(toks) == input[..c]
    ensures var toks' := toks + [Literals(input[c..ip])];
      && WellFormed(level, toks') && Expand(toks') == input[..ip]
      && Emit(level, toks') == Emit(level, toks) + ([ip - c - 1] + input[c..ip])
  {
    hide WellFormed, Emit, Expand;
    var t := Literals(input[c..ip]);
    Snoc(level, toks, t);
    assert input[..c] + input[c..ip] == input[..ip];
    assert EmitToken(level, t) == [ip - c - 1] + input[c..ip];
  }

  lemma CloseRun(level: int, input: seq<byte>, toks: seq<Token>, out: seq<byte>, ip: nat, copy: nat)
    requires Open(level, input, toks, out, ip, copy)
    requires copy > 0
    ensures var toks' := toks + [Literals(input[ip - copy..ip])];
      Closed(level, input, toks', out[|out| - copy - 1 := copy - 1], ip)
  {
    hide WellFormed, Emit, Expand;
    RunToken(level, input, toks, ip - copy, ip);
    assert out[|out| - copy - 1 := copy - 1] == Emit(level, toks) + ([copy - 1] + input[ip - copy..ip]);
  }

  lemma DropEmptyRun(level: int, input: seq<byte>, toks: seq<Token>, out: seq<byte>, ip: nat)
    requires Open(level, input, toks, out, ip, 0)
    ensures Closed(level, input, toks, out[..|out| - 1], ip)
  {
    assert input[ip - 0..ip] == [];
    assert out[..|out| - 1] == Emit(level, toks);
  }

  lemma PushLiteral(level: int, input: seq<byte>, toks: seq<Token>, out: seq<byte>, ip: nat, copy: nat)
    requires Open(level, input, toks, out, ip, copy)
    requires ip < |input| && copy + 1 < MAX_COPY
    ensures Open(level, input, toks, out + [input[ip]], ip + 1, copy + 1)
  {
    hide WellFormed, Emit, Expand;
    assert input[ip - copy..ip + 1] == input[ip - copy..ip] + [input[ip]];
  }

  /** The 32nd literal needs no patching: the provisional count is already right. */
  lemma FullRun(level: int, input: seq<byte>, toks: seq<Token>, out: seq<byte>, ip: nat)
    requires Open(level, input, toks, out, ip, MAX_COPY - 1)
    requires ip < |input|
    ensures var toks' := toks + [Literals(input[ip + 1 - MAX_COPY..ip + 1])];
      Open(level, input, toks', out + [input[ip], MAX_COPY - 1], ip + 1, 0)
  {
    var c := ip + 1 - MAX_COPY;
    hide WellFormed, Emit, Expand;
    RunToken(level, input, toks, c, ip + 1);
    var z := Emit(level, toks);
    assert input[c..ip + 1] == input[c..ip] + [input[ip]];
    assert input[ip + 1 - 0..ip + 1] == [];
    assert z + [31] + input[c..ip] + [input[ip], 31] == z + ([31] + input[c..ip + 1]) + [31] + [];
  }

  lemma AppendMatch(level: int, input: seq<byte>, toks: seq<Token>, z: seq<byte>, a: nat, m: nat, d: nat)
    requires Closed(level, input, toks, z, a)
    requires Encodable(level, Match(m, d)) && Agrees(input, a, d, m)
    ensures Closed(level, input, toks + [Match(m, d)], z + EmitMatch(level, m, d), a + m)
  {
    hide EmitMatch;
    Snoc(level, toks, Match(m, d));
    CopyReproduces(input, a, d, m);
  }

  // ---------------------------------------------------------------- writing bytes

  /** `*op++ = b` */
  method Put(output: array<byte>, op: nat, b: byte) returns (op': nat)
    requires op < output.Length
    modifies output
    ensures op' == op + 1
    ensures output[..op'] == old(output[..op]) + [b]
  {
    output[op] := b;
    op' := op + 1;
  }

  lemma ExtensionStep(k: nat)
    ensures Extension(k) == if k >= 255 then [255] + Extension(k - 255) else [k]
  {
  }

  method PutExtension(output: array<byte>, op: nat, k: nat) returns (op': nat)
    requires op + |Extension(k)| <= output.Length
    modifies output
    ensures op' == op + |Extension(k)|
    ensures output[..op'] == old(output[..op]) + Extension(k)
  {
    hide Extension;
    op' := op;
    var len := k;
    ghost var done: seq<byte> := [];
    while len >= 255
      invariant done + Extension(len) == Extension(k)
      invariant op' == op + |done|
      invariant output[..op'] == old(output[..op]) + done
    {
      ghost var start := old(output[..op]);
      op' := Put(output, op', 255);
      assert start + done + [255] == start + (done + [255]);
      ghost var rest := Extension(len - 255);
      ExtensionStep(len);
      assert done + ([255] + rest) == (done + [255]) + rest;
      done := done + [255];
      len := len - 255;
    }
    ExtensionStep(len);
    op' := Put(output, op', len);
  }

  method PutLength(level: int, output: array<byte>, op: nat, n: nat) returns (op': nat)
    requires level == 1 ==> n <= 262
    requires op + |LengthBytes(level, n)| <= output.Length
    modifies output
    ensures op' == op + |LengthBytes(level, n)|
    ensures output[..op'] == old(output[..op]) + LengthBytes(level, n)
  {
    op' := op;
    if n >= 7 {
      if level == 1 {
        op' := Put(output, op', n - 7);
      } else {
        op' := PutExtension(output, op', n - 7);
      }
    }
  }

  method PutDistance(level: int, output: array<byte>, op: nat, d: nat) returns (op': nat)
    requires if level == 1 then d < 8192 else d < NEAR + 65536
    requires op + |DistanceBytes(level, d)| <= output.Length
    modifies output
    ensures op' == op + |DistanceBytes(level, d)|
    ensures output[..op'] == old(output[..op]) + DistanceBytes(level, d)
  {
    if level == 1 || d < NEAR {
      op' := Put(output, op, d % 256);
    } else {
      op' := Put(output, op, 255);
      op' := Put(output, op', (d - NEAR) / 256);
      op' := Put(output, op', (d - NEAR) % 256);
    }
  }

  /** Writes one match of `n + 2` bytes at biased distance `d`. */
  method PutMatch(level: int, output: array<byte>, op: nat, n: nat, d: nat) returns (op': nat)
    requires Encodable(level, Match(n + 2, d + 1))
    requires op + |EmitMatch(level, n + 2, d + 1)| <= output.Length
    modifies output
    ensures op' == op + |EmitMatch(level, n + 2, d + 1)|
    ensures output[..op'] == old(output[..op]) + EmitMatch(level, n + 2, d + 1)
  {
    hide LengthBytes, DistanceBytes, HighDistance;
    ghost var start := output[..op];
    var c: byte := 32 * Min(n, 7) + HighDistance(level, d);
    ghost var lb, db := LengthBytes(level, n), DistanceBytes(level, d);
    assert EmitMatch(level, n + 2, d + 1) == [c] + lb + db;
    hide EmitMatch;
    op' := Put(output, op, c);
    op' := PutLength(level, output, op', n);
    op' := PutDistance(level, output, op', d);
    assert start + [c] + lb + db == start + ([c] + lb + db);
  }

  /** Encodes a match of `m` bytes at `anchor`; level 1 splits it into pieces of 262 bytes. */
  method EncodeMatch(level: int, ghost input: seq<byte>, output: array<byte>, op: nat,
                     anchor: nat, m: nat, dist: nat, ghost toks: seq<Token>)
    returns (op': nat, ghost toks': seq<Token>)
    requires level == 1 || level == 2
    requires op + m <= output.Length && Closed(level, input, toks, output[..op], anchor)
    requires Agrees(input, anchor, dist, m) && 3 <= m
    requires if level == 1 then dist <= 8192 else dist <= NEAR + 65536 && (dist > NEAR ==> m >= 5)
    modifies output
    ensures op < op' < op + m
    ensures Closed(level, input, toks', output[..op'], anchor + m) && toks' != [] && toks'[|toks'| - 1].Match?
  {
    hide EmitMatch, Closed;
    op', toks' := op, toks;
    ghost var at := anchor;
    var len := m - 2;
    if level == 1 {
      while len > MAX_LEN - 2
        invariant 1 <= len && at + len == anchor + m - 2
        invariant op <= op' <= op + (at - anchor)
        invariant at == anchor || op' < op + (at - anchor)
        invariant Closed(level, input, toks', output[..op'], at)
      {
        AppendMatch(level, input, toks', output[..op'], at, 262, dist);
        op' := PutMatch(level, output, op', 260, dist - 1);
        toks' := toks' + [Match(262, dist)];
        at := at + 262;
        len := len - (MAX_LEN - 2);
      }
    }
    AppendMatch(level, input, toks', output[..op'], at, len + 2, dist);
    op' := PutMatch(level, output, op', len, dist - 1);
    toks' := toks' + [Match(len + 2, dist)];
  }

  // ---------------------------------------------------------------- finding matches

  /** The byte before `anchor` goes on for three bytes. */
  predicate RunsOn(input: seq<byte>, anchor: nat)
    requires 1 <= anchor && anchor + 3 <= |input|
  {
    input[anchor - 1] == input[anchor] == input[anchor + 1] == input[anchor + 2]
  }

  /** Position `ref` can be used for a match at `anchor`: near enough, and three bytes agree, or five when it is far. */
  predicate Usable(level: int, input: seq<byte>, ref: nat, anchor: nat)
    requires ref <= anchor && anchor + 5 <= |input|
  {
    && 0 < anchor - ref < (if level == 1 then MAX_DISTANCE_1 else MAX_FARDISTANCE)
    && input[ref] == input[anchor] && input[ref + 1] == input[anchor + 1] && input[ref + 2] == input[anchor + 2]
    && (level == 2 && anchor - ref >= NEAR ==>
          input[ref + 3] == input[anchor + 3] && input[ref + 4] == input[anchor + 4])
  }

  /** What the table and the input offer at `anchor`. */
  predicate Offered(level: int, input: seq<byte>, ref: nat, anchor: nat)
    requires 1 <= anchor && ref <= anchor && anchor + 5 <= |input|
  {
    (level == 2 && RunsOn(input, anchor)) || Usable(level, input, ref, anchor)
  }

  /**
   Level 2 first looks for a run of one byte. Otherwise the hash table proposes an earlier position and
   the bytes decide; whatever it proposes, an accepted match is real and its distance has a spelling.
   */
  method FindMatch(level: int, input: seq<byte>, anchor: nat, htab: array<nat>, slot: nat -> nat)
    returns (found: bool, dist: nat, len: nat)
    requires level == 1 || level == 2
    requires 2 <= anchor && anchor + 13 <= |input|
    requires htab.Length == HASH_SIZE && forall k :: 0 <= k < HASH_SIZE ==> htab[k] <= anchor
    requires forall p :: slot(p) < HASH_SIZE
    modifies htab
    ensures forall k :: 0 <= k < HASH_SIZE ==> htab[k] <= anchor
    ensures found ==> Agrees(input, anchor, dist, len) && len == if level == 2 && dist >= NEAR then 5 else 3
    ensures found ==> dist < if level == 1 then MAX_DISTANCE_1 else MAX_FARDISTANCE
    ensures found <==> Offered(level, input, old(htab[slot(anchor)]), anchor)
    ensures found ==> dist == if level == 2 && RunsOn(input, anchor) then 1 else anchor - old(htab[slot(anchor)])
    ensures htab[..] == if level == 2 && RunsOn(input, anchor) then old(htab[..])
                        else old(htab[..])[slot(anchor) := anchor]
  {
    len := 3;
    if level == 2 && input[anchor] == input[anchor - 1]
       && input[anchor - 1] == input[anchor + 1] && input[anchor] == input[anchor + 2] {
      return true, 1, 3;
    }
    var ref := htab[slot(anchor)];
    dist := anchor - ref;
    htab[slot(anchor)] := anchor;
    if dist == 0 || dist >= (if level == 1 then MAX_DISTANCE_1 else MAX_FARDISTANCE)
       || input[ref] != input[anchor] || input[ref + 1] != input[anchor + 1] || input[ref + 2] != input[anchor + 2] {
      return false, dist, len;
    }
    if level == 2 && dist >= NEAR {
      if input[ref + 3] != input[anchor + 3] || input[ref + 4] != input[anchor + 4] {
        return false, dist, len;
      }
      len := 5;
    }
    found := true;
  }

  /** Extends a match; `end` is one past the first byte that differs, or the place where comparing stops. */
  method ExtendMatch(input: seq<byte>, anchor: nat, dist: nat, len: nat) returns (end: nat)
    requires anchor + 13 <= |input| && 3 <= len <= 5
    requires Agrees(input, anchor, dist, len) && (dist == 1 ==> len == 3)
    ensures anchor + len < end <= |input|
    ensures Agrees(input, anchor, dist, end - 1 - anchor)
    ensures end >= |input| - 2 || input[end - 1] != input[end - 1 - dist]
  {
    var bound := |input| - 2;
    var ip := anchor + len;
    var ref := ip - dist;
    if dist == 1 {
      var x := input[ip - 1];
      while ip < bound
        invariant anchor + len <= ip <= bound && ref == ip - 1
        invariant Agrees(input, anchor, 1, ip - 1 - anchor) && input[ip - 2] == x
        invariant ip == anchor + len ==> input[ip - 1] == x
      {
        if input[ref] != x { break; }
        ref, ip := ref + 1, ip + 1;
      }
      end := ip;
    } else {
      var stopped, i := false, 0;
      while !stopped && (i < 8 || ip < bound)
        invariant ref == ip - dist && anchor + len + i <= ip && i <= 8 && (i < 8 && !stopped ==> ip == anchor + len + i)
        invariant !stopped ==> ip <= |input| && Agrees(input, anchor, dist, ip - anchor)
        invariant stopped ==> anchor + len < ip <= |input| && Agrees(input, anchor, dist, ip - 1 - anchor)
        invariant stopped ==> input[ip - 1] != input[ip - 1 - dist]
        decreases if stopped then 0 else 1, |input| - ip
      {
        stopped := input[ref] != input[ip];
        ref, ip := ref + 1, ip + 1;
        if i < 8 && !stopped { i := i + 1; }
      }
      end := ip;
    }
  }

  // ---------------------------------------------------------------- the compressor

  /** Appends one literal; a full run of 32 opens the next one at once. */
  method Literal(level: int, input: seq<byte>, output: array<byte>, op: nat, ip: nat, copy: nat, ghost toks: seq<Token>)
    returns (op': nat, copy': nat, ghost toks': seq<Token>)
    requires op <= output.Length && Open(level, input, toks, output[..op], ip, copy)
    requires ip < |input| && output.Length >= |input| + |input| / 32 + 1
    modifies output
    ensures op' <= output.Length
    ensures Open(level, input, toks', output[..op'], ip + 1, copy')
  {
    op' := Put(output, op, input[ip]);
    copy', toks' := copy + 1, toks;
    if copy' == MAX_COPY {
      FullRun(level, input, toks, old(output[..op]), ip);
      copy', toks' := 0, toks + [Literals(input[ip + 1 - MAX_COPY..ip + 1])];
      op' := Put(output, op', MAX_COPY - 1);
    } else {
      PushLiteral(level, input, toks, old(output[..op]), ip, copy);
    }
  }

  /** Ends the open run: patches its count, or takes back the provisional count of an empty run. */
  method EndRun(level: int, ghost input: seq<byte>, output: array<byte>, op: nat, ghost ip: nat, copy: nat,
                ghost toks: seq<Token>)
    returns (op': nat, ghost toks': seq<Token>)
    requires op <= output.Length && Open(level, input, toks, output[..op], ip, copy)
    modifies output
    ensures op' <= op && op' <= ip + ip / 32 + 1
    ensures Closed(level, input, toks', output[..op'], ip)
  {
    hide WellFormed, Emit, Expand;
    ghost var out := output[..op];
    if copy > 0 {
      output[op - copy - 1] := copy - 1;
      op' := op;
      CloseRun(level, input, toks, out, ip, copy);
      toks' := toks + [Literals(input[ip - copy..ip])];
      assert output[..op'] == out[|out| - copy - 1 := copy - 1];
    } else {
      op' := op - 1;
      DropEmptyRun(level, input, toks, out, ip);
      toks' := toks;
      assert output[..op'] == out[..|out| - 1];
    }
  }

  /** One turn of the main loop: a match or a literal. */
  method Turn(level: int, input: seq<byte>, output: array<byte>, op: nat, ip: nat, copy: nat,
              htab: array<nat>, slot: nat -> nat, ghost toks: seq<Token>)
    returns (op': nat, ip': nat, copy': nat, ghost toks': seq<Token>)
    requires level == 1 || level == 2
    requires op <= output.Length && Open(level, input, toks, output[..op], ip, copy)
    requires 2 <= ip && ip + 13 <= |input| && output.Length >= |input| + |input| / 32 + 1
    requires htab.Length == HASH_SIZE && forall k :: 0 <= k < HASH_SIZE ==> htab[k] <= ip
    requires forall p :: slot(p) < HASH_SIZE
    modifies output, htab
    ensures op' <= output.Length && ip < ip'
    ensures Open(level, input, toks', output[..op'], ip', copy')
    ensures Offered(level, input, old(htab[slot(ip)]), ip) ==> copy' == 0 && toks' != [] && toks'[|toks'| - 1].Match?
    ensures !Offered(level, input, old(htab[slot(ip)]), ip) ==> ip' == ip + 1
    ensures forall k :: 0 <= k < HASH_SIZE ==> htab[k] <= ip'
  {
    hide Open, Closed, Offered, RunsOn;
    var found, dist, len := FindMatch(level, input, ip, htab, slot);
    if !found {
      op', copy', toks' := Literal(level, input, output, op, ip, copy, toks);
      ip' := ip + 1;
    } else {
      var end := ExtendMatch(input, ip, dist, len);
      op', toks' := EndRun(level, input, output, op, ip, copy, toks);
      op', toks' := EncodeMatch(level, input, output, op', ip, end - 1 - ip, dist, toks');
      ip' := end - 3;
      htab[slot(ip')] := ip';
      ip' := ip' + 1;
      htab[slot(ip')] := ip';
      ip' := ip' + 1;
      OpenEmpty(level, input, toks', output[..op'], ip');
      op' := Put(output, op', MAX_COPY - 1);
      copy' := 0;
    }
  }

  lemma OpenEmpty(level: int, input: seq<byte>, toks: seq<Token>, z: seq<byte>, ip: nat)
    requires Closed(level, input, toks, z, ip) && |z| <= ip + ip / 32
    ensures Open(level, input, toks, z + [MAX_COPY - 1], ip, 0)
  {
    assert input[ip - 0..ip] == [];
  }

  lemma EmptyInputForm()
    ensures CompressedForm([], [])
  {
    assert Spells(1, [], [], []);
  }

  /** Inputs of one to three bytes become a single literal run, untagged at either level. */
  lemma ShortInput(input: seq<byte>)
    requires 1 <= |input| <= 3
    ensures CompressedForm(input, [|input| - 1] + input)
  {
    assert input[0..|input|] == input && input[..0] == [] && input[..|input|] == input;
    assert WellFormed(1, []) && Expand([]) == [] && Emit(1, []) == [];
    RunToken(1, input, [], 0, |input|);
    assert Spells(1, [] + [Literals(input)], input, [|input| - 1] + input);
  }

  /**
   Compresses `input`. `slot` stands for the hash of the bytes at a position; no assumption is made about
   it beyond its range, so the result is a faithful spelling whatever the hash table proposes.
   */
  method Compress(level: int, input: seq<byte>, output: array<byte>, slot: nat -> nat) returns (size: nat)
    requires level == 1 || level == 2
    requires output.Length >= |input| + |input| / 32 + 1
    requires forall p :: slot(p) < HASH_SIZE
    modifies output
    ensures size <= |input| + |input| / 32 + 1
    ensures CompressedForm(input, output[..size])
    ensures size == 0 <==> input == []
    ensures input != [] ==> output[0] / 32 == if |input| < 4 then 0 else level - 1
  {
    if |input| < 4 {
      size := CompressShort(input, output);
      return;
    }
    hide Open, CompressedForm;
    var htab := NewTable();
    var op: nat := Put(output, 0, MAX_COPY - 1);
    op := Put(output, op, input[0]);
    op := Put(output, op, input[1]);
    OpenFirst(level, input, output[..op]);
    var copy: nat, ip: nat := 2, 2;
    ghost var toks: seq<Token> := [];
    while ip < |input| - 12
      invariant 2 <= ip && op <= output.Length
      invariant Open(level, input, toks, output[..op], ip, copy)
      invariant forall k :: 0 <= k < HASH_SIZE ==> htab[k] <= ip
      decreases |input| - ip
    {
      op, ip, copy, toks := Turn(level, input, output, op, ip, copy, htab, slot, toks);
    }
    size := Finish(level, input, output, op, ip, copy, toks);
  }

  method NewTable() returns (htab: array<nat>)
    ensures fresh(htab) && htab.Length == HASH_SIZE
    ensures forall k :: 0 <= k < HASH_SIZE ==> htab[k] == 0
  {
    htab := new nat[HASH_SIZE];
    for h := 0 to HASH_SIZE
      invariant forall k :: 0 <= k < h ==> htab[k] == 0
    {
      htab[h] := 0;
    }
  }

  /** Left-over bytes as literals. */
  method Leftover(level: int, input: seq<byte>, output: array<byte>, from: nat, start: nat, run: nat,
                  ghost before: seq<Token>)
    returns (op: nat, copy: nat, ghost toks: seq<Token>)
    requires from <= output.Length && Open(level, input, before, output[..from], start, run)
    requires output.Length >= |input| + |input| / 32 + 1
    modifies output
    ensures op <= output.Length && Open(level, input, toks, output[..op], |input|, copy)
  {
    hide Open;
    OpenBound(level, input, before, output[..from], start, run);
    var ip := start;
    op, copy, toks := from, run, before;
    while ip <= |input| - 1
      invariant 0 <= ip <= |input| && op <= output.Length
      invariant Open(level, input, toks, output[..op], ip, copy)
    {
      op, copy, toks := Literal(level, input, output, op, ip, copy, toks);
      ip := ip + 1;
    }
  }

  /** Left-over bytes, the last count, and the level tag. */
  method Finish(level: int, input: seq<byte>, output: array<byte>, from: nat, start: nat, run: nat,
                ghost before: seq<Token>)
    returns (size: nat)
    requires level == 1 || level == 2
    requires from <= output.Length && Open(level, input, before, output[..from], start, run)
    requires input != [] && output.Length >= |input| + |input| / 32 + 1
    modifies output
    ensures 0 < size <= |input| + |input| / 32 + 1
    ensures CompressedForm(input, output[..size]) && output[0] / 32 == level - 1
  {
    hide Open, Closed, CompressedForm;
    var op, copy;
    ghost var toks;
    op, copy, toks := Leftover(level, input, output, from, start, run, before);
    op, toks := EndRun(level, input, output, op, |input|, copy, toks);
    ghost var z := output[..op];
    ClosedSpells(level, input, toks, z);
    if level == 2 {
      output[0] := SetBit5(output[0]);
    }
    assert output[..op] == Tagged(level, z);
    size := op;
  }

  method CompressShort(input: seq<byte>, output: array<byte>) returns (size: nat)
    requires |input| < 4 && output.Length >= |input| + 1
    modifies output
    ensures size <= |input| + 1
    ensures CompressedForm(input, output[..size])
    ensures size == 0 <==> input == []
    ensures input != [] ==> output[0] / 32 == 0
  {
    hide CompressedForm;
    if |input| == 0 {
      EmptyInputForm();
      assert output[..0] == [];
      return 0;
    }
    var op := Put(output, 0, |input| - 1);
    for ip := 0 to |input|
      invariant op == ip + 1 && output[..op] == [|input| - 1] + input[..ip]
    {
      op := Put(output, op, input[ip]);
    }
    ShortInput(input);
    assert input[..|input|] == input;
    size := |input| + 1;
  }

  lemma OpenFirst(level: int, input: seq<byte>, out: seq<byte>)
    requires |input| >= 4 && out == [MAX_COPY - 1, input[0], input[1]]
    ensures Open(level, input, [], out, 2, 2)
  {
    assert input[2 - 2..2] == [input[0], input[1]];
    assert input[..0] == [];
  }

  lemma OpenBound(level: int, input: seq<byte>, toks: seq<Token>, out: seq<byte>, ip: nat, copy: nat)
    requires Open(level, input, toks, out, ip, copy)
    ensures ip <= |input|
  {
  }

  lemma ClosedSpells(level: int, input: seq<byte>, toks: seq<Token>, z: seq<byte>)
    requires level == 1 || level == 2
    requires Closed(level, input, toks, z, |input|) && input != []
    ensures CompressedForm(input, Tagged(level, z)) && |z| > 0 && z[0] < 32
  {
    assert input[..|input|] == input;
    OpensWithCount(level, toks);
    assert Spells(level, toks, input, Tagged(level, z));
  }

  /** The buffer the header asks for (5 percent more than the input, at least 66 bytes) is always enough. */
  lemma DocumentedBufferSuffices(n: nat, capacity: nat)
    requires 100 * capacity >= 105 * n && capacity >= 66
    ensures n + n / 32 + 1 <= capacity
  {
    if n >= 56 {
      assert 100 * (n / 32) <= 100 * n / 32;
    }
  }
}
