/** Framing of GDB remote packets: `$`, a body, `#` and two hexadecimal digits of checksum. */
module GdbPacket {
  import opened Bytes

  const BUFFER_SIZE := 4096

  const DOLLAR: byte := 0x24
  const HASH: byte := 0x23
  const OPEN: byte := 0x7b    // '{'
  const CLOSE: byte := 0x7d   // '}'

  function Sum(s: seq<byte>): nat { if s == [] then 0 else Sum(s[..|s| - 1]) + s[|s| - 1] }

  // ---------------------------------------------------------------- hexadecimal

  function HexEncode(v: nat): byte { if v % 16 < 10 then 0x30 + v % 16 else 0x61 + v % 16 - 10 }

  function HexDecode(c: byte): int {
    if 0x30 <= c <= 0x39 then c as int - 0x30
    else if 0x61 <= c <= 0x66 then c as int - 0x61 + 10
    else if 0x41 <= c <= 0x46 then c as int - 0x41 + 10
    else -1
  }

  const DIGITS: seq<byte> :=
    [0x30, 0x31, 0x32, 0x33, 0x34, 0x35, 0x36, 0x37, 0x38, 0x39, 0x61, 0x62, 0x63, 0x64, 0x65, 0x66]
  const CAPITALS: seq<byte> := [0x41, 0x42, 0x43, 0x44, 0x45, 0x46]

  /** The sixteen digits in order; capitals are read too, and nothing else is. */
  lemma HexDigits(v: nat, c: byte)
    requires v < 16
    ensures HexEncode(v) == DIGITS[v] && HexDecode(DIGITS[v]) == v
    ensures v >= 10 ==> HexDecode(CAPITALS[v - 10]) == v
    ensures HexDecode(c) < 0 <==> c !in DIGITS && c !in CAPITALS
  {
    var d := HexDecode(c);
    if d >= 0 {
      assert c == DIGITS[d] || (d >= 10 && c == CAPITALS[d - 10]);
    }
  }

  function HexOf(data: seq<byte>): seq<byte> {
    if data == [] then []
    else HexOf(data[..|data| - 1]) + [HexEncode(data[|data| - 1] / 16), HexEncode(data[|data| - 1])]
  }

  /** `(x << 4) | digit` on eight bits; a character that is no digit counts as all ones. */
  function Shift4(x: byte, c: byte): byte {
    if HexDecode(c) < 0 then 255 else (x * 16) % 256 + HexDecode(c)
  }

  lemma HexDigit(v: nat)
    ensures HexDecode(HexEncode(v)) == v % 16
  {
  }

  lemma HexPair(b: byte)
    ensures Shift4(Shift4(0, HexEncode(b / 16)), HexEncode(b)) == b
  {
    hide HexEncode, HexDecode;
    HexDigit(b / 16);
    HexDigit(b);
    assert Shift4(0, HexEncode(b / 16)) == b / 16;
  }

  function FromHex(text: seq<byte>, size: nat): seq<byte>
    requires |text| >= 2 * size
  {
    if size == 0 then []
    else FromHex(text, size - 1) + [Shift4(Shift4(0, text[2 * size - 2]), text[2 * size - 1])]
  }

  /** Reading digits in pairs. */
  method PacketInHex(text: seq<byte>, size: nat) returns (data: seq<byte>)
    requires |text| >= 2 * size
    ensures data == FromHex(text, size)
  {
    hide Shift4;
    data := [];
    for i := 0 to size
      invariant data == FromHex(text, i)
    {
      data := data + [Shift4(Shift4(0, text[2 * i]), text[2 * i + 1])];
    }
  }

  /** What was sent as hexadecimal digits is read back. */
  lemma {:induction false} HexRoundTrip(d: seq<byte>, text: seq<byte>, n: nat)
    requires n <= |d| && HexOf(d) <= text && |text| >= 2 * n
    ensures FromHex(text, n) == d[..n]
  {
    hide Shift4, HexEncode;
    if n > 0 {
      HexRoundTrip(d, text, n - 1);
      HexAt(d, n - 1);
      HexPair(d[n - 1]);
      assert text[2 * n - 2] == HexOf(d)[2 * n - 2] && text[2 * n - 1] == HexOf(d)[2 * n - 1];
      assert d[..n] == d[..n - 1] + [d[n - 1]];
    }
  }

  lemma {:induction false} HexAt(d: seq<byte>, i: nat)
    requires i < |d|
    ensures |HexOf(d)| == 2 * |d|
    ensures HexOf(d)[2 * i] == HexEncode(d[i] / 16) && HexOf(d)[2 * i + 1] == HexEncode(d[i])
  {
    hide HexEncode;
    HexLength(d);
    if i < |d| - 1 {
      HexAt(d[..|d| - 1], i);
    } else {
      HexLength(d[..|d| - 1]);
    }
  }

  lemma {:induction false} HexLength(d: seq<byte>)
    ensures |HexOf(d)| == 2 * |d|
  {
    if d != [] { HexLength(d[..|d| - 1]); }
  }

  // ---------------------------------------------------------------- sending

  predicate Special(c: byte) { c == HASH || c == DOLLAR }

  /** `}` and the character with bit 5 flipped, for the two characters that frame a packet. */
  function EscapeByte(c: byte): seq<byte> { if Special(c) then [CLOSE, c - 0x20] else [c] }

  function Escape(s: seq<byte>): seq<byte> {
    if s == [] then [] else Escape(s[..|s| - 1]) + EscapeByte(s[|s| - 1])
  }

  predicate Plain(s: seq<byte>) { forall i :: 0 <= i < |s| ==> !Special(s[i]) }

  lemma {:induction false} EscapeIsPlain(s: seq<byte>)
    ensures Plain(Escape(s))
  {
    if s != [] { EscapeIsPlain(s[..|s| - 1]); }
  }

  lemma {:induction false} HexIsPlain(d: seq<byte>)
    ensures Plain(HexOf(d))
  {
    if d != [] { HexIsPlain(d[..|d| - 1]); }
  }

  lemma {:induction false} EscapeOfPlain(s: seq<byte>)
    requires Plain(s)
    ensures Escape(s) == s
  {
    if s != [] { EscapeOfPlain(s[..|s| - 1]); }
  }

  lemma {:induction false} EscapePrefix(s: seq<byte>, i: nat)
    requires i <= |s|
    ensures |Escape(s[..i])| <= |Escape(s)|
    decreases |s| - i
  {
    if i == |s| {
      assert s[..i] == s;
    } else {
      EscapePrefix(s, i + 1);
      assert s[..i + 1][..i] == s[..i];
    }
  }

  lemma EscapeStep(s: seq<byte>, i: nat)
    requires i < |s|
    ensures Escape(s[..i + 1]) == Escape(s[..i]) + EscapeByte(s[i])
  {
    assert s[..i + 1][..i] == s[..i];
  }

  function Checksum(body: seq<byte>): byte { Sum(body) % 256 }

  function Framed(body: seq<byte>): seq<byte> {
    [DOLLAR] + body + [HASH, HexEncode(Checksum(body) / 16), HexEncode(Checksum(body))]
  }

  class Remote {
    const output: array<byte>
    var level: nat
    ghost var body: seq<byte>   // what has been appended since the last reset

    ghost predicate Valid()
      reads this, output
    {
      output.Length == BUFFER_SIZE && level <= BUFFER_SIZE - 1
    }

    /** A packet is being built: `$` and a body that cannot be mistaken for framing. */
    ghost predicate Building()
      reads this, output
    {
      Valid() && output[..level] == [DOLLAR] + body && Plain(body)
    }

    constructor ()
      ensures Valid() && fresh(output)
    {
      output := new byte[BUFFER_SIZE];
      level, body := 0, [];
    }

    method Reset()
      requires Valid()
      modifies this, output
      ensures Building() && body == []
    {
      level := 1;
      output[0] := DOLLAR;
      body := [];
    }

    /** One character, as one or two bytes; on overflow the first may have been written. */
    method AppendByte(ch: byte) returns (ok: bool)
      requires Valid()
      modifies this`level, output
      ensures Valid() && old(level) <= level && output[..old(level)] == old(output[..level])
      ensures ok <==> old(level) + |EscapeByte(ch)| <= BUFFER_SIZE - 1
      ensures ok ==> output[..level] == old(output[..level]) + EscapeByte(ch)
    {
      var c := ch;
      if c == HASH || c == DOLLAR {
        if level >= BUFFER_SIZE - 1 { return false; }
        output[level] := CLOSE;
        level := level + 1;
        c := c - 0x20;
      }
      if level >= BUFFER_SIZE - 1 { return false; }
      output[level] := c;
      level := level + 1;
      ok := true;
    }

    /** All of the text, escaped, or none of it: exactly when it fits. */
    method AppendBuffer(text: seq<byte>) returns (ok: bool)
      requires Building()
      modifies this, output
      ensures Building() && body == old(body) + if ok then Escape(text) else []
      ensures ok <==> old(level) + |Escape(text)| <= BUFFER_SIZE - 1
    {
      hide Plain, Escape;
      ghost var head := output[..level];
      ok := AppendAll(text);
      if ok {
        EscapeIsPlain(text);
        PlainConcat(body, Escape(text));
        assert head + Escape(text) == [DOLLAR] + (body + Escape(text));
        body := body + Escape(text);
      }
    }

    /** The loop: character by character, rolled back when the buffer is full. */
    method AppendAll(text: seq<byte>) returns (ok: bool)
      requires Valid()
      modifies this`level, output
      ensures Valid() && output[..level] == old(output[..level]) + if ok then Escape(text) else []
      ensures ok <==> old(level) + |Escape(text)| <= BUFFER_SIZE - 1
    {
      var ol := level;
      ghost var head := output[..level];
      assert Escape(text[..0]) == [];
      hide EscapeByte, Escape;
      for i := 0 to |text|
        invariant Valid() && ol <= level && |head| == ol
        invariant output[..level] == head + Escape(text[..i])
      {
        ghost var so := output[..level];
        assert |so| == ol + |Escape(text[..i])| && so[..ol] == head;
        EscapeStep(text, i);
        ok := AppendByte(text[i]);
        if !ok {
          EscapePrefix(text, i + 1);
          level := ol;
          assert output[..level] == so[..ol];
          return;
        }
        assert so + EscapeByte(text[i]) == head + Escape(text[..i + 1]);
      }
      assert text[..|text|] == text;
      ok := true;
    }

    /** Two digits per byte, or none at all: exactly when they fit. */
    method AppendHex(data: seq<byte>) returns (ok: bool)
      requires Building()
      modifies this, output
      ensures Building() && body == old(body) + if ok then HexOf(data) else []
      ensures ok <==> old(level) + 2 * |data| <= BUFFER_SIZE - 1 || data == []
    {
      var ol := level;
      ghost var head := output[..level];
      assert HexOf(data[..0]) == [];
      hide Plain, HexEncode;
      for i := 0 to |data|
        invariant Valid() && |head| == ol <= level == ol + 2 * i && body == old(body)
        invariant output[..level] == head + HexOf(data[..i])
      {
        assert HexOf(data[..i + 1]) == HexOf(data[..i]) + [HexEncode(data[i] / 16), HexEncode(data[i])] by {
          assert data[..i + 1][..i] == data[..i];
        }
        ghost var so := output[..level];
        if level >= BUFFER_SIZE - 2 {
          level := ol;
          assert output[..level] == so[..ol] == head;
          return false;
        }
        output[level] := HexEncode(data[i] / 16);
        output[level + 1] := HexEncode(data[i]);
        level := level + 2;
        assert output[..level] == so + [HexEncode(data[i] / 16), HexEncode(data[i])];
      }
      assert data[..|data|] == data;
      HexIsPlain(data);
      PlainConcat(body, HexOf(data));
      body := body + HexOf(data);
      ok := true;
    }

    /** Closes the packet with its checksum, if the buffer has room. */
    method Send() returns (ok: bool)
      requires Building()
      modifies this, output
      ensures ok <==> old(level) < BUFFER_SIZE - 3
      ensures ok ==> Valid() && output[..level] == Framed(old(body)) && Plain(old(body))
      ensures !ok ==> Building() && body == old(body)
    {
      hide Plain, HexEncode, Checksum;
      if level >= BUFFER_SIZE - 3 { return false; }
      ghost var packet := output[..level];
      var csum := SumUp();
      output[level] := HASH;
      output[level + 1] := HexEncode(csum / 16);
      output[level + 2] := HexEncode(csum);
      level := level + 3;
      assert output[..level] == packet + [HASH, HexEncode(csum / 16), HexEncode(csum)];
      ok := true;
    }

    /** The sum of the body, on eight bits. */
    method SumUp() returns (csum: byte)
      requires Building()
      ensures csum == Checksum(body)
    {
      hide Plain;
      csum := 0;
      var i := 1;
      assert body[..0] == [];
      while i < level
        invariant 1 <= i <= level
        invariant csum == Checksum(body[..i - 1])
      {
        assert body[..i][..i - 1] == body[..i - 1];
        assert output[i] == output[..level][i] == body[i - 1];
        csum := (csum + output[i]) % 256;
        i := i + 1;
      }
      assert body[..|body|] == body;
    }
  }

  lemma PlainConcat(a: seq<byte>, b: seq<byte>)
    requires Plain(a) && Plain(b)
    ensures Plain(a + b)
  {
  }

  // ---------------------------------------------------------------- receiving

  /** Looking for the start; in the body; first and second checksum digit; finished. */
  datatype Phase = Hunt | Body | Digit1 | Digit2 | Finished

  datatype Receiver = Receiver(phase: Phase, data: seq<byte>, csum: byte, rx: byte, escaped: bool)

  datatype Reception = Going(r: Receiver) | Break | Overflow

  const LISTENING := Receiver(Hunt, [], 0, 0, false)
  const INTERRUPT: byte := 3

  function Feed(r: Receiver, c: byte): Reception {
    match r.phase
    case Hunt =>
      if c == DOLLAR then Going(Receiver(Body, [], 0, r.rx, r.escaped))
      else if c == INTERRUPT then Break
      else Going(r)
    case Body =>
      if c == OPEN && !r.escaped then Going(r.(escaped := true))
      else if c == DOLLAR && !r.escaped then Going(r.(data := [], csum := 0))
      else if c == HASH && !r.escaped then Going(r.(rx := 0, phase := Digit1))
      else if |r.data| >= BUFFER_SIZE - 1 then Overflow
      else Going(r.(data := r.data + [c], csum := (r.csum as int + c) % 256))
    case Digit1 => Going(r.(rx := Shift4(r.rx, c), phase := Digit2))
    case Digit2 =>
      var rx := Shift4(r.rx, c);
      Going(r.(rx := rx, phase := if rx == r.csum then Finished else Hunt))
    case Finished => Going(r)
  }

  function FeedAll(r: Receiver, s: seq<byte>): Reception {
    if s == [] then Going(r)
    else match FeedAll(r, s[..|s| - 1])
      case Going(q) => Feed(q, s[|s| - 1])
      case other => other
  }

  lemma {:induction false} FeedConcat(r: Receiver, a: seq<byte>, b: seq<byte>)
    ensures FeedAll(r, a + b) == match FeedAll(r, a) case Going(q) => FeedAll(q, b) case other => other
  {
    if b == [] {
      assert a + b == a;
    } else {
      assert (a + b)[..|a + b| - 1] == a + b[..|b| - 1];
      FeedConcat(r, a, b[..|b| - 1]);
    }
  }

  /** How a packet-in call ends. */
  datatype Result = Packet(data: seq<byte>) | Interrupted | Failed

  function Outcome(e: Reception): Result {
    match e
    case Going(r) => if r.phase.Finished? then Packet(r.data) else Failed
    case Break => Interrupted
    case Overflow => Failed
  }

  /**
   Receives a packet from reads of any sizes (the link closes after the last). The outcome depends only on the
   bytes received, and a packet delivered stands among them with its own checksum; bytes of the same read behind a
   finished packet are dropped.
   */
  method PacketIn(chunks: seq<seq<byte>>) returns (result: Result)
    ensures result == Outcome(FeedAll(LISTENING, Flatten(chunks)))
    ensures result.Packet? ==> exists i :: Stands(Flatten(chunks), i, result.data)
  {
    result := Receive(chunks);
    if result.Packet? {
      var i := DeliveredStands(Flatten(chunks), result.data);
    }
  }

  method Receive(chunks: seq<seq<byte>>) returns (result: Result)
    ensures result == Outcome(FeedAll(LISTENING, Flatten(chunks)))
  {
    var r := LISTENING;
    var k := 0;
    assert chunks[..0] == [];
    while k < |chunks| && !r.phase.Finished?
      invariant 0 <= k <= |chunks|
      invariant FeedAll(LISTENING, Flatten(chunks[..k])) == Going(r)
    {
      ghost var before := Flatten(chunks[..k]);
      var buf := chunks[k];
      ghost var start := r;
      for i := 0 to |buf|
        invariant FeedAll(start, buf[..i]) == Going(r)
      {
        assert buf[..i + 1][..i] == buf[..i];
        var e := Feed(r, buf[i]);
        if !e.Going? {
          StopsHere(chunks, k, i, start, e);
          return Outcome(e);
        }
        r := e.r;
      }
      assert buf[..|buf|] == buf;
      FeedConcat(LISTENING, before, buf);
      assert chunks[..k + 1][..k] == chunks[..k];
      k := k + 1;
    }
    assert chunks[..|chunks|] == chunks;
    if r.phase.Finished? {
      FinishedStays(chunks, k, r);
      return Packet(r.data);
    }
    return Failed;
  }

  /** A finished receiver ignores the rest. */
  lemma {:induction false} FinishedAbsorbs(r: Receiver, s: seq<byte>)
    requires r.phase.Finished?
    ensures FeedAll(r, s) == Going(r)
  {
    if s != [] { FinishedAbsorbs(r, s[..|s| - 1]); }
  }

  lemma {:induction false} SplitFlat(chunks: seq<seq<byte>>, k: nat) returns (rest: seq<byte>)
    requires k <= |chunks|
    ensures Flatten(chunks) == Flatten(chunks[..k]) + rest
    decreases |chunks| - k
  {
    if k == |chunks| {
      assert chunks[..k] == chunks;
      rest := [];
    } else {
      var r := SplitFlat(chunks, k + 1);
      assert chunks[..k + 1][..k] == chunks[..k];
      rest := chunks[k] + r;
    }
  }

  lemma FinishedStays(chunks: seq<seq<byte>>, k: nat, r: Receiver)
    requires k <= |chunks| && FeedAll(LISTENING, Flatten(chunks[..k])) == Going(r) && r.phase.Finished?
    ensures FeedAll(LISTENING, Flatten(chunks)) == Going(r)
  {
    var rest := SplitFlat(chunks, k);
    FeedConcat(LISTENING, Flatten(chunks[..k]), rest);
    FinishedAbsorbs(r, rest);
  }

  lemma StopsHere(chunks: seq<seq<byte>>, k: nat, i: nat, start: Receiver, e: Reception)
    requires k < |chunks| && i < |chunks[k]|
    requires FeedAll(LISTENING, Flatten(chunks[..k])) == Going(start)
    requires FeedAll(start, chunks[k][..i + 1]) == e && !e.Going?
    ensures FeedAll(LISTENING, Flatten(chunks)) == e
  {
    var rest := SplitFlat(chunks, k + 1);
    assert chunks[..k + 1][..k] == chunks[..k];
    var before, buf := Flatten(chunks[..k]), chunks[k];
    FeedConcat(LISTENING, before + buf, rest);
    FeedConcat(LISTENING, before, buf);
    assert buf == buf[..i + 1] + buf[i + 1..];
    FeedConcat(start, buf[..i + 1], buf[i + 1..]);
  }

  // ---------------------------------------------------------------- what gets through

  /** The receiver treats `{` as an escape and never leaves it: no packet with a `{` in it ever ends. */
  lemma {:induction false} EscapeSticks(r: Receiver, s: seq<byte>)
    requires r.phase.Body? && r.escaped
    ensures match FeedAll(r, s) case Going(q) => q.phase.Body? && q.escaped case Overflow => true case Break => false
  {
    if s != [] { EscapeSticks(r, s[..|s| - 1]); }
  }

  lemma ChecksumSnoc(q: seq<byte>, c: byte)
    ensures Checksum(q + [c]) == (Checksum(q) as int + c) % 256
  {
    assert (q + [c])[..|q|] == q;
  }

  lemma {:induction false} BodyCollects(r: Receiver, p: seq<byte>)
    requires r.phase.Body? && !r.escaped && r.data == [] && r.csum == 0
    requires Plain(p) && OPEN !in p && |p| <= BUFFER_SIZE - 1
    ensures FeedAll(r, p) == Going(r.(data := p, csum := Checksum(p)))
  {
    hide Checksum, Feed;
    if p == [] {
      assert Checksum([]) == 0 by { EmptyChecksum(); }
    } else {
      var q, c := p[..|p| - 1], p[|p| - 1];
      assert p == q + [c] && c in p && !Special(c);
      BodyCollects(r, q);
      ChecksumSnoc(q, c);
      BodyByte(r.(data := q, csum := Checksum(q)), c);
    }
  }

  lemma EmptyChecksum()
    ensures Checksum([]) == 0
  {
  }

  lemma BodyByte(r: Receiver, c: byte)
    requires r.phase.Body? && !r.escaped && !Special(c) && c != OPEN && |r.data| < BUFFER_SIZE - 1
    ensures Feed(r, c) == Going(r.(data := r.data + [c], csum := (r.csum as int + c) % 256))
  {
  }

  lemma FramedRecovers(p: seq<byte>)
    requires Plain(p) && OPEN !in p && |p| <= BUFFER_SIZE - 1
    ensures Outcome(FeedAll(LISTENING, Framed(p))) == Packet(p)
  {
    var c := Checksum(p);
    var f := Frame([], p, HexEncode(c / 16), HexEncode(c));
    HexPair(c);
    StatedIsShifted(f.h1, f.h2);
    FrameIsReceived(LISTENING, f);
    hide FeedAll, HexEncode, Shift4;
    assert Spelled(f) == Framed(p);
  }

  /** A framed plain payload that fits is recovered, by reads of any sizes, exactly when it has no `{`. */
  lemma RecoveredExactlyWithoutBrace(p: seq<byte>, chunks: seq<seq<byte>>)
    requires Plain(p) && |p| <= BUFFER_SIZE - 1 && Flatten(chunks) == Framed(p)
    ensures Outcome(FeedAll(LISTENING, Flatten(chunks))) == Packet(p) <==> OPEN !in p
  {
    if OPEN !in p {
      FramedRecovers(p);
    } else {
      BraceLoses(p);
    }
  }

  /** From the `{` on the receiver is stuck. */
  lemma BraceSticks(a: seq<byte>, rest: seq<byte>)
    requires Plain(a) && OPEN !in a && |a| <= BUFFER_SIZE - 1
    ensures Outcome(FeedAll(LISTENING, [DOLLAR] + a + [OPEN] + rest)) == Failed
  {
    var r0 := Receiver(Body, [], 0, 0, false);
    assert FeedAll(LISTENING, [DOLLAR]) == Going(r0) by { assert [DOLLAR][..0] == []; }
    var r1 := r0.(data := a, csum := Checksum(a));
    assert FeedAll(r1, [OPEN]) == Going(r1.(escaped := true)) by { assert [OPEN][..0] == []; }
    hide FeedAll, Checksum, Plain;
    BodyCollects(r0, a);
    FeedConcat(LISTENING, [DOLLAR], a);
    FeedConcat(LISTENING, [DOLLAR] + a, [OPEN]);
    FeedConcat(LISTENING, [DOLLAR] + a + [OPEN], rest);
    EscapeSticks(r1.(escaped := true), rest);
  }

  lemma BraceLoses(p: seq<byte>)
    requires Plain(p) && |p| <= BUFFER_SIZE - 1 && OPEN in p
    ensures Outcome(FeedAll(LISTENING, Framed(p))) == Failed
  {
    hide HexEncode, FeedAll, Checksum;
    var i := FirstBrace(p);
    var tail := [HASH, HexEncode(Checksum(p) / 16), HexEncode(Checksum(p))];
    assert p == p[..i] + [OPEN] + p[i + 1..];
    assert Framed(p) == [DOLLAR] + p[..i] + [OPEN] + (p[i + 1..] + tail);
    BraceSticks(p[..i], p[i + 1..] + tail);
  }

  lemma {:induction false} FirstBrace(p: seq<byte>) returns (i: nat)
    requires OPEN in p
    ensures i < |p| && p[i] == OPEN && OPEN !in p[..i]
  {
    if p[0] == OPEN {
      i := 0;
    } else {
      assert p == [p[0]] + p[1..];
      var j := FirstBrace(p[1..]);
      i := j + 1;
      assert p[..i] == [p[0]] + p[1..][..j];
    }
  }

  // ---------------------------------------------------------------- which packets are delivered

  /** What two checksum characters stand for: a first one that is no digit reads as f, a second one makes it ff. */
  function Stated(h1: byte, h2: byte): nat {
    if HexDecode(h2) < 0 then 255
    else (if HexDecode(h1) < 0 then 240 else 16 * HexDecode(h1)) + HexDecode(h2)
  }

  lemma StatedIsShifted(h1: byte, h2: byte)
    ensures Shift4(Shift4(0, h1), h2) == Stated(h1, h2)
  {
    hide HexDecode;
    HexRange(h1);
    HexRange(h2);
    assert Shift4(0, h1) == if HexDecode(h1) < 0 then 255 else HexDecode(h1);
    assert (255 * 16) % 256 == 240;
  }

  lemma HexRange(c: byte)
    ensures -1 <= HexDecode(c) < 16
  {
  }

  /** Bytes that do not matter, and a `$` body `#` with two checksum characters. */
  datatype Frame = Frame(noise: seq<byte>, body: seq<byte>, h1: byte, h2: byte)

  /** The noise neither starts a packet nor interrupts; the body can be received. */
  predicate Receivable(f: Frame) {
    && DOLLAR !in f.noise && INTERRUPT !in f.noise
    && Plain(f.body) && OPEN !in f.body && |f.body| <= BUFFER_SIZE - 1
  }

  /** The two characters spell the sum of the body. */
  predicate Sound(f: Frame) { Stated(f.h1, f.h2) == Sum(f.body) % 256 }

  function Spelled(f: Frame): seq<byte> { f.noise + [DOLLAR] + f.body + [HASH, f.h1, f.h2] }

  function Stream(fs: seq<Frame>): seq<byte> {
    if fs == [] then [] else Stream(fs[..|fs| - 1]) + Spelled(fs[|fs| - 1])
  }

  lemma {:induction false} NoiseIsSkipped(r: Receiver, noise: seq<byte>)
    requires r.phase.Hunt? && DOLLAR !in noise && INTERRUPT !in noise
    ensures FeedAll(r, noise) == Going(r)
  {
    if noise != [] {
      assert noise[|noise| - 1] in noise;
      NoiseIsSkipped(r, noise[..|noise| - 1]);
    }
  }

  /** Whatever the digits are: the packet ends, accepted or not. */
  lemma Closes(r: Receiver, h1: byte, h2: byte)
    requires r.phase.Body? && !r.escaped
    ensures FeedAll(r, [HASH, h1, h2]) ==
      Going(Receiver(if Stated(h1, h2) == r.csum then Finished else Hunt, r.data, r.csum, Stated(h1, h2), false))
  {
    StatedIsShifted(h1, h2);
    hide Shift4, Stated;
    assert [HASH, h1, h2][..2] == [HASH, h1] && [HASH, h1][..1] == [HASH] && [HASH][..0] == [];
    assert FeedAll(r, [HASH]) == Going(r.(rx := 0, phase := Digit1));
    assert FeedAll(r, [HASH, h1]) == Going(r.(rx := Shift4(0, h1), phase := Digit2));
  }

  lemma FrameIsReceived(r: Receiver, f: Frame)
    requires r.phase.Hunt? && !r.escaped && Receivable(f)
    ensures FeedAll(r, Spelled(f)) ==
      Going(Receiver(if Sound(f) then Finished else Hunt, f.body, Checksum(f.body), Stated(f.h1, f.h2), false))
  {
    var r0 := Receiver(Body, [], 0, r.rx, false);
    assert FeedAll(r, [DOLLAR]) == Going(r0) by { assert [DOLLAR][..0] == []; }
    hide FeedAll, Stated, Plain;
    NoiseIsSkipped(r, f.noise);
    FeedConcat(r, f.noise, [DOLLAR]);
    BodyCollects(r0, f.body);
    FeedConcat(r, f.noise + [DOLLAR], f.body);
    Closes(r0.(data := f.body, csum := Checksum(f.body)), f.h1, f.h2);
    FeedConcat(r, f.noise + [DOLLAR] + f.body, [HASH, f.h1, f.h2]);
  }

  /** Frames with wrong checksums leave the receiver hunting. */
  lemma {:induction false} BadFramesAreSkipped(fs: seq<Frame>) returns (r: Receiver)
    requires forall i :: 0 <= i < |fs| ==> Receivable(fs[i]) && !Sound(fs[i])
    ensures FeedAll(LISTENING, Stream(fs)) == Going(r) && r.phase.Hunt? && !r.escaped
  {
    hide Receivable, Sound, Spelled;
    if fs == [] {
      r := LISTENING;
    } else {
      var n := |fs| - 1;
      var q := BadFramesAreSkipped(fs[..n]);
      FeedConcat(LISTENING, Stream(fs[..n]), Spelled(fs[n]));
      FrameIsReceived(q, fs[n]);
      r := FeedAll(q, Spelled(fs[n])).r;
    }
  }

  /**
   Of any frames, the first with the right checksum is delivered, whatever follows it; without one, none is. So a
   single frame is delivered if and only if its digits spell the sum of its body.
   */
  lemma FirstSoundIsDelivered(fs: seq<Frame>, k: nat, rest: seq<byte>)
    requires k <= |fs| && forall i :: 0 <= i < |fs| ==> Receivable(fs[i])
    requires (forall i :: 0 <= i < k ==> !Sound(fs[i])) && (k < |fs| ==> Sound(fs[k]))
    ensures k < |fs| ==> Outcome(FeedAll(LISTENING, Stream(fs[..k + 1]) + rest)) == Packet(fs[k].body)
    ensures k == |fs| ==> Outcome(FeedAll(LISTENING, Stream(fs))) == Failed
  {
    hide Receivable, Sound, Spelled, FeedAll;
    var r := BadFramesAreSkipped(fs[..k]);
    if k < |fs| {
      assert fs[..k + 1][..k] == fs[..k];
      FrameIsReceived(r, fs[k]);
      FeedConcat(LISTENING, Stream(fs[..k]), Spelled(fs[k]));
      FeedConcat(LISTENING, Stream(fs[..k + 1]), rest);
      FinishedAbsorbs(FeedAll(r, Spelled(fs[k])).r, rest);
    } else {
      assert fs[..k] == fs;
    }
  }

  /** A single frame, in the middle of reads of any sizes. */
  lemma DeliveredExactlyOnChecksum(f: Frame, chunks: seq<seq<byte>>)
    requires Receivable(f) && Flatten(chunks) == Spelled(f)
    ensures Outcome(FeedAll(LISTENING, Flatten(chunks))) == Packet(f.body) <==> Sound(f)
    ensures !Sound(f) ==> Outcome(FeedAll(LISTENING, Flatten(chunks))) == Failed
  {
    hide Receivable, Sound, Spelled, FeedAll;
    FrameIsReceived(LISTENING, f);
  }

  // ---------------------------------------------------------------- nothing else is delivered

  /** A `$` at `i`, then `p` and nothing else up to `end`, ready to be received. */
  predicate Opened(s: seq<byte>, i: nat, end: nat, p: seq<byte>) {
    && i < end <= |s| && s[i] == DOLLAR && s[i + 1..end] == p
    && Plain(p) && OPEN !in p && |p| <= BUFFER_SIZE - 1
  }

  /** In `s` the packet `p` stands behind a `$` at `i` and before a `#` and its own checksum. */
  predicate Stands(s: seq<byte>, i: nat, p: seq<byte>) {
    && i + |p| + 4 <= |s| && Opened(s, i, i + 1 + |p|, p) && s[i + 1 + |p|] == HASH
    && Stated(s[i + 2 + |p|], s[i + 3 + |p|]) == Sum(p) % 256
  }

  /** What the receiver's state says about the bytes received, `i` being where its packet starts. */
  predicate Reads(r: Receiver, s: seq<byte>, i: nat) {
    match r.phase
    case Hunt => !r.escaped
    case Body => r.escaped || (Opened(s, i, |s|, r.data) && r.csum == Checksum(r.data))
    case Digit1 =>
      && |s| >= 1 && s[|s| - 1] == HASH && !r.escaped
      && Opened(s, i, |s| - 1, r.data) && r.csum == Checksum(r.data) && r.rx == 0
    case Digit2 =>
      && |s| >= 2 && s[|s| - 2] == HASH && !r.escaped
      && Opened(s, i, |s| - 2, r.data) && r.csum == Checksum(r.data) && r.rx == Shift4(0, s[|s| - 1])
    case Finished => Stands(s, i, r.data)
  }

  lemma OpenedStays(s: seq<byte>, c: byte, i: nat, end: nat, p: seq<byte>)
    requires Opened(s, i, end, p)
    ensures Opened(s + [c], i, end, p)
  {
    assert (s + [c])[i + 1..end] == s[i + 1..end];
  }

  lemma BodyReads(r: Receiver, s: seq<byte>, i: nat, c: byte) returns (j: nat)
    requires r.phase.Body? && Reads(r, s, i) && Feed(r, c).Going?
    ensures Reads(Feed(r, c).r, s + [c], j)
  {
    hide Checksum, Shift4, Stands;
    j := i;
    if !r.escaped && c == DOLLAR {
      j := |s|;
      EmptyChecksum();
      assert (s + [c])[j + 1..j + 1] == [];
    } else if !r.escaped && c != OPEN {
      OpenedStays(s, c, i, |s|, r.data);
      if c != HASH {
        assert (s + [c])[i + 1..|s| + 1] == r.data + [c];
        ChecksumSnoc(r.data, c);
      }
    }
  }

  lemma DigitReads(r: Receiver, s: seq<byte>, i: nat, c: byte)
    requires (r.phase.Digit1? || r.phase.Digit2?) && Reads(r, s, i)
    ensures Feed(r, c).Going? && Reads(Feed(r, c).r, s + [c], i)
  {
    if r.phase.Digit1? {
      OpenedStays(s, c, i, |s| - 1, r.data);
    } else {
      OpenedStays(s, c, i, |s| - 2, r.data);
      StatedIsShifted(s[|s| - 1], c);
    }
    hide Opened, Plain, Shift4, Stated;
  }

  lemma OneReads(r: Receiver, s: seq<byte>, i: nat, c: byte) returns (j: nat)
    requires Reads(r, s, i) && Feed(r, c).Going?
    ensures Reads(Feed(r, c).r, s + [c], j)
  {
    j := i;
    match r.phase
    case Hunt =>
      if c == DOLLAR {
        j := |s|;
        EmptyChecksum();
        assert (s + [c])[j + 1..j + 1] == [];
      }
    case Body => j := BodyReads(r, s, i, c);
    case Finished => OpenedStays(s, c, i, i + 1 + |r.data|, r.data);
    case _ => DigitReads(r, s, i, c);
  }

  lemma {:induction false} AllReads(s: seq<byte>) returns (i: nat)
    requires FeedAll(LISTENING, s).Going?
    ensures Reads(FeedAll(LISTENING, s).r, s, i)
  {
    hide Reads, Feed;
    if s == [] {
      i := 0;
      assert Reads(LISTENING, [], 0) by { StartReads(); }
    } else {
      var t, c := s[..|s| - 1], s[|s| - 1];
      var j := AllReads(t);
      i := OneReads(FeedAll(LISTENING, t).r, t, j, c);
      assert t + [c] == s;
    }
  }

  lemma StartReads()
    ensures Reads(LISTENING, [], 0)
  {
  }

  /** Whatever bytes arrive, a packet that is delivered stands among them with its own checksum. */
  lemma DeliveredStands(s: seq<byte>, p: seq<byte>) returns (i: nat)
    requires Outcome(FeedAll(LISTENING, s)) == Packet(p)
    ensures Stands(s, i, p)
  {
    hide FeedAll, Stands;
    i := AllReads(s);
  }

  /** An interrupt between packets ends the call; inside a body the same byte is data. */
  lemma InterruptEnds(fs: seq<Frame>, noise: seq<byte>, rest: seq<byte>)
    requires forall i :: 0 <= i < |fs| ==> Receivable(fs[i]) && !Sound(fs[i])
    requires DOLLAR !in noise && INTERRUPT !in noise
    ensures Outcome(FeedAll(LISTENING, Stream(fs) + noise + [INTERRUPT] + rest)) == Interrupted
  {
    var r := BadFramesAreSkipped(fs);
    assert FeedAll(r, [INTERRUPT]) == Break by { assert [INTERRUPT][..0] == []; }
    hide FeedAll, Receivable, Sound, Stream;
    NoiseIsSkipped(r, noise);
    FeedConcat(LISTENING, Stream(fs), noise);
    FeedConcat(LISTENING, Stream(fs) + noise, [INTERRUPT]);
    FeedConcat(LISTENING, Stream(fs) + noise + [INTERRUPT], rest);
  }

  /** A body longer than the buffer ends it with an error. */
  lemma LongBodyFails(p: seq<byte>, c: byte, rest: seq<byte>)
    requires Plain(p) && OPEN !in p && |p| == BUFFER_SIZE - 1 && !Special(c) && c != OPEN
    ensures Outcome(FeedAll(LISTENING, [DOLLAR] + p + [c] + rest)) == Failed
  {
    var r0 := Receiver(Body, [], 0, 0, false);
    var r1 := r0.(data := p, csum := Checksum(p));
    assert FeedAll(LISTENING, [DOLLAR]) == Going(r0) by { assert [DOLLAR][..0] == []; }
    assert FeedAll(r1, [c]) == Overflow by { assert [c][..0] == []; }
    hide FeedAll, Plain, Checksum;
    BodyCollects(r0, p);
    FeedConcat(LISTENING, [DOLLAR], p);
    FeedConcat(LISTENING, [DOLLAR] + p, [c]);
    FeedConcat(LISTENING, [DOLLAR] + p + [c], rest);
  }

  /** A checksum character that is no digit can pass for one. */
  lemma NoDigitPasses()
    ensures var f := Frame([], [0xff], 0x3f, 0x3f); Receivable(f) && Sound(f) && HexDecode(f.h1) < 0
  {
    assert [0xff as byte][..0] == [];
  }

  // ---------------------------------------------------------------- what the escape loses

  /** The receiving side of the sender's escape: `}` flips bit 5 of the next character. */
  function Unescape(s: seq<byte>): seq<byte> {
    if s == [] then []
    else if s[0] == CLOSE && |s| > 1 then [FlipBit5(s[1])] + Unescape(s[2..])
    else if s[0] == CLOSE then []
    else [s[0]] + Unescape(s[1..])
  }

  function FlipBit5(c: byte): byte { if c / 32 % 2 == 1 then c - 0x20 else c + 0x20 }

  function EscapeFrom(s: seq<byte>): seq<byte> { if s == [] then [] else EscapeByte(s[0]) + EscapeFrom(s[1..]) }

  lemma {:induction false} EscapeEitherWay(s: seq<byte>)
    ensures Escape(s) == EscapeFrom(s)
  {
    if s != [] {
      EscapeEitherWay(s[1..]);
      EscapeCons(s[0], s[1..]);
      assert s == [s[0]] + s[1..];
    }
  }

  lemma {:induction false} EscapeCons(c: byte, s: seq<byte>)
    ensures Escape([c] + s) == EscapeByte(c) + Escape(s)
  {
    hide EscapeByte;
    if s == [] {
      assert [c] + s == [c] && [c][..0] == [];
    } else {
      assert ([c] + s)[..|s|] == [c] + s[..|s| - 1];
      EscapeCons(c, s[..|s| - 1]);
    }
  }

  lemma UnescapeFront(x: byte, rest: seq<byte>)
    ensures Unescape([CLOSE, x] + rest) == [FlipBit5(x)] + Unescape(rest)
    ensures x != CLOSE ==> Unescape([x] + rest) == [x] + Unescape(rest)
  {
    assert ([CLOSE, x] + rest)[2..] == rest;
    assert ([x] + rest)[1..] == rest;
  }

  lemma UnescapeOrdinary(s: seq<byte>)
    requires s != [] && s[0] != CLOSE
    ensures Unescape(EscapeFrom(s)) == [s[0]] + Unescape(EscapeFrom(s[1..]))
  {
    hide Unescape;
    var rest := EscapeFrom(s[1..]);
    UnescapeFront(s[0], rest);
    if Special(s[0]) { UnescapeFront(s[0] - 0x20, rest); }
  }

  /** A `}` in the text swallows what follows it. */
  lemma UnescapeClose(s: seq<byte>)
    requires |s| > 1 && s[0] == CLOSE
    ensures Unescape(EscapeFrom(s))
      == (if Special(s[1]) then [FlipBit5(CLOSE), s[1] - 0x20] else [FlipBit5(s[1])]) + Unescape(EscapeFrom(s[2..]))
  {
    hide Unescape, EscapeFrom;
    var rest := EscapeFrom(s[2..]);
    EscapeTwo(s);
    if Special(s[1]) {
      var c := s[1] - 0x20;
      UnescapeFront(CLOSE, [c] + rest);
      UnescapeFront(c, rest);
    } else {
      UnescapeFront(s[1], rest);
    }
  }

  lemma EscapeTwo(s: seq<byte>)
    requires |s| > 1 && s[0] == CLOSE
    ensures EscapeFrom(s)
      == if Special(s[1]) then [CLOSE, CLOSE] + ([s[1] - 0x20] + EscapeFrom(s[2..]))
         else [CLOSE, s[1]] + EscapeFrom(s[2..])
  {
    hide EscapeFrom;
    var rest := EscapeFrom(s[2..]);
    EscapeFront(s);
    EscapeFront(s[1..]);
    assert s[1..][1..] == s[2..];
    Regroup(CLOSE, s[1], rest);
    if Special(s[1]) { RegroupThree(CLOSE, CLOSE, s[1] - 0x20, rest); }
  }

  lemma Regroup(a: byte, b: byte, rest: seq<byte>)
    ensures [a] + ([b] + rest) == [a, b] + rest
  {
  }

  lemma RegroupThree(a: byte, b: byte, c: byte, rest: seq<byte>)
    ensures [a] + ([b, c] + rest) == [a, b] + ([c] + rest)
  {
  }

  lemma EscapeFront(s: seq<byte>)
    requires s != []
    ensures EscapeFrom(s) == EscapeByte(s[0]) + EscapeFrom(s[1..])
  {
  }

  lemma {:induction false} UnescapeNeverLonger(s: seq<byte>)
    ensures |Unescape(EscapeFrom(s))| <= |s|
  {
    hide Unescape, EscapeFrom;
    if s == [] {
      NothingToUnescape();
    } else if s[0] != CLOSE {
      UnescapeNeverLonger(s[1..]);
      UnescapeOrdinary(s);
    } else if |s| > 1 {
      UnescapeNeverLonger(s[2..]);
      UnescapeClose(s);
    } else {
      assert s == [CLOSE];
      NothingToUnescape();
    }
  }

  lemma NothingToUnescape()
    ensures Unescape(EscapeFrom([])) == [] && Unescape(EscapeFrom([CLOSE])) == []
  {
    assert [CLOSE][1..] == [];
    assert EscapeFrom([CLOSE]) == [CLOSE];
  }

  /**
   The sender does not escape `}` itself, so its escape can be undone exactly for texts without one.
   */
  lemma {:induction false} EscapeReversibleExactlyWithoutClose(s: seq<byte>)
    ensures Unescape(Escape(s)) == s <==> CLOSE !in s
  {
    hide Unescape, Escape, EscapeFrom;
    EscapeEitherWay(s);
    if s == [] {
      NothingToUnescape();
    } else if s[0] != CLOSE {
      EscapeReversibleExactlyWithoutClose(s[1..]);
      EscapeEitherWay(s[1..]);
      UnescapeOrdinary(s);
      assert s == [s[0]] + s[1..];
      assert ([s[0]] + Unescape(EscapeFrom(s[1..])))[1..] == Unescape(EscapeFrom(s[1..]));
    } else if |s| > 1 {
      UnescapeClose(s);
      UnescapeNeverLonger(s[2..]);
    } else {
      assert s == [CLOSE];
      NothingToUnescape();
    }
  }
}
