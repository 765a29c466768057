/**
 ASCII transfers of the FTP daemon (section 3.1.1.1 of RFC 959): RETR sends every line feed as CR LF,
 STOR turns CR LF back into a line feed. Both work chunk by chunk, and the chunking must not show.
 */
module FtpAscii {
  import opened Bytes

  const CR: byte := 13
  const LF: byte := 10

  /** Writing to a file or a socket: all of `data`, or a failure after some prefix of it. */
  method Put(sink: seq<byte>, data: seq<byte>, healthy: bool) returns (sink': seq<byte>, n: nat)
    ensures n <= |data| && sink' == sink + data[..n]
    ensures healthy ==> n == |data|
  {
    n := |data|;
    if !healthy {
      n :| 0 <= n <= |data|;
    }
    sink' := sink + data[..n];
  }

  /** A write that continues `base + done`: on success by all of `data`, and never leaving `base + whole`. */
  method Continue(sink: seq<byte>, data: seq<byte>, healthy: bool,
                  ghost base: seq<byte>, ghost done: seq<byte>, ghost whole: seq<byte>)
    returns (sink': seq<byte>, ok: bool)
    requires sink == base + done && done + data <= whole
    ensures healthy ==> ok
    ensures ok ==> sink' == base + (done + data)
    ensures base <= sink' <= base + whole
  {
    var n;
    sink', n := Put(sink, data, healthy);
    ok := n == |data|;
    assert sink' == base + (done + data[..n]);
    assert done + data[..n] <= done + data;
  }

  // ---------------------------------------------------------------- RETR

  function Encode(f: seq<byte>): seq<byte> {
    if f == [] then []
    else
      var b := f[|f| - 1];
      Encode(f[..|f| - 1]) + if b == LF then [CR, LF] else [b]
  }

  lemma {:induction false} EncodeConcat(a: seq<byte>, b: seq<byte>)
    ensures Encode(a + b) == Encode(a) + Encode(b)
  {
    if b == [] {
      assert a + b == a;
    } else {
      assert (a + b)[..|a + b| - 1] == a + b[..|b| - 1];
      EncodeConcat(a, b[..|b| - 1]);
    }
  }

  lemma {:induction false} EncodePlain(a: seq<byte>)
    requires LF !in a
    ensures Encode(a) == a
  {
    if a != [] {
      EncodePlain(a[..|a| - 1]);
    }
  }

  lemma EncodePrefix(f: seq<byte>, e: nat)
    requires e <= |f|
    ensures Encode(f[..e]) <= Encode(f)
  {
    hide Encode;
    assert f == f[..e] + f[e..];
    EncodeConcat(f[..e], f[e..]);
  }

  /** A piece without line feeds is sent as it is. */
  lemma EncodePiece(f: seq<byte>, b: nat, e: nat)
    requires b <= e <= |f| && LF !in f[b..e]
    ensures Encode(f[..e]) == Encode(f[..b]) + f[b..e]
  {
    hide Encode;
    assert f[..e] == f[..b] + f[b..e];
    EncodeConcat(f[..b], f[b..e]);
    EncodePlain(f[b..e]);
  }

  lemma EncodeLineFeed(f: seq<byte>, e: nat)
    requires e < |f| && f[e] == LF
    ensures Encode(f[..e + 1]) == Encode(f[..e]) + [CR, LF]
  {
    assert f[..e + 1][..e] == f[..e];
  }

  /** Bytes before the next line feed, among the `rest` bytes from `b` on. */
  method ScanLine(buf: seq<byte>, b: nat, rest: nat) returns (i: nat, lf: bool)
    requires b + rest == |buf|
    ensures i <= rest && LF !in buf[b..b + i]
    ensures if lf then i < rest && buf[b + i] == LF else i == rest
  {
    i, lf := 0, false;
    while i < rest
      invariant 0 <= i <= rest && LF !in buf[b..b + i]
    {
      if buf[b + i] == LF { return i, true; }
      assert buf[b..b + i + 1] == buf[b..b + i] + [buf[b + i]];
      i := i + 1;
    }
  }

  /** One chunk: pieces up to each line feed, with CR LF between them. */
  method SendChunk(sent: seq<byte>, buf: seq<byte>, healthy: bool) returns (sent': seq<byte>, rest: nat)
    ensures healthy ==> rest == 0
    ensures rest == 0 ==> sent' == sent + Encode(buf)
    ensures sent <= sent' <= sent + Encode(buf)
  {
    sent', rest := sent, |buf|;
    var e := 0;
    assert Encode(buf[..0]) == [];
    hide Encode;
    while rest > 0
      invariant 0 <= e && e + rest == |buf|
      invariant sent' == sent + Encode(buf[..e])
    {
      var i, lf := ScanLine(buf, e, rest);
      EncodePiece(buf, e, e + i);
      EncodePrefix(buf, e + i);
      var ok;
      sent', ok := Continue(sent', buf[e..e + i], healthy, sent, Encode(buf[..e]), Encode(buf));
      if !ok { return; }
      e := e + i;
      if lf {
        EncodeLineFeed(buf, e);
        EncodePrefix(buf, e + 1);
        sent', ok := Continue(sent', [CR, LF], healthy, sent, Encode(buf[..e]), Encode(buf));
        if !ok { return; }
        e, i := e + 1, i + 1;
      }
      rest := rest - i;
    }
    assert buf[..e] == buf;
  }

  /** Sends a file read in any chunks: what arrives is the encoding of the file, or a prefix of it. */
  method Retrieve(chunks: seq<seq<byte>>, healthy: bool) returns (sent: seq<byte>, ok: bool)
    ensures healthy ==> ok
    ensures ok ==> sent == Encode(Flatten(chunks))
    ensures sent <= Encode(Flatten(chunks))
  {
    sent, ok := [], true;
    var rest := 0;
    var k := 0;
    assert chunks[..0] == [];
    while k < |chunks|
      invariant 0 <= k <= |chunks|
      invariant sent == Encode(Flatten(chunks[..k]))
    {
      ghost var f := Flatten(chunks[..k]);
      assert chunks[..k + 1][..k] == chunks[..k];
      assert Flatten(chunks[..k + 1]) == f + chunks[k];
      EncodeConcat(f, chunks[k]);
      FlattenPrefix(chunks, k + 1);
      EncodePrefix(Flatten(chunks), |f + chunks[k]|);
      assert Flatten(chunks)[..|f + chunks[k]|] == f + chunks[k];
      sent, rest := SendChunk(sent, chunks[k], healthy);
      if rest != 0 { return sent, false; }
      k := k + 1;
    }
    assert chunks[..k] == chunks;
  }

  lemma {:induction false} FlattenPrefix(chunks: seq<seq<byte>>, k: nat)
    requires k <= |chunks|
    ensures Flatten(chunks[..k]) <= Flatten(chunks)
    decreases |chunks| - k
  {
    if k == |chunks| {
      assert chunks[..k] == chunks;
    } else {
      FlattenPrefix(chunks, k + 1);
      assert chunks[..k + 1][..k] == chunks[..k];
    }
  }

  // ---------------------------------------------------------------- STOR

  /** Bytes written, whether a CR is held back, and the line feeds that came without one. */
  datatype Text = Text(out: seq<byte>, pending: bool, bare: nat)

  const NOTHING := Text([], false, 0)

  function Feed(t: Text, b: byte): Text {
    var held := if t.pending then [CR] else [];
    if b == CR then Text(t.out + held, true, t.bare)
    else if b == LF then Text(t.out + [LF], false, if t.pending then t.bare else t.bare + 1)
    else Text(t.out + held + [b], false, t.bare)
  }

  /** A CR still held back at the end is dropped. */
  function FeedAll(t: Text, s: seq<byte>): (r: Text)
    ensures t.out <= r.out
  {
    if s == [] then t else Feed(FeedAll(t, s[..|s| - 1]), s[|s| - 1])
  }

  lemma {:induction false} FeedConcat(t: Text, a: seq<byte>, b: seq<byte>)
    ensures FeedAll(t, a + b) == FeedAll(FeedAll(t, a), b)
  {
    if b == [] {
      assert a + b == a;
    } else {
      assert (a + b)[..|a + b| - 1] == a + b[..|b| - 1];
      FeedConcat(t, a, b[..|b| - 1]);
    }
  }

  predicate EndsInCR(f: seq<byte>) { f != [] && f[|f| - 1] == CR }

  /** A file without a CR at its very end, as STOR holds it. */
  function Kept(f: seq<byte>): Text {
    Text(if EndsInCR(f) then f[..|f| - 1] else f, EndsInCR(f), 0)
  }

  lemma FeedKept(g: seq<byte>, b: byte)
    ensures b != LF ==> Feed(Kept(g), b) == Kept(g + [b])
    ensures Feed(Feed(Kept(g), CR), LF) == Kept(g + [LF])
  {
    assert (g + [b])[..|g|] == g;
    if EndsInCR(g) {
      assert g == g[..|g| - 1] + [CR];
    } else {
      assert g + [] == g;
    }
  }

  /**
   Storing what RETR sent gives back the file, except that a CR at the very end is dropped, and no line feed
   is reported as bare.
   */
  lemma {:induction false} StoreOfEncoded(f: seq<byte>)
    ensures FeedAll(NOTHING, Encode(f)) == Kept(f)
  {
    if f == [] {
    } else {
      hide FeedAll, Encode, Feed, Kept;
      var g, b := f[..|f| - 1], f[|f| - 1];
      assert f == g + [b];
      EncodeSnoc(g, b);
      StoreOfEncoded(g);
      FeedKept(g, b);
      if b == LF {
        FeedSnoc(NOTHING, Encode(g), CR);
        FeedSnoc(NOTHING, Encode(g) + [CR], LF);
        assert Encode(g) + [CR] + [LF] == Encode(g) + [CR, LF];
      } else {
        FeedSnoc(NOTHING, Encode(g), b);
      }
    }
  }

  lemma EncodeSnoc(g: seq<byte>, b: byte)
    ensures Encode(g + [b]) == Encode(g) + if b == LF then [CR, LF] else [b]
  {
    assert (g + [b])[..|g|] == g;
  }

  lemma FeedSnoc(t: Text, s: seq<byte>, b: byte)
    ensures FeedAll(t, s + [b]) == Feed(FeedAll(t, s), b)
  {
    assert (s + [b])[..|s|] == s;
  }

  // ---------------------------------------------------------------- the receiving loop

  /** `i` bytes from `e` on were consumed: all written but a CR at the end, or LF in place of a CR LF (`sub` is 2). */
  predicate Consumed(t: Text, buf: seq<byte>, e: nat, i: nat, sub: nat, pended: bool, bare: nat) {
    e + i <= |buf| &&
    var u := FeedAll(t, buf[e..e + i]);
    && u.pending == pended && u.bare == bare
    && u.out == t.out + buf[e..e + Min(i, Max0(i - sub - (if pended then 1 else 0)))] + if sub == 2 then [LF] else []
  }

  /**
   Scans from `e` for the end of a CR LF pair, which ends the scan (`sub` is then 2), or the end of the
   chunk. What it passes over is what the state machine would have consumed.
   */
  method ScanPair(buf: seq<byte>, e: nat, rest: nat, pended: bool, bare: nat, ghost t: Text)
    returns (i: nat, sub: nat, pended': bool, bare': nat)
    requires e + rest == |buf| && rest > 0
    requires t.pending == pended && t.bare == bare && (pended ==> buf[e] == LF)
    ensures 1 <= i <= rest && (sub == 2 || (sub == 0 && i == rest))
    ensures sub == 2 ==> !pended' && buf[e + i - 1] == LF && (i == 1 ==> pended)
    ensures Consumed(t, buf, e, i, sub, pended', bare')
  {
    hide Feed, Scanned, Consumed;
    i, sub, pended', bare' := 0, 0, pended, bare;
    ghost var u := t;
    ScanBegins(t, buf, e, pended);
    while i < rest
      invariant 0 <= i <= rest && u.pending == pended' && u.bare == bare'
      invariant Scanned(t, buf, e, i, pended, u)
    {
      var pcr := pended';
      var c := buf[e + i];
      ScanFeeds(t, buf, e, i, pended, u);
      u := Feed(u, c);
      pended' := false;
      if c == CR {
        pended' := true;
      } else if c == LF {
        if pcr {
          sub := 2;
          i := i + 1;
          return;
        }
        bare' := bare' + 1;
      }
      i := i + 1;
    }
    ScanEnds(t, buf, e, i, pended, u);
  }

  function Max0(n: int): nat { if n < 0 then 0 else n }

  /** Without a CR LF pair so far, the machine has written everything but a CR at the end. */
  predicate Scanned(t: Text, buf: seq<byte>, e: nat, i: nat, pended: bool, u: Text) {
    && e + i <= |buf| && u == FeedAll(t, buf[e..e + i])
    && if i == 0 then u == t
       else
         && !pended && u.out == t.out + buf[e..e + i - (if u.pending then 1 else 0)]
         && (u.pending ==> buf[e + i - 1] == CR)
  }

  lemma ScanBegins(t: Text, buf: seq<byte>, e: nat, pended: bool)
    requires e <= |buf|
    ensures Scanned(t, buf, e, 0, pended, t)
  {
    assert buf[e..e] == [];
  }

  lemma ScanEnds(t: Text, buf: seq<byte>, e: nat, i: nat, pended: bool, u: Text)
    requires 1 <= i && Scanned(t, buf, e, i, pended, u)
    ensures Consumed(t, buf, e, i, 0, u.pending, u.bare)
  {
    hide FeedAll;
  }

  /** One byte more: the scan goes on, or it has found a pair. */
  lemma ScanFeeds(t: Text, buf: seq<byte>, e: nat, i: nat, pended: bool, u: Text)
    requires e + i < |buf| && t.pending == pended && (pended ==> buf[e] == LF)
    requires Scanned(t, buf, e, i, pended, u)
    ensures var c := buf[e + i]; var v := Feed(u, c);
      && v.pending == (c == CR) && v.bare == u.bare + (if c == LF && !u.pending then 1 else 0)
      && (!(c == LF && u.pending) ==> Scanned(t, buf, e, i + 1, pended, v))
      && (c == LF && u.pending ==> Consumed(t, buf, e, i + 1, 2, false, u.bare) && (i == 0 ==> pended))
  {
    hide FeedAll;
    var c := buf[e + i];
    assert buf[e..e + i + 1] == buf[e..e + i] + [c];
    FeedSnoc(t, buf[e..e + i], c);
    if i == 0 {
      assert buf[e..e] == [] && buf[e..e + 1] == [c];
    } else if u.pending {
      assert buf[e..e + i] == buf[e..e + i - 1] + [CR];
    }
  }

  /** Writing a held back CR early is what the machine does on any byte but a line feed. */
  lemma {:induction false} EarlyCR(t: Text, s: seq<byte>)
    requires t.pending && s != [] && s[0] != LF
    ensures FeedAll(t, s) == FeedAll(Text(t.out + [CR], false, t.bare), s)
  {
    if |s| == 1 {
      assert s[..0] == [];
      assert t.out + [CR] + [] == t.out + [CR];
    } else {
      EarlyCR(t, s[..|s| - 1]);
    }
  }

  /** One turn of the inner loop: the piece before the pair, then its line feed. */
  method StorePiece(file: seq<byte>, buf: seq<byte>, e: nat, i: nat, sub: nat, pended: bool, healthy: bool,
                    ghost bare: nat, ghost t: Text)
    returns (file': seq<byte>, ok: bool)
    requires file == t.out && 1 <= i && e + i <= |buf| && (sub == 0 || sub == 2)
    requires sub == 2 ==> !pended && buf[e + i - 1] == LF
    requires Consumed(t, buf, e, i, sub, pended, bare)
    ensures healthy ==> ok
    ensures ok ==> file' == FeedAll(t, buf[e..e + i]).out
    ensures t.out <= file' <= FeedAll(t, buf[e..e + i]).out
  {
    hide FeedAll;
    var count := i - sub - if pended then 1 else 0;
    file', ok := file, true;
    ghost var piece := buf[e..e + Max0(count)];
    if count > 0 {
      var n;
      file', n := Put(file', buf[e..e + count], healthy);
      assert file' == t.out + piece[..n];
      if n != count { return file', false; }
      assert piece[..n] == piece;
    } else {
      assert piece == [];
    }
    if sub == 2 {
      var n;
      file', n := Put(file', buf[e + i - 1..e + i], healthy);
      assert buf[e + i - 1..e + i] == [LF];
      ok := n == 1;
    }
  }

  method StoreChunk(file: seq<byte>, buf: seq<byte>, pended: bool, bare: nat, healthy: bool, ghost t: Text)
    returns (file': seq<byte>, pended': bool, bare': nat, ok: bool)
    requires t == Text(file, pended, bare) && buf != []
    ensures healthy ==> ok
    ensures ok ==> FeedAll(t, buf) == Text(file', pended', bare')
    ensures t.out <= file' <= FeedAll(t, buf).out
  {
    hide FeedAll;
    file', pended', bare', ok := file, pended, bare, true;
    ghost var t0 := t;
    if pended && buf[0] != LF {
      pended' := false;
      EarlyCR(t, buf);
      t0 := Text(t.out + [CR], false, t.bare);
      var n;
      file', n := Put(file', [CR], healthy);
      if n != 1 { return file', pended', bare', false; }
    }
    file', pended', bare', ok := StorePieces(file', buf, pended', bare', healthy, t0);
  }

  method StorePieces(file: seq<byte>, buf: seq<byte>, pended: bool, bare: nat, healthy: bool, ghost t: Text)
    returns (file': seq<byte>, pended': bool, bare': nat, ok: bool)
    requires t == Text(file, pended, bare) && buf != [] && (pended ==> buf[0] == LF)
    ensures healthy ==> ok
    ensures ok ==> FeedAll(t, buf) == Text(file', pended', bare')
    ensures t.out <= file' <= FeedAll(t, buf).out
  {
    assert FeedAll(t, buf[..0]) == t;
    hide FeedAll;
    file', pended', bare', ok := file, pended, bare, true;
    var e, rest := 0, |buf|;
    while rest > 0
      invariant 0 <= e && 0 <= rest && e + rest == |buf|
      invariant FeedAll(t, buf[..e]) == Text(file', pended', bare')
      invariant pended' && rest > 0 ==> buf[e] == LF
    {
      ghost var u := FeedAll(t, buf[..e]);
      var i, sub;
      i, sub, pended', bare' := ScanPair(buf, e, rest, pended', bare', u);
      FeedSplit(t, buf, e, e + i);
      file', ok := StorePiece(file', buf, e, i, sub, pended', healthy, bare', u);
      if !ok { return; }
      e, rest := e + i, rest - i;
    }
    assert buf[..e] == buf;
  }

  lemma FeedSplit(t: Text, buf: seq<byte>, a: nat, b: nat)
    requires a <= b <= |buf|
    ensures FeedAll(FeedAll(t, buf[..a]), buf[a..b]) == FeedAll(t, buf[..b])
    ensures FeedAll(t, buf[..b]).out <= FeedAll(t, buf).out
    ensures t.out <= FeedAll(t, buf[..a]).out
  {
    hide FeedAll;
    assert buf[..b] == buf[..a] + buf[a..b];
    assert buf == buf[..b] + buf[b..];
    FeedConcat(t, buf[..a], buf[a..b]);
    FeedConcat(t, buf[..b], buf[b..]);
  }

  /**
   Receives a file in any (nonempty) chunks. The file and the count of bare line feeds depend only on the
   bytes received; after a failed write the file is a prefix of what it should have been.
   */
  method Store(chunks: seq<seq<byte>>, healthy: bool) returns (file: seq<byte>, bare: nat, ok: bool)
    requires forall c :: c in chunks ==> c != []
    ensures healthy ==> ok
    ensures var t := FeedAll(NOTHING, Flatten(chunks)); file <= t.out && (ok ==> file == t.out && bare == t.bare)
  {
    file, bare, ok := [], 0, true;
    var pended := false;
    var k := 0;
    assert chunks[..0] == [];
    assert FeedAll(NOTHING, Flatten(chunks[..0])) == NOTHING;
    hide FeedAll;
    while k < |chunks|
      invariant 0 <= k <= |chunks|
      invariant FeedAll(NOTHING, Flatten(chunks[..k])) == Text(file, pended, bare)
    {
      ghost var f, c := Flatten(chunks[..k]), chunks[k];
      assert c in chunks;
      assert Flatten(chunks[..k + 1]) == f + c by { assert chunks[..k + 1][..k] == chunks[..k]; }
      FeedConcat(NOTHING, f, c);
      FlattenPrefix(chunks, k + 1);
      FeedSplit(NOTHING, Flatten(chunks), 0, |f + c|);
      assert Flatten(chunks)[..|f + c|] == f + c;
      file, pended, bare, ok := StoreChunk(file, chunks[k], pended, bare, healthy, Text(file, pended, bare));
      if !ok { return; }
      k := k + 1;
    }
    assert chunks[..k] == chunks;
  }

  /** A file sent by RETR and received by STOR, however either side cuts it into chunks. */
  method SendAndStore(fileChunks: seq<seq<byte>>, netChunks: seq<seq<byte>>) returns (file: seq<byte>, bare: nat)
    requires Flatten(netChunks) == Encode(Flatten(fileChunks)) && forall c :: c in netChunks ==> c != []
    ensures var f := Flatten(fileChunks); bare == 0 && file == if EndsInCR(f) then f[..|f| - 1] else f
  {
    var sent, ok := Retrieve(fileChunks, true);
    assert Flatten(netChunks) == sent;
    file, bare, ok := Store(netChunks, true);
    StoreOfEncoded(Flatten(fileChunks));
  }
}
