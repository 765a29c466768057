/**
 The object file cache: one buffer that slides over a file. Readers get a reference into the
 buffer; whatever was read before, the bytes they see are the file's.
 */
module ObjCache {
  import opened Bytes

  const NO_FD := -1
  const SIZE_MAX := 0x1_0000_0000
  type SizeT = x: int | 0 <= x < SIZE_MAX

  /** `size_t` subtraction. */
  function SizeSub(a: int, b: int): (r: nat)
    requires 0 <= a < SIZE_MAX && 0 <= b < SIZE_MAX
    ensures b <= a ==> r == a - b
    ensures b > a ==> r == a - b + SIZE_MAX
  {
    (a - b) % SIZE_MAX
  }

  /**
   POSIX `read`: some prefix of what is there, empty only at end of file. Which prefix is not
   determined; `healthy` says that the device does not report errors.
   */
  method PosixRead(file: seq<byte>, pos: nat, want: nat, healthy: bool) returns (r: Option<seq<byte>>)
    requires want > 0
    ensures healthy ==> r.Some?
    ensures r.Some? ==> |r.value| <= want && (r.value == [] <==> pos >= |file|)
    ensures r.Some? && r.value != [] ==> pos + |r.value| <= |file| && r.value == file[pos..pos + |r.value|]
  {
    if !healthy {
      if * { return None; }
    }
    if pos >= |file| { return Some([]); }
    var n := 1;
    if want > 1 && pos + 1 < |file| {
      n :| 1 <= n <= want && pos + n <= |file|;
    }
    return Some(file[pos..pos + n]);
  }

  /** Any other system call that succeeds unless the device is unhealthy. */
  method PosixCall(healthy: bool) returns (ok: bool)
    ensures healthy ==> ok
  {
    ok := true;
    if !healthy {
      if * { ok := false; }
    }
  }

  /** Part of an excerpt is the same part of the whole. */
  lemma Excerpt(b: seq<byte>, file: seq<byte>, offset: nat, level: nat, at: nat, len: nat)
    requires level <= |b| && offset + level <= |file| && at + len <= level
    requires b[..level] == file[offset..offset + level]
    ensures b[at..at + len] == file[offset + at..offset + at + len]
  {
    var part, same := b[at..at + len], file[offset + at..offset + at + len];
    forall i | 0 <= i < len ensures part[i] == same[i] {
      assert b[..level][at + i] == file[offset..offset + level][at + i];
    }
  }

  datatype Status = Hit(start: nat) | Again | Failed

  class Cache {
    var fd: int
    var fileSize: nat
    var offset: nat
    const size: nat
    var level: nat
    const buffer: array<byte>

    constructor (size: nat)
      requires size > 0
      ensures this.size == size && fd == NO_FD && fresh(buffer)
      ensures forall files: map<int, seq<byte>> :: Coherent(files)
    {
      fd, fileSize, offset, level := NO_FD, 0, 0, 0;
      this.size := size;
      buffer := new byte[size];
    }

    /** The buffer is an excerpt of the file it is bound to. */
    ghost predicate Coherent(files: map<int, seq<byte>>)
      reads this, buffer
    {
      && buffer.Length == size > 0 && level <= size
      && (fd != NO_FD ==>
            && fd in files && fileSize == |files[fd]|
            && (level > 0 ==> offset + level <= fileSize)
            && (level > 0 ==> buffer[..level] == files[fd][offset..offset + level]))
    }

    /** The bytes asked for are all in the buffer. */
    predicate Holds(fd: int, off: nat, length: nat)
      reads this
    {
      this.fd == fd && offset <= off < offset + level && off + length <= offset + level
    }

    /** When a read returns: otherwise it fills the buffer again and again. */
    predicate Returns(file: seq<byte>, fd: int, off: nat, length: nat)
      reads this
    {
      || length > size
      || (this.fd == fd && off > fileSize)
      || (off < |file| && (this.fd == fd || off + length <= |file|))
    }

    method Flush(ghost files: map<int, seq<byte>>)
      requires buffer.Length == size > 0
      modifies this
      ensures fd == NO_FD && Coherent(files)
    {
      fd, fileSize, offset, level := NO_FD, 0, 0, 0;
    }
  
    /** `memmove` of `n` bytes to the front of the buffer. */
    method MoveDown(from: nat, n: nat)
      requires from + n <= buffer.Length
      modifies buffer
      ensures buffer[..n] == old(buffer[from..from + n])
    {
      forall i | 0 <= i < n { buffer[i] := buffer[from + i]; }
    }

    /** Puts a chunk behind the first `at` bytes. */
    method Store(at: nat, chunk: seq<byte>)
      requires at + |chunk| <= buffer.Length
      modifies buffer
      ensures buffer[..at + |chunk|] == old(buffer[..at]) + chunk
    {
      forall i | 0 <= i < |chunk| { buffer[at + i] := chunk[i]; }
    }

    /**
     The fragment loop: behind the `have` bytes already in place it reads up to `want` more, and
     `level` ends up counting exactly what the file had.
     */
    method Fill(file: seq<byte>, off: nat, have: nat, want: nat, healthy: bool) returns (ok: bool)
      requires buffer.Length == size && have <= size
      requires have > 0 ==> off + have <= |file| && buffer[..have] == file[off..off + have]
      requires have + want <= size || off + have >= |file|
      modifies this`level, buffer
      ensures healthy ==> ok
      ensures ok ==> level == have + Min(want, if off + have < |file| then |file| - off - have else 0)
      ensures ok && level > 0 ==> level <= size && off + level <= |file| && buffer[..level] == file[off..off + level]
    {
      var bufferOffset, bufferRead := have, want;
      level := bufferOffset + bufferRead;
      while bufferRead > 0
        invariant have <= bufferOffset <= size && 0 <= bufferRead
        invariant bufferOffset > 0 ==>
          off + bufferOffset <= |file| && buffer[..bufferOffset] == file[off..off + bufferOffset]
        invariant (level == have + want == bufferOffset + bufferRead)
               || (level == bufferOffset && bufferRead == 0 && off + bufferOffset >= |file|)
        invariant bufferOffset + bufferRead <= size || off + bufferOffset >= |file|
        invariant bufferOffset <= have + want
      {
        var r := PosixRead(file, off + bufferOffset, bufferRead, healthy);
        if r.None? { return false; }
        if r.value == [] {
          level := level - bufferRead;
          bufferRead := 0;
        } else {
          Store(bufferOffset, r.value);
          assert file[off..off + bufferOffset] + r.value == file[off..off + bufferOffset + |r.value|];
          bufferRead := bufferRead - |r.value|;
          bufferOffset := bufferOffset + |r.value|;
        }
      }
      ok := true;
    }
  
    /** How much of the file one filling at `off` can hold. */
    function Window(file: seq<byte>, off: nat): nat {
      Min(size, if off < |file| then |file| - off else 0)
    }

    /**
     The part of a turn before any reading: `hit` when all bytes are there. Otherwise the `have` bytes
     that are there move to the front, and `want` is the room left, never past the end of the file.
     */
    method Slide(files: map<int, seq<byte>>, fd: int, off: nat, length: nat) returns (hit: bool, have: nat, want: nat)
      requires Coherent(files) && fd in files && fd != NO_FD
      requires off + size < SIZE_MAX && |files[fd]| < SIZE_MAX
      modifies this`offset, this`level, buffer
      ensures hit <==> old(Holds(fd, off, length))
      ensures hit ==> unchanged(this) && unchanged(buffer)
      ensures !hit ==> have <= size && (have + want <= size || off + have >= |files[fd]|)
      ensures !hit && have > 0 ==> off + have <= |files[fd]| && buffer[..have] == files[fd][off..off + have]
      ensures !hit && off + have < |files[fd]| ==> have + want == size || off + have + want == |files[fd]|
    {
      hit, have, want := false, 0, size;
      if fd == this.fd {
        if off + want > fileSize {
          want := SizeSub(fileSize, off);
        }
        if off >= offset && off < offset + level {
          var from := off - offset;
          have := level - from;
          if length <= have { return true, have, want; }
          HoldsExcerpt(files, off, have);
          MoveDown(from, have);
          offset, level := off, have;
          want := size - level;
          if off + have + want > fileSize {
            want := SizeSub(fileSize, off + have);
          }
        }
      }
    }

    /**
     One turn of the retry loop. It answers exactly when the bytes are already there; otherwise it
     keeps what it has of them, fills the buffer from `off` on, and binds the cache to the file.
     */
    method Pass(files: map<int, seq<byte>>, fd: int, off: nat, length: nat, healthy: bool) returns (s: Status)
      requires Coherent(files) && fd in files && fd != NO_FD
      requires off + size < SIZE_MAX && |files[fd]| < SIZE_MAX
      modifies this, buffer
      ensures s.Hit? <==> old(Holds(fd, off, length))
      ensures s.Hit? ==> unchanged(this) && unchanged(buffer) && s.start == off - offset
      ensures healthy ==> !s.Failed?
      ensures s.Again? ==> Coherent(files) && this.fd == fd && offset == off && level == Window(files[fd], off)
    {
      var hit, have, want := Slide(files, fd, off, length);
      if hit { return Hit(off - offset); }
      var ok := PosixCall(healthy);
      if !ok { return Failed; }
      ok := Fill(files[fd], off, have, want, healthy);
      if !ok { return Failed; }
      offset := off;
      if this.fd != fd {
        this.fd := fd;
        ok := PosixCall(healthy);
        if !ok { return Failed; }
        fileSize := |files[fd]|;
      }
      s := Again;
    }

    /**
     Reads by reference: after any history of reads and flushes the answer is the file's own bytes,
     cut short only at the end of the file. Without device errors every read that can return does.
     */
    method Read(files: map<int, seq<byte>>, fd: int, off: nat, length: nat, healthy: bool)
      returns (ok: bool, start: nat, len: nat)
      requires Coherent(files) && fd in files && fd != NO_FD
      requires off + size < SIZE_MAX && |files[fd]| < SIZE_MAX
      requires Returns(files[fd], fd, off, length)
      modifies this, buffer
      ensures length > size || old(this.fd == fd && off > fileSize) ==> !ok && unchanged(this) && unchanged(buffer)
      ensures healthy && length <= size && off < |files[fd]| ==> ok
      ensures ok ==> Coherent(files) && this.fd == fd && len == Min(length, |files[fd]| - off)
      ensures ok ==> start + len <= buffer.Length && buffer[start..start + len] == files[fd][off..off + len]
    {
      len := length;
      start := 0;
      if length > size { return false, 0, len; }
      if this.fd == fd {
        if off > fileSize { return false, 0, len; }
        if off + len > fileSize { len := fileSize - off; }
      }
      ghost var file := files[fd];
      while true
        invariant Coherent(files) && off + len <= |file| && off < |file| && len <= size
        decreases if Holds(fd, off, len) then 0 else 1
      {
        var s := Pass(files, fd, off, len, healthy);
        if s.Failed? { return false, 0, len; }
        if s.Hit? {
          start := s.start;
          HoldsExcerpt(files, off, len);
          return true, start, len;
        }
      }
    }

    lemma HoldsExcerpt(files: map<int, seq<byte>>, off: nat, len: nat)
      requires Coherent(files) && fd != NO_FD && Holds(fd, off, len)
      ensures buffer[off - offset..off - offset + len] == files[fd][off..off + len]
    {
      assert buffer[..][..level] == buffer[..level];
      Excerpt(buffer[..], files[fd], offset, level, off - offset, len);
    }

    /** A read that violates `Returns` never answers, however many turns it is given. */
    method Spin(files: map<int, seq<byte>>, fd: int, off: nat, length: nat, turns: nat)
      returns (answered: bool)
      requires Coherent(files) && fd in files && fd != NO_FD
      requires off + size < SIZE_MAX && |files[fd]| < SIZE_MAX
      requires !Returns(files[fd], fd, off, length)
      modifies this, buffer
      ensures !answered
    {
      answered := false;
      var len := length;
      if this.fd == fd && off + len > fileSize { len := fileSize - off; }
      for i := 0 to turns
        invariant Coherent(files) && !Holds(fd, off, len)
      {
        var s := Pass(files, fd, off, len, true);
        if s.Hit? { answered := true; return; }
      }
    }

    /** Reads by value: all or nothing. */
    method ReadByVal(files: map<int, seq<byte>>, fd: int, off: nat, length: nat, healthy: bool, dst: array<byte>)
      returns (ok: bool)
      requires Coherent(files) && fd in files && fd != NO_FD
      requires off + size < SIZE_MAX && |files[fd]| < SIZE_MAX
      requires Returns(files[fd], fd, off, length)
      requires dst != buffer && length <= dst.Length
      modifies this, buffer, dst
      ensures ok ==> Coherent(files) && off + length <= |files[fd]| && dst[..length] == files[fd][off..off + length]
      ensures !ok ==> dst[..] == old(dst[..])
      ensures healthy && length <= size && off + length <= |files[fd]| && off < |files[fd]| ==> ok
    {
      var start, len;
      ok, start, len := Read(files, fd, off, length, healthy);
      if ok && len != length { ok := false; }
      if ok {
        ghost var answer := buffer[start..start + len];
        forall i | 0 <= i < length { dst[i] := buffer[start + i]; }
        assert dst[..length] == answer;
      }
    }
  }
}
