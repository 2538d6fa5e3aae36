/**
  glog's fixed-buffer line reader (symbolize.cc): ReadFromOffset, which fills a buffer through
  short reads, and LineReader, which returns the newline-terminated lines of a file one by one
  from a buffer it compacts in place.
  */
module LineReader {
  import opened TextLines

  function Min(a: int, b: int): (r: int) {
    if a < b then a else b
  }

  /** An unchanging file. `Pread` stands for the system call: an error, end of file, or any positive number of
      bytes up to what was asked for and what is there. */
  class File {
    const data: string

    method Pread(buf: array<char>, at: nat, count: nat, offset: nat) returns (len: int)
      requires at + count <= buf.Length && count > 0
      modifies buf
      ensures len < 0 || (offset >= |data| && len == 0) || (offset < |data| && 0 < len <= Min(count, |data| - offset))
      ensures forall k :: 0 <= k < at ==> buf[k] == old(buf[k])
      ensures forall k :: at <= k < at + len ==> buf[k] == data[offset + (k - at)]
    {
      var choice: int := *;
      if choice < 0 {
        return -1;
      }
      if offset >= |data| {
        return 0;
      }
      len := Min(1 + choice, Min(count, |data| - offset));
      forall k | at <= k < at + len {
        buf[k] := data[offset + (k - at)];
      }
    }

    /** ReadFromOffset: -1 on an error; otherwise exactly as much as fits and is there, whatever the reads. */
    method ReadFromOffset(buf: array<char>, at: nat, count: nat, offset: nat) returns (n: int)
      requires at + count <= buf.Length
      modifies buf
      ensures n == -1 || n == (if offset >= |data| then 0 else Min(count, |data| - offset))
      ensures forall k :: 0 <= k < at ==> buf[k] == old(buf[k])
      ensures forall k :: at <= k < at + n ==> buf[k] == data[offset + (k - at)]
    {
      n := 0;
      while n < count
        invariant 0 <= n <= count && (n > 0 ==> offset + n <= |data|)
        invariant forall k :: 0 <= k < at ==> buf[k] == old(buf[k])
        invariant forall k :: at <= k < at + n ==> buf[k] == data[offset + (k - at)]
        decreases count - n
      {
        var len := Pread(buf, at + n, count - n, offset + n);
        if len < 0 {
          return -1;
        }
        if len == 0 {
          break;
        }
        n := n + len;
      }
    }
  }

  /** The reader: `buf[bol..eol]` is the last line returned, `buf[eol + 1..eod]` what was read beyond it, and
      `offset` the file position of the next read. */
  class Reader {
    const file: File
    const buf: array<char>
    var offset: nat
    var bol: nat
    var eol: nat
    var eod: nat
    ghost var pos: nat // file position of the first character not yet returned

    /** The text the reader has still to return. */
    ghost function Left(): (r: string)
      reads this`pos
    {
      if pos <= |file.data| then file.data[pos..] else ""
    }

    /** The buffer from `from` on holds the next text of the file, up to where the next read starts. */
    ghost predicate Window(from: nat)
      reads this, buf
    {
      && from <= eod <= buf.Length
      && eod - from <= |Left()| && offset == pos + (eod - from)
      && forall k :: from <= k < eod ==> buf[k] == Left()[k - from]
    }

    /** Holds initially and after every successful ReadLine. */
    ghost predicate Valid()
      reads this, buf
    {
      eod <= buf.Length && if eod == 0 then pos == offset else bol <= eol < eod && buf[eol] == '\0' && Window(eol + 1)
    }

    constructor (file: File, buf: array<char>, offset: nat)
      ensures Valid() && this.file == file && this.buf == buf && pos == offset
    {
      this.file, this.buf, this.offset := file, buf, offset;
      bol, eol, eod := 0, 0, 0;
      pos := offset;
    }

    /** memchr for a newline in buf[from..eod]; eod when there is none. */
    method FindLineFeed(from: nat) returns (i: nat)
      requires from <= eod <= buf.Length
      ensures from <= i <= eod && (i < eod ==> buf[i] == '\n')
      ensures forall k :: from <= k < i ==> buf[k] != '\n'
    {
      i := from;
      while i < eod && buf[i] != '\n'
        invariant from <= i <= eod
        invariant forall k :: from <= k < i ==> buf[k] != '\n'
      {
        i := i + 1;
      }
    }

    method MoveToFront(from: nat, n: nat)
      requires from + n <= buf.Length
      modifies buf
      ensures forall k :: 0 <= k < n ==> buf[k] == old(buf[from + k])
    {
      forall k | 0 <= k < n {
        buf[k] := buf[from + k];
      }
    }

    /** No line that fits the buffer begins the text left. */
    ghost predicate NoLineFits()
      reads this`pos
    {
      FindNewline(Left()) >= Min(|Left()|, buf.Length)
    }

    /** The part of ReadLine that brings the next line into the buffer, reading only when it is not there. */
    method Load() returns (go: bool, failed: bool)
      requires Valid()
      modifies this`offset, this`bol, this`eod, buf
      ensures failed ==> !go
      ensures !failed && !go ==> NoLineFits()
      ensures go ==> eod > 0 && Window(bol)
                     && (eod - bol == Min(|Left()|, buf.Length) || exists k :: bol <= k < eod && buf[k] == '\n')
    {
      if eod == 0 {
        var n := file.ReadFromOffset(buf, 0, buf.Length, offset);
        if n <= 0 {
          return false, n < 0;
        }
        offset, eod, bol := offset + n, n, 0;
        return true, false;
      }
      bol := eol + 1;
      var k := FindLineFeed(bol);
      if k == eod {
        go, failed := Refill();
      } else {
        go, failed := true, false;
      }
    }

    /** Move the trailing incomplete line to the front. */
    method Compact() returns (incomplete: nat)
      requires Window(bol) && forall k :: bol <= k < eod ==> buf[k] != '\n'
      modifies buf
      ensures incomplete == eod - bol <= |Left()| && FindNewline(Left()) >= incomplete
      ensures forall k :: 0 <= k < incomplete ==> buf[k] == Left()[k]
    {
      hide *;
      WindowText(bol);
      incomplete := eod - bol;
      ghost var left := Left();
      assert forall k :: 0 <= k < incomplete ==> left[k] == buf[bol + k];
      NoLineIn(left, incomplete);
      MoveToFront(bol, incomplete);
    }

    lemma {:induction false} WindowText(from: nat)
      requires Window(from)
      ensures from <= eod <= buf.Length && eod - from <= |Left()|
      ensures forall k :: 0 <= k < eod - from ==> Left()[k] == buf[from + k]
    {
    }

    /** The buffer holds an incomplete line: move it to the front and read more behind it. */
    method Refill() returns (go: bool, failed: bool)
      requires Window(bol) && 0 < bol && forall k :: bol <= k < eod ==> buf[k] != '\n'
      modifies this`offset, this`bol, this`eod, buf
      ensures failed ==> !go
      ensures !failed && !go ==> NoLineFits()
      ensures go ==> eod > 0 && bol == 0 && Window(0) && eod == Min(|Left()|, buf.Length)
    {
      hide FindNewline;
      ghost var left := Left();
      var incomplete := Compact();
      var n := file.ReadFromOffset(buf, incomplete, buf.Length - incomplete, offset);
      if n <= 0 {
        return false, n < 0;
      }
      assert |left| == |file.data| - pos && offset == pos + incomplete;
      forall k | incomplete <= k < incomplete + n ensures buf[k] == left[k] {
        assert buf[k] == file.data[offset + (k - incomplete)];
      }
      offset, eod, bol := offset + n, incomplete + n, 0;
      assert Left() == left && offset == pos + eod && eod == Min(|left|, buf.Length);
      assert forall k :: 0 <= k < eod ==> buf[k] == left[k - 0];
      return true, false;
    }

    /** The end of ReadLine: replace the newline at `k` by a NUL and step past it. */
    method Terminate(k: nat)
      requires Window(bol) && bol <= k < eod
      modifies this`eol, this`pos, buf
      ensures Valid() && eol == k && buf[bol..eol] == old(buf[bol..k])
      ensures Left() == old(Left())[k - bol + 1..]
    {
      ghost var left, from := Left(), k - bol + 1;
      eol := k;
      buf[eol] := '\0';
      pos := pos + (eol - bol) + 1;
      assert Left() == left[from..];
      forall j | eol + 1 <= j < eod ensures buf[j] == Left()[j - (eol + 1)] {
        assert buf[j] == left[j - bol];
      }
    }

    /** The rest of ReadLine once the buffer holds all there is or can be of the next line. */
    method TakeLine() returns (ok: bool)
      requires Window(bol)
      requires eod - bol == Min(|Left()|, buf.Length) || exists k :: bol <= k < eod && buf[k] == '\n'
      modifies this`eol, this`pos, buf
      ensures var left := old(Left()); var i := FindNewline(left);
              && (ok <==> i < |left| && i + 1 <= buf.Length)
              && (ok ==> Valid() && bol <= eol < buf.Length && buf[bol..eol] == left[..i] && Left() == left[i + 1..])
    {
      hide Window, Left, FindNewline, Valid;
      ghost var left := Left();
      WindowText(bol);
      var k := FindLineFeed(bol);
      if k == eod {
        NoLineIn(left, eod - bol);
        return false;
      }
      LineIn(left, k - bol);
      assert buf[bol..k] == left[..k - bol];
      Terminate(k);
      ok := true;
    }

    /** ReadLine. `failed` tells that a read failed. Without one it succeeds exactly when the text left has a
        newline and the line with its newline fits the buffer, and it returns that line. */
    method ReadLine() returns (ok: bool, failed: bool)
      requires Valid()
      modifies this`offset, this`bol, this`eol, this`eod, this`pos, buf
      ensures var left := old(Left()); var i := FindNewline(left);
              && (failed ==> !ok)
              && (!failed ==> (ok <==> i < |left| && i + 1 <= buf.Length))
              && (ok ==> Valid() && bol <= eol < buf.Length && buf[bol..eol] == left[..i] && Left() == left[i + 1..])
    {
      hide FindNewline, Left, Window, Valid;
      var go;
      go, failed := Load();
      if !go {
        return false, failed;
      }
      ok := TakeLine();
    }
  }

  /** Reading to the end: whatever the pattern of short reads, the successive lines are the complete lines of
      the file in order, and reading stops only after the last of them, at a read error, or at a line that with
      its newline does not fit the buffer. */
  method ReadLines(r: Reader) returns (lines: seq<string>, failed: bool)
    requires r.Valid()
    modifies r`offset, r`bol, r`eol, r`eod, r`pos, r.buf
    ensures var all := Lines(old(r.Left()));
            && lines <= all
            && (!failed ==> lines == all || (|lines| < |all| && |all[|lines|]| + 1 > r.buf.Length))
  {
    hide *;
    lines := [];
    ghost var all := Lines(r.Left());
    while true
      invariant r.Valid()
      invariant all == lines + Lines(r.Left())
      decreases |r.Left()|
    {
      ghost var text := r.Left();
      UnfoldLines(text);
      var ok;
      ok, failed := r.ReadLine();
      if !ok {
        return;
      }
      lines := lines + [r.buf[r.bol..r.eol]];
    }
  }

  lemma {:induction false} UnfoldLines(text: string)
    ensures var i := FindNewline(text); Lines(text) == if i == |text| then [] else [text[..i]] + Lines(text[i + 1..])
  {
  }

  lemma {:induction false} LineIn(left: string, i: nat)
    requires i < |left| && left[i] == '\n' && forall j :: 0 <= j < i ==> left[j] != '\n'
    ensures FindNewline(left) == i
  {
  }

  lemma {:induction false} NoLineIn(left: string, n: nat)
    requires n <= |left| && forall j :: 0 <= j < n ==> left[j] != '\n'
    ensures FindNewline(left) >= n
  {
  }
}
