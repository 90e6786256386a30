/** Reading lines from a buffered stream through a fixed buffer that overflows into a growable one. */
module LineReaders {
  import opened SocketStreams
  import opened Text

  /** The next line of `s`, its terminator included, and what follows; at the end of input the last
      line may lack its terminator. */
  function NextLine(s: string): (string, string) {
    var f := Find(s, CRLF);
    if f < |s| then (s[..f + 2], s[f + 2..]) else (s, "")
  }

  class StreamLineReader {
    const strm: SocketStream
    const fixedBuffer: array<char>
    var usedSize: nat
    var growable: string

    ghost predicate Valid()
      reads this, fixedBuffer, strm, strm.sock, strm.readBuff
    {
      && strm.Valid() && fixedBuffer != strm.readBuff
      && fixedBuffer.Length >= 2 && usedSize < fixedBuffer.Length
      && (growable != "" ==> usedSize == fixedBuffer.Length - 1 && fixedBuffer[..usedSize] <= growable)
    }

    /** The line held, as `ptr()` and `size()` delimit it. */
    function Line(): string
      requires usedSize <= fixedBuffer.Length
      reads this, fixedBuffer
    {
      if growable == "" then fixedBuffer[..usedSize] else growable
    }

    constructor (strm: SocketStream, size: nat)
      requires strm.Valid() && size >= 2
      ensures Valid() && this.strm == strm && fresh(fixedBuffer)
      ensures strm.Pending() == old(strm.Pending())
    {
      this.strm := strm;
      fixedBuffer := new char[size];
      usedSize := 0;
      growable := "";
    }

    /** Adds one byte, moving to the growable buffer when only the terminator's place is left. */
    method Append(c: char)
      requires Valid()
      modifies this, fixedBuffer
      ensures Valid() && Line() == old(Line()) + [c]
      ensures strm.Pending() == old(strm.Pending())
    {
      if usedSize < fixedBuffer.Length - 1 {
        fixedBuffer[usedSize] := c;
        usedSize := usedSize + 1;
        fixedBuffer[usedSize] := '\0';
      } else {
        if growable == "" {
          growable := fixedBuffer[..usedSize];
        }
        growable := growable + [c];
      }
    }

    /** Whatever the buffer size, a successful call yields exactly the input up to and including the first
        CRLF, or up to the end of input; a failing one met a failed read or found no input at all. */
    method GetLine() returns (ok: bool)
      requires Valid()
      modifies this, fixedBuffer, strm, strm.sock, strm.readBuff
      ensures Valid() && (old(strm.sock.failed) ==> strm.sock.failed)
      ensures Line() + strm.Pending() == old(strm.Pending())
      ensures ok ==> old(strm.Pending()) != "" && (Line(), strm.Pending()) == NextLine(old(strm.Pending()))
      ensures ok ==> strm.sock.failed == old(strm.sock.failed)
      ensures !ok ==> strm.sock.failed || old(strm.Pending()) == ""
    {
      ghost var input := strm.Pending();
      usedSize := 0;
      growable := "";
      var prev := '\0';
      var i := 0;
      while true
        invariant Valid() && strm.sock.failed == old(strm.sock.failed)
        invariant Line() + strm.Pending() == input && |Line()| == i
        invariant i > 0 ==> prev == Line()[i - 1]
        invariant forall j :: !At(Line(), CRLF, j)
        invariant i == 0 ==> prev == '\0'
        decreases |strm.Pending()|
      {
        ghost var line, pending := Line(), strm.Pending();
        var n, data := strm.Read(1);
        if n < 0 {
          return false;
        }
        if n == 0 {
          if i == 0 {
            return false;
          }
          assert pending == "" && line + "" == line == input;
          FindIs(input, CRLF, |input|);
          return true;
        }
        Append(data[0]);
        assert Line() == line + data;
        Assoc(line, data, strm.Pending());
        if prev == '\r' && data[0] == '\n' {
          assert At(Line(), CRLF, i - 1);
          FirstEnds(line, data, strm.Pending());
          return true;
        }
        StillNone(line, data[0]);
        prev := data[0];
        i := i + 1;
      }
    }
  }

  /** Without a CRLF before it, the one just completed is the first. */
  lemma FirstEnds(line: string, last: string, rest: string)
    requires |last| == 1 && line != "" && line[|line| - 1] == '\r' && last[0] == '\n'
    requires forall j :: !At(line, CRLF, j)
    ensures NextLine(line + last + rest) == (line + last, rest)
  {
    var s := line + last + rest;
    assert s[|line| - 1..|line| + 1] == CRLF;
    forall j | 0 <= j < |line| - 1 ensures !At(s, CRLF, j) {
      assert s[j..j + 2] == line[j..j + 2];
      assert !At(line, CRLF, j);
    }
    FindIs(s, CRLF, |line| - 1);
    assert s[..|line| + 1] == line + last;
  }

  lemma StillNone(line: string, c: char)
    requires forall j :: !At(line, CRLF, j)
    requires !(line != "" && line[|line| - 1] == '\r' && c == '\n')
    ensures forall j :: !At(line + [c], CRLF, j)
  {
    var s := line + [c];
    forall j: nat ensures !At(s, CRLF, j) {
      if j + 2 <= |line| {
        assert s[j..j + 2] == line[j..j + 2];
        assert !At(line, CRLF, j);
      } else if j + 2 == |s| {
        assert s[j..j + 2] == [line[j], c];
      }
    }
  }
}
