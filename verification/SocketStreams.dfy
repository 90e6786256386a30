/** Buffered reading from a socket, and the line reader on top of it. */
module SocketStreams {
  import opened Text

  const READ_BUFF_SIZE := 4096

  /** The operating system's side: `incoming` is what the peer has still to deliver. A receive may
      return any non-empty part of it, and may fail at any time. */
  class Socket {
    var incoming: string
    ghost var received: string
    var failed: bool

    constructor (incoming: string)
      ensures this.incoming == incoming && received == "" && !failed
    {
      this.incoming := incoming;
      received := "";
      failed := false;
    }

    method WaitReadable() returns (ok: bool)
      modifies this`failed
      ensures failed == (old(failed) || !ok)
    {
      ok := *;
      failed := failed || !ok;
    }

    method Recv(size: nat) returns (n: int, data: string)
      requires size > 0
      modifies this
      ensures n < 0 ==> failed && data == "" && incoming == old(incoming) && received == old(received)
      ensures n >= 0 ==> failed == old(failed) && n == |data| <= size
      ensures n >= 0 ==> data + incoming == old(incoming) && received == old(received) + data
      ensures n == 0 ==> incoming == ""
    {
      if * {
        failed := true;
        return -1, "";
      }
      if incoming == "" {
        return 0, "";
      }
      var k: nat :| 1 <= k <= size && k <= |incoming|;
      data := incoming[..k];
      incoming := incoming[k..];
      received := received + data;
      n := k;
    }
  }

  class SocketStream {
    const sock: Socket
    const readBuff: array<char>
    var off: nat
    var contentSize: nat
    ghost var returned: string

    /** Nothing received is lost, repeated or reordered: it has been returned or is the unread slice. */
    ghost predicate Valid()
      reads this, sock, readBuff
    {
      && readBuff.Length == READ_BUFF_SIZE
      && off <= contentSize <= readBuff.Length
      && sock.received == returned + readBuff[off..contentSize]
    }

    /** The bytes a reader has still to see. */
    ghost function Pending(): string
      requires Valid()
      reads this, sock, readBuff
    {
      readBuff[off..contentSize] + sock.incoming
    }

    constructor (sock: Socket)
      requires sock.received == ""
      ensures Valid() && this.sock == sock && fresh(readBuff) && returned == "" && Pending() == sock.incoming
    {
      this.sock := sock;
      readBuff := new char[READ_BUFF_SIZE];
      off, contentSize := 0, 0;
      returned := "";
    }

    method FromBuffer(size: nat) returns (n: int, data: string)
      requires Valid() && size > 0 && off < contentSize
      modifies this
      ensures Valid() && sock.failed == old(sock.failed)
      ensures 1 <= n == |data| <= size
      ensures data + Pending() == old(Pending()) && returned == old(returned) + data
    {
      var remaining := contentSize - off;
      var k := if size <= remaining then size else remaining;
      data := readBuff[off..off + k];
      ghost var unread := readBuff[off..contentSize];
      off := off + k;
      assert unread == data + readBuff[off..contentSize];
      returned := returned + data;
      n := k;
      Assoc(old(returned), data, readBuff[off..contentSize]);
      Assoc(data, readBuff[off..contentSize], sock.incoming);
    }

    method Fill(data: string)
      requires |data| <= readBuff.Length
      modifies readBuff
      ensures readBuff[..|data|] == data
    {
      for i := 0 to |data|
        invariant readBuff[..i] == data[..i]
      {
        readBuff[i] := data[i];
      }
    }

    /** Returns a non-empty part of what is pending, or nothing at its end, or fails. */
    method Read(size: nat) returns (n: int, data: string)
      requires Valid() && size > 0
      modifies this, sock, readBuff
      ensures Valid()
      ensures n < 0 ==> sock.failed && data == "" && Pending() == old(Pending()) && returned == old(returned)
      ensures n >= 0 ==> sock.failed == old(sock.failed) && n == |data| <= size
      ensures n >= 0 ==> data + Pending() == old(Pending()) && returned == old(returned) + data
      ensures n == 0 ==> Pending() == ""
    {
      if off < contentSize {
        n, data := FromBuffer(size);
        return;
      }
      assert readBuff[off..contentSize] == "";
      assert sock.received == returned && Pending() == sock.incoming;
      var ready := sock.WaitReadable();
      if !ready {
        return -1, "";
      }
      off, contentSize := 0, 0;
      if size < READ_BUFF_SIZE {
        var got;
        n, got := sock.Recv(READ_BUFF_SIZE);
        if n <= 0 {
          return n, "";
        }
        Fill(got);
        if n <= size {
          data := got;
          returned := returned + data;
        } else {
          data := readBuff[..size];
          off, contentSize := size, n;
          n := size;
          returned := returned + data;
          assert got == data + readBuff[off..contentSize];
          Assoc(old(returned), data, readBuff[off..contentSize]);
          Assoc(data, readBuff[off..contentSize], sock.incoming);
        }
      } else {
        n, data := sock.Recv(size);
        returned := returned + data;
      }
    }
  }
}
