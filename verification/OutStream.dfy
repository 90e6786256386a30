/** The sending side of a connection: it may take any part of what it is given. */
module OutStreams {
  import opened Text

  /** How much of a text goes out in one write of a stream ready to take `most` bytes. */
  function Taken(text: string, most: nat): (n: nat)
    ensures n <= |text| && (text != "" ==> n > 0)
  {
    if most >= |text| then |text| else if most == 0 then 1 else most
  }

  class OutStream {
    var written: string
    var failed: bool

    constructor ()
      ensures written == "" && !failed
    {
      written, failed := "", false;
    }

    method WaitWritable() returns (ok: bool)
      modifies this`failed
      ensures failed == (old(failed) || !ok)
    {
      ok := *;
      failed := failed || !ok;
    }

    /** Takes as much of `d` as `most` allows, though at least a byte, or fails. */
    method Take(d: string, most: nat) returns (n: int)
      requires d != ""
      modifies this
      ensures n < 0 ==> failed && written == old(written)
      ensures old(failed) ==> failed
      ensures n >= 0 ==> n == Taken(d, most) && failed == old(failed) && written == old(written) + d[..n]
    {
      if * {
        failed := true;
        return -1;
      }
      n := Taken(d, most);
      written := written + d[..n];
    }

    /** Takes a non-empty part of `d`, or fails. */
    method Write(d: string) returns (n: int)
      requires d != ""
      modifies this
      ensures n < 0 ==> failed && written == old(written)
      ensures old(failed) ==> failed
      ensures n >= 0 ==> 1 <= n <= |d| && failed == old(failed) && written == old(written) + d[..n]
    {
      var most: nat := *;
      n := Take(d, most);
    }

    /** `write_data`: goes on until everything is taken. */
    method WriteData(d: string) returns (ok: bool)
      modifies this
      ensures ok ==> failed == old(failed) && written == old(written) + d
      ensures (!ok || old(failed)) ==> failed
    {
      var offset := 0;
      while offset < |d|
        invariant offset <= |d| && failed == old(failed)
        invariant written == old(written) + d[..offset]
      {
        var n := Write(d[offset..]);
        if n < 0 {
          return false;
        }
        Assoc(old(written), d[..offset], d[offset..][..n]);
        assert d[..offset] + d[offset..][..n] == d[..offset + n];
        offset := offset + n;
      }
      assert d[..offset] == d;
      return true;
    }
  }
}
