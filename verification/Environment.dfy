/** What the programs get from the operating system: a socket, a file to read, a file to write. */
module Environment {
  import opened Basics

  /** `inbox` lists what the following waits will return; `outbox` records every datagram sent. */
  class Socket<E(==)> {
    var inbox: seq<E>
    var outbox: seq<bytes>

    constructor (events: seq<E>)
      ensures inbox == events && outbox == []
    {
      inbox, outbox := events, [];
    }

    method Send(datagram: bytes)
      modifies this
      ensures outbox == old(outbox) + [datagram] && inbox == old(inbox)
    {
      outbox := outbox + [datagram];
    }

    /** Waits for the next event; `None` if none of the given events is left. */
    method Receive() returns (e: Option<E>)
      modifies this
      ensures outbox == old(outbox)
      ensures if old(inbox) == [] then e == None && inbox == []
              else e == Some(old(inbox)[0]) && inbox == old(inbox)[1..]
    {
      if inbox == [] {
        return None;
      }
      e := Some(inbox[0]);
      inbox := inbox[1..];
    }
  }

  /** A file open for reading. A read may return fewer bytes than asked for, but returns nothing
      only at the end of the file. */
  class Source {
    const content: bytes
    const inMemory: bool
    var pos: nat

    constructor (content: bytes, inMemory: bool)
      ensures this.content == content && this.inMemory == inMemory && pos == 0
    {
      this.content, this.inMemory, pos := content, inMemory, 0;
    }

    method Read(max: nat) returns (chunk: bytes)
      requires max > 0 && pos <= |content|
      modifies this
      ensures old(pos) <= pos <= |content| && pos <= old(pos) + max
      ensures chunk == content[old(pos)..pos]
      ensures chunk == [] <==> old(pos) == |content|
      ensures inMemory ==> |chunk| == Min(max, |content| - old(pos))
    {
      var limit := Min(max, |content| - pos);
      var n: nat := limit;
      if limit > 0 && !inMemory {
        n :| 1 <= n <= limit;
      }
      chunk := content[pos..pos + n];
      pos := pos + n;
    }
  }

  /** A file open for writing. */
  class Disk {
    var data: bytes

    constructor ()
      ensures data == []
    {
      data := [];
    }

    method WriteAll(buf: bytes)
      modifies this
      ensures data == old(data) + buf
    {
      data := data + buf;
    }
  }
}
