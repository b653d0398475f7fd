/** The system calls of the echo servers, acting on the network state in place. */
module SystemCalls {
  import opened Prelude
  import opened Connections

  class Kernel {
    var net: Net

    constructor ()
      ensures net == Net(map[], {}, 0)
    {
      net := Net(map[], {}, 0);
    }

    /** read(): fills a prefix of the buffer and leaves the rest of it as it was. */
    method Read(fd: int, buffer: array<Byte>, reply: ReadReply) returns (n: int)
      requires reply.Data? ==> |reply.bytes| <= buffer.Length
      modifies this, buffer
      ensures net == ReadFrom(old(net), fd, reply)
      ensures match Answer(old(net), fd, reply)
              case Data(b) => n == |b| && buffer[..n] == b
              case Eof => n == 0
              case Fail => n == -1
      ensures forall k :: 0 <= k < buffer.Length && n <= k ==> buffer[k] == old(buffer[k])
    {
      match Answer(net, fd, reply) {
        case Data(b) =>
          n := |b|;
          for k := 0 to n
            modifies buffer
            invariant forall j :: 0 <= j < k ==> buffer[j] == b[j]
            invariant forall j :: k <= j < buffer.Length ==> buffer[j] == old(buffer[j])
          {
            buffer[k] := b[k];
          }
        case Eof => n := 0;
        case Fail => n := -1;
      }
      net := ReadFrom(net, fd, reply);
    }

    /**
     * write() of the first n bytes of the buffer, of which `written` are taken: the
     * client's echo grows by just these, and no other connection notices.
     */
    method Write(fd: int, buffer: array<Byte>, n: nat, written: int) returns (w: int)
      requires n <= buffer.Length
      modifies this
      ensures w == written
      ensures net == WriteTo(old(net), fd, buffer[..Transferred(written, n)])
      ensures net.open.Keys == old(net).open.Keys && net.finished == old(net).finished
      ensures fd in net.open ==>
                && (0 <= written <= n ==> net.open[fd].echoed == old(net).open[fd].echoed + buffer[..n][..written])
                && (written < 0 ==> net.open[fd].echoed == old(net).open[fd].echoed)
                && net.open[fd].taken == old(net).open[fd].taken && net.open[fd].sent == old(net).open[fd].sent
      ensures forall other :: other in net.open && other != fd ==> net.open[other] == old(net).open[other]
    {
      w := written;
      net := WriteTo(net, fd, buffer[..Transferred(written, n)]);
      assert buffer[..n][..Transferred(written, n)] == buffer[..Transferred(written, n)];
    }

    method Close(fd: int)
      modifies this
      ensures net == CloseFd(old(net), fd)
    {
      net := CloseFd(net, fd);
    }

    method Accept(fd: int, sent: seq<Byte>, fin: bool)
      modifies this
      ensures net == AcceptAs(old(net), fd, sent, fin)
    {
      net := AcceptAs(net, fd, sent, fin);
    }
  }
}
