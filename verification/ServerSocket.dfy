/** The socket of a server connection: what the response pipeline takes from a socket is what the socket of
    include/libnode/detail/net/socket.h does, once it is open. */
module ServerSocket {
  import Http = HttpOutgoing
  import Net = NetSocket
  import opened Wrappers

  function Joined(bufs: seq<Net.Bytes>): Net.Bytes {
    if bufs == [] then "" else Joined(bufs[..|bufs| - 1]) + bufs[|bufs| - 1]
  }

  /** The pipeline's socket shows the state of the net socket: its handle, whether it can be written to, and
      the bytes that the handle took. */
  ghost predicate Mirrors(h: Http.Socket, n: Net.Socket)
    reads h, n
  {
    && h.Valid() && n.Valid() && Net.Connecting !in n.flags
    && h.handle == n.handle && h.writable == (Net.Writable in n.flags)
    && (h.handle ==> h.failsAfter == n.failsAfter)
    && h.wire == Joined(n.taken)
  }

  /** An accepted socket. */
  method Accept(failsAfter: Option<nat>, shutdownFails: bool, removeListener: bool)
    returns (h: Http.Socket, n: Net.Socket)
    ensures fresh(h) && fresh(n) && Mirrors(h, n) && h.httpMessage == null
  {
    n := new Net.Socket(true, false, failsAfter, shutdownFails, removeListener);
    n.Open();
    h := new Http.Socket(failsAfter);
  }

  /** A write goes out on both or is refused by both, and then neither can be written to. */
  method Write(h: Http.Socket, n: Net.Socket, data: Net.Bytes) returns (ok: bool)
    requires Mirrors(h, n)
    modifies h, n
    ensures Mirrors(h, n) && h.httpMessage == old(h.httpMessage)
    ensures ok == (old(n.handle) && old(n.failsAfter) != Some(0))
    ensures h.wire == old(h.wire) + if ok then data else ""
  {
    hide Net.Total;
    assert (n.taken + [data])[..|n.taken|] == n.taken;
    var there := n.Write(data, false);
    ok := h.Write(data);
  }

  method Destroy(h: Http.Socket, n: Net.Socket)
    requires Mirrors(h, n)
    modifies h, n
    ensures Mirrors(h, n) && h.wire == old(h.wire) && !n.handle
  {
    hide Net.Total;
    var _ := n.Kill(false, false);
    h.Destroy();
  }
}
