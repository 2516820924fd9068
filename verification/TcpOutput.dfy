/** The output side of a TCP connection: `TcpConnection::send`, `flush`, `onConnected` and `onWrite`
    (core/tcp_connection.cpp), the interest masks of `Socket::select` (core/handler.cpp) and their registration by
    `Selector_epoll::select` (core/selector_epoll.cpp).

    What the kernel does with a `send` system call is a parameter of each operation; `wire` records the bytes it took
    and `accepted` those that `send` accepted from the application. */
module TcpOutput {
  import opened ByteBuffers
  import opened Wire

  /** The two event bits of a mask that a TCP connection uses; SEL_ALL is both. */
  datatype Mask = Mask(read: bool, write: bool) {
    /** The mask as the integer the code computes with: SEL_READ is 1, SEL_WRITE is 2. */
    function Bits(): (n: nat) {
      (if read then 1 else 0) + (if write then 2 else 0)
    }

    function Minus(m: Mask): Mask {
      Mask(read && !m.read, write && !m.write)
    }

    function Plus(m: Mask): Mask {
      Mask(read || m.read, write || m.write)
    }

    function And(m: Mask): Mask {
      Mask(read && m.read, write && m.write)
    }
  }

  const NONE := Mask(false, false)
  const READ := Mask(true, false)
  const WRITE := Mask(false, true)
  const RW := Mask(true, true)

  datatype Status = Connecting | Established | Disconnected

  /** A `send` system call: it takes some bytes (none when it would block), or fails with an exception. */
  datatype Kernel = Took(n: nat) | Fails

  datatype Result = Done(pending: nat) | SocketError | BufferFull

  // ---------------------------------------------------------------------------------------------
  // Interest masks

  /** What `Socket::select` really removes and adds, given what is selected and what is shut down. */
  function Removed(selevent: Mask, remove: Mask, add: Mask): (r: Mask) {
    remove.Minus(add).And(selevent)
  }

  function Added(selevent: Mask, add: Mask): (r: Mask) {
    add.Minus(selevent)
  }

  function Allowed(add: Mask, noSend: bool, noReceive: bool): (r: Mask) {
    var a := if noSend then add.Minus(WRITE) else add;
    if noReceive then a.Minus(READ) else a
  }

  /** The selected events afterwards. */
  function Selected(selevent: Mask, remove: Mask, add: Mask): (r: Mask) {
    selevent.Minus(Removed(selevent, remove, add)).Plus(Added(selevent, add))
  }

  /** The mask given to epoll: a first registration always asks for input. */
  function EpollMask(known: bool, selevent: Mask, remove: Mask, add: Mask): (r: Mask) {
    if known then selevent.Minus(remove).Plus(add) else READ.Plus(add.And(WRITE))
  }

  /** Adding wins over removing; the test `remove + add != SEL_NONE` asks whether anything changes; and when it does,
      epoll is told what is selected, unless a first registration leaves input out. */
  lemma SelectArithmetic(known: bool, selevent: Mask, remove: Mask, add: Mask)
    ensures var r, a := Removed(selevent, remove, add), Added(selevent, add);
            && Selected(selevent, remove, add) == add.Plus(selevent.Minus(remove))
            && (r.Bits() + a.Bits() == 0 <==> Selected(selevent, remove, add) == selevent)
            && (known || selevent == NONE ==>
                  (EpollMask(known, selevent, r, a) == Selected(selevent, remove, add) <==> known || add.read))
  {
  }

  // ---------------------------------------------------------------------------------------------
  // The connection

  lemma SplitStream(before: seq<Byte>, dat: seq<Byte>, n: nat)
    requires n <= |dat|
    ensures (before + dat[..n]) + dat[n..] == before + dat
    ensures n == |dat| ==> dat[n..] == [] && (before + dat[..n]) + [] == before + dat
  {
  }

  lemma Moved(wire: seq<Byte>, c: seq<Byte>, n: nat)
    requires n <= |c|
    ensures wire + c[..n] + c[n..] == wire + c && (n == 0 ==> c[n..] == c)
  {
    assert c == c[..n] + c[n..];
  }

  /** What `send` buffers when the kernel took `n` bytes of `dat`, whose size it compares as an `int`. */
  function Rest(dat: seq<Byte>, n: nat): (r: seq<Byte>)
    requires n <= |dat|
  {
    if n < AsInt(|dat|) then dat[n..] else []
  }

  class TcpConnection {
    const output: ByteBuffer
    var status: Status
    var connected: bool
    var noSend: bool
    var noReceive: bool
    var selevent: Mask
    var selected: bool
    /** The selector's side: whether it has the socket, and the mask it last gave to epoll. */
    var known: bool
    var mask: Mask
    var sendBytes: nat
    var sentBytes: nat
    ghost var wire: seq<Byte>
    ghost var accepted: seq<Byte>

    /** The bytes the kernel took followed by the buffered ones are all bytes accepted, in order. */
    ghost predicate StreamOk()
      reads this, output, output.data
    {
      && output.Valid() && output.Fits32()
      && wire + output.Contents() == accepted
      && sendBytes == |accepted| && sentBytes == |wire|
    }

    /** Epoll watches what is selected. */
    ghost predicate Watched()
      reads this
    {
      known && selected && mask == selevent
    }

    /** Nothing is selected yet and the selector does not know the socket. */
    ghost predicate Unregistered()
      reads this
    {
      !known && !selected && selevent == NONE
    }

    /** An established connection waits for writability exactly when it has something to write. */
    ghost predicate InterestOk()
      reads this, output, output.data
    {
      && (status == Established ==>
            && connected && Watched() && !noSend && !noReceive
            && selevent == if output.head < output.tail then RW else READ)
      && (status == Connecting ==> !connected && Watched() && !noSend && !noReceive && selevent == RW)
    }

    ghost predicate Valid()
      reads this, output, output.data
    {
      StreamOk() && InterestOk()
    }

    /** An accepted socket: established, watching for input. */
    constructor Accept()
      ensures Valid() && status == Established && fresh(output) && fresh(output.data) && accepted == []
      ensures output.Contents() == [] && output.data.Length == STACK && output.limit == LIMIT
    {
      output := new ByteBuffer(true);
      status, connected, noSend, noReceive := Established, true, false, false;
      selevent, selected, known, mask := NONE, false, false, NONE;
      sendBytes, sentBytes, wire, accepted := 0, 0, [], [];
      new;
      Select(NONE, READ);
    }

    /** A connecting socket: waits for input and output until the kernel reports, or is established at once if the
        connect succeeded immediately. */
    constructor Connect(immediately: bool)
      ensures Valid() && fresh(output) && fresh(output.data) && accepted == []
      ensures status == if immediately then Established else Connecting
    {
      output := new ByteBuffer(true);
      status, connected, noSend, noReceive := Connecting, immediately, false, false;
      selevent, selected, known, mask := NONE, false, false, NONE;
      sendBytes, sentBytes, wire, accepted := 0, 0, [], [];
      new;
      if immediately {
        OnConnected(true, Took(0));
      } else {
        Select(NONE, RW);
      }
    }

    /** `Socket::select` and what the selector does with it: nothing if nothing changes, and otherwise a registration or
        a modification in epoll. Epoll then watches what is selected, unless a first registration leaves input out. */
    method Select(remove: Mask, add: Mask)
      modifies this`selevent, this`selected, this`known, this`mask
      ensures selevent == Selected(old(selevent), remove, Allowed(add, noSend, noReceive))
      ensures selevent == old(selevent) ==> selected == old(selected) && known == old(known) && mask == old(mask)
      ensures selevent != old(selevent) ==>
                var a := Allowed(add, noSend, noReceive);
                && known && selected
                && mask == EpollMask(old(known), old(selevent), Removed(old(selevent), remove, a),
                                     Added(old(selevent), a))
      ensures old(Watched() || (Unregistered() && Allowed(add, noSend, noReceive).read)) ==> Watched()
    {
      var a := Allowed(add, noSend, noReceive);
      var rm, ad := Removed(selevent, remove, a), Added(selevent, a);
      SelectArithmetic(known, selevent, remove, a);
      if rm.Bits() + ad.Bits() != NONE.Bits() {
        mask, known := EpollMask(known, selevent, rm, ad), true;
        selevent, selected := selevent.Minus(rm).Plus(ad), true;
      }
    }

    /** The kernel is tried directly. */
    ghost predicate Direct()
      requires output.head <= output.tail <= output.data.Length
      reads this, output, output.data
    {
      connected && output.Contents() == []
    }

    /** `send` of `size` bytes of which the kernel takes `n` at once meets the buffer's limit with the rest. A size that
        is negative as an `int` leaves no rest. */
    ghost predicate Overflows(size: nat, n: nat)
      requires output.head <= output.tail <= output.data.Length
      reads this, output, output.data
    {
      if Direct() then n < AsInt(size) && output.TooMuch(size - n) else output.TooMuch(size)
    }

    /** The accounting loses bytes: some were taken when the limit struck, or a size beyond `int` was not taken
        whole. */
    ghost predicate Loses(size: nat, n: nat)
      requires output.head <= output.tail <= output.data.Length
      reads this, output, output.data
    {
      Direct() && if Overflows(size, n) then 0 < n else AsInt(size) <= n < size
    }

    /** Accepts `dat`: as much as possible goes to the kernel at once if nothing is waiting, the rest is buffered and
        write interest added. */
    method Send(dat: seq<Byte>, k: Kernel) returns (r: Result)
      requires Valid() && status != Disconnected && |dat| < WORD && (k.Took? ==> k.n <= |dat|)
      modifies this, output, output.data
      ensures output.Valid() && (output.data == old(output.data) || fresh(output.data)) && status == old(status)
      ensures r == SocketError <==> old(Direct()) && k.Fails?
      ensures r == BufferFull <==> r != SocketError && old(Overflows(|dat|, if k.Took? then k.n else 0))
      ensures r.Done? ==> accepted == old(accepted) + dat && r.pending == |output.Contents()|
      ensures r.Done? ==>
                output.Contents() == old(output.Contents()) + if old(Direct()) then Rest(dat, k.n) else dat
      ensures !r.Done? ==> accepted == old(accepted) && output.Contents() == old(output.Contents())
      ensures wire == old(wire) + if old(Direct()) && k.Took? then dat[..k.n] else []
      ensures Valid() <==> !(k.Took? && old(Loses(|dat|, k.n)))
    {
      if connected && output.Size() == 0 {
        if k.Fails? {
          return SocketError;
        }
        r := SendNow(dat, k.n);
      } else {
        r := SendLater(dat);
      }
    }

    /** Nothing is waiting: the kernel takes `n` bytes, the rest is buffered. */
    method SendNow(dat: seq<Byte>, n: nat) returns (r: Result)
      requires Valid() && status == Established && output.Contents() == [] && n <= |dat| < WORD
      modifies this, output, output.data
      ensures output.Valid() && (output.data == old(output.data) || fresh(output.data)) && status == old(status)
      ensures connected && r != SocketError && wire == old(wire) + dat[..n]
      ensures r == BufferFull <==> n < AsInt(|dat|) && old(output.TooMuch(|dat| - n))
      ensures r.Done? ==> accepted == old(accepted) + dat && r.pending == |output.Contents()|
      ensures r.Done? ==> output.Contents() == Rest(dat, n)
      ensures r == BufferFull ==> output.Contents() == [] && accepted == old(accepted)
      ensures Valid() <==> if r == BufferFull then n == 0 else n < AsInt(|dat|) || n == |dat|
    {
      assert wire == accepted by {
        assert wire + [] == wire;
      }
      SplitStream(accepted, dat, n);
      wire := wire + dat[..n];
      if n < AsInt(|dat|) {
        var o := BufferRest(dat[n..]);
        if o == LimitExceeded {
          assert |wire| == sentBytes + n;
          return BufferFull;
        }
      }
      Account(dat, n);
      r := Done(output.Size());
    }

    /** What the kernel did not take goes into the empty buffer, and write interest is added. */
    method BufferRest(rest: seq<Byte>) returns (o: Outcome)
      requires output.Valid() && output.Fits32() && output.Contents() == [] && Watched() && !noSend && !noReceive
      requires selevent == READ
      modifies this`selevent, this`selected, this`known, this`mask, output, output.data
      ensures output.Valid() && output.Fits32() && (output.data == old(output.data) || fresh(output.data)) && Watched()
      ensures o == LimitExceeded <==> old(output.TooMuch(|rest|))
      ensures output.Contents() == if o == Ok then rest else []
      ensures selevent == if o == Ok then RW else READ
    {
      o := output.Write(rest);
      if o == Ok {
        Select(NONE, WRITE);
      }
    }

    /** The counters after `send`. */
    method Account(dat: seq<Byte>, n: nat)
      requires output.Valid() && output.Fits32() && sendBytes == |accepted| && sentBytes + n == |wire| && n <= |dat|
      modifies this`accepted, this`sendBytes, this`sentBytes
      ensures accepted == old(accepted) + dat
      ensures StreamOk() <==> wire + output.Contents() == accepted
      ensures |wire| + |output.Contents()| != |accepted| ==> !StreamOk()
    {
      accepted, sendBytes, sentBytes := accepted + dat, sendBytes + |dat|, sentBytes + n;
    }

    /** Not connected yet, or older bytes are waiting: everything is buffered. */
    method SendLater(dat: seq<Byte>) returns (r: Result)
      requires Valid() && (status == Connecting || (status == Established && output.Contents() != []))
      modifies this, output, output.data
      ensures Valid() && (output.data == old(output.data) || fresh(output.data)) && status == old(status)
      ensures connected == old(connected) && r != SocketError && wire == old(wire)
      ensures r == BufferFull <==> old(output.TooMuch(|dat|))
      ensures r.Done? ==> accepted == old(accepted) + dat && r.pending == |output.Contents()|
      ensures r.Done? ==> output.Contents() == old(output.Contents()) + dat
      ensures r == BufferFull ==> output.Contents() == old(output.Contents()) && accepted == old(accepted)
    {
      var o := BufferMore(dat);
      if o == LimitExceeded {
        return BufferFull;
      }
      StreamGrows(dat);
      Account(dat, 0);
      r := Done(output.Size());
    }

    /** Everything goes behind what is waiting. */
    method BufferMore(dat: seq<Byte>) returns (o: Outcome)
      requires output.Valid() && output.Fits32()
      modifies output, output.data
      ensures output.Valid() && output.Fits32() && (output.data == old(output.data) || fresh(output.data))
      ensures o == LimitExceeded <==> old(output.TooMuch(|dat|))
      ensures output.Contents() == if o == Ok then old(output.Contents()) + dat else old(output.Contents())
    {
      o := Ok;
      if |dat| > 0 {
        o := output.Write(dat);
      }
    }

    twostate lemma StreamGrows(dat: seq<Byte>)
      requires output.head <= output.tail <= output.data.Length && old(StreamOk()) && wire == old(wire)
      requires accepted == old(accepted) && output.Contents() == old(output.Contents()) + dat
      ensures wire + output.Contents() == accepted + dat
    {
      assert wire + (old(output.Contents()) + dat) == wire + old(output.Contents()) + dat;
    }

    /** The size that `flush` passes to the kernel as an `int` is the size. */
    lemma PendingIsInt()
      requires StreamOk()
      ensures AsInt(|output.Contents()|) == |output.Contents()|
    {
    }

    /** Pushes buffered bytes to the kernel, and drops write interest with the last of them. */
    method Flush(k: Kernel) returns (r: Result)
      requires StreamOk() && (Watched() || Unregistered()) && (k.Took? ==> k.n <= |output.Contents()|)
      modifies this`wire, this`sentBytes, this`selevent, this`selected, this`known, this`mask, output
      ensures StreamOk() && (if old(Watched()) then Watched() else Unregistered()) && output.data == old(output.data)
      ensures r == SocketError <==> old(output.Contents()) != [] && k.Fails?
      ensures r != BufferFull && (r == SocketError ==> selevent == old(selevent))
      ensures r.Done? ==> r.pending == |output.Contents()|
      ensures wire == old(wire) + if k.Took? then old(output.Contents())[..k.n] else []
      ensures r.Done? ==>
                selevent == if old(output.Contents()) != [] && output.Contents() == [] then old(selevent).Minus(WRITE)
                            else old(selevent)
    {
      assert wire + [] == wire;
      if output.Size() == 0 {
        return Done(0);
      }
      if k.Fails? {
        return SocketError;
      }
      FlushSome(k.n);
      r := Done(output.Size());
    }

    method FlushSome(n: nat)
      requires StreamOk() && (Watched() || Unregistered()) && n <= |output.Contents()|
      modifies this`wire, this`sentBytes, this`selevent, this`selected, this`known, this`mask, output
      ensures StreamOk() && (if old(Watched()) then Watched() else Unregistered()) && output.data == old(output.data)
      ensures output.Contents() == old(output.Contents())[n..] && wire == old(wire) + old(output.Contents())[..n]
      ensures selevent == if output.Contents() == [] then old(selevent).Minus(WRITE) else old(selevent)
    {
      Drain(n);
      if output.Size() == 0 {
        Select(WRITE, NONE);
      }
    }

    /** The kernel took the first `n` buffered bytes. */
    method Drain(n: nat)
      requires StreamOk() && n <= |output.Contents()|
      modifies this`wire, this`sentBytes, output
      ensures StreamOk() && output.data == old(output.data)
      ensures output.Contents() == old(output.Contents())[n..] && wire == old(wire) + old(output.Contents())[..n]
    {
      ghost var c := output.Contents();
      Moved(wire, c, n);
      wire := wire + c[..n];
      if n > 0 {
        var erased := output.Erase(n);
      }
      sentBytes := sentBytes + n;
    }

    /** The socket is writable: flush, or close on error. */
    method OnWrite(k: Kernel)
      requires Valid() && status == Established && (k.Took? ==> k.n <= |output.Contents()|)
      modifies this, output
      ensures Valid() && accepted == old(accepted)
      ensures status == if old(output.Contents()) != [] && k.Fails? then Disconnected else Established
    {
      var r := Flush(k);
      if r == SocketError {
        Close();
      }
    }

    /** The connect came to an end, at once or later: on success flush what was queued and settle the interest mask. */
    method OnConnected(success: bool, k: Kernel)
      requires StreamOk() && status == Connecting && !noSend && !noReceive && (connected ==> success)
      requires (Watched() && selevent == RW) || Unregistered()
      requires k.Took? ==> k.n <= |output.Contents()|
      modifies this, output
      ensures Valid() && accepted == old(accepted) && output.data == old(output.data)
      ensures status == if success && (old(output.Contents()) == [] || k.Took?) then Established else Disconnected
    {
      if !success {
        Close();
        return;
      }
      connected, status := true, Established;
      var r := Flush(k);
      if r == SocketError {
        Close();
        return;
      }
      Select(RW, if r.pending == 0 then READ else RW);
    }

    /** `handleOnClose`: the selector forgets the socket. */
    method Close()
      requires StreamOk()
      modifies this`status, this`selected, this`known
      ensures Valid() && status == Disconnected
    {
      status := Disconnected;
      if selected {
        known := false;
        selected := false;
      }
    }
  }

  /** Two sends that lose bytes: one that meets the limit after a byte was taken, and one of 2^31 bytes. */
  method BytesLost() returns (full: TcpConnection, huge: TcpConnection)
    ensures full.output.Valid() && huge.output.Valid() && full.output.Contents() == huge.output.Contents() == []
    ensures !full.Valid() && full.wire == [0] && full.accepted == []
    ensures !huge.Valid() && huge.wire == [] && |huge.accepted| == 0x8000_0000
  {
    full := new TcpConnection.Accept();
    var dat := seq(LIMIT + 2, i => 0);
    var r := full.Send(dat, Took(1));
    assert dat[..1] == [0];
    huge := new TcpConnection.Accept();
    r := huge.Send(seq(0x8000_0000, i => 0), Took(0));
  }
}
