// The sender of examples/tcp/tcp-large-transfer.cc: it writes an endless a..z pattern from a fixed
// buffer into a socket that may accept part of a write or refuse it, and goes on in a callback.
module LargeTransfer {

  const TOTAL_TX_BYTES: nat := 2000000
  const WRITE_SIZE: nat := 1040

  type Byte = b: int | 0 <= b < 256

  /** Byte number p of the endless stream abc...zabc... */
  function Letter(p: nat): Byte {
    97 + p % 26
  }

  function Stream(n: nat): (s: seq<Byte>)
    ensures |s| == n && forall p: nat | p < n :: s[p] == Letter(p)
  {
    seq(n, p requires 0 <= p => Letter(p))
  }

  /** The stream is the alphabet, again and again. */
  lemma Alphabet(p: nat)
    ensures Letter(0) == 'a' as int
    ensures Letter(p + 1) as int == if Letter(p) as int == 'z' as int then 'a' as int else Letter(p) as int + 1
  {
  }

  /** A buffer of w letters repeats seamlessly exactly when the alphabet divides its size. */
  lemma UnsplicedIff(w: nat)
    requires w > 0
    ensures (forall p: nat :: Letter(p % w) == Letter(p)) <==> w % 26 == 0
  {
    if w % 26 == 0 {
      forall p: nat ensures Letter(p % w) == Letter(p) { ModMod(p, w, w / 26); }
    } else {
      assert Letter(w % w) != Letter(w);
    }
  }

  lemma DivMod(p: nat, w: nat) returns (q: nat, r: nat)
    requires w > 0
    ensures p == q * w + r && r == p % w
  {
    q, r := p / w, p % w;
  }

  lemma ModMod(p: nat, w: nat, k: nat)
    requires k > 0 && w == 26 * k
    ensures p % w % 26 == p % 26
  {
    var q, r := DivMod(p, w);
    var m: nat := q * k;
    assert q * w == 26 * m;
    ModAdd(r, m);
  }

  lemma {:induction false} ModAdd(a: nat, m: nat)
    ensures (a + 26 * m) % 26 == a % 26
  {
    if m > 0 { ModAdd(a, m - 1); }
  }

  /** Continuing from position c with the bytes at c % WRITE_SIZE in the buffer continues the stream. */
  lemma StreamContinues(data: seq<Byte>, c: nat, k: nat)
    requires data == Stream(WRITE_SIZE) && c % WRITE_SIZE + k <= WRITE_SIZE
    ensures var o := c % WRITE_SIZE; Stream(c) + data[o..o + k] == Stream(c + k)
  {
    UnsplicedIff(WRITE_SIZE);
    var o := c % WRITE_SIZE;
    var chunk := data[o..o + k];
    forall i: nat | i < k ensures chunk[i] == Letter(c + i) {
      assert chunk[i] == Letter(o + i);
      SameRemainder(c, o, i);
    }
  }

  lemma SameRemainder(c: nat, o: nat, i: nat)
    requires Letter(o) == Letter(c)
    ensures Letter(o + i) == Letter(c + i)
  {
    var q, r := DivMod(o, 26);
    var p, t := DivMod(c, 26);
    ModAdd(r + i, q);
    ModAdd(r + i, p);
    assert o + i == (r + i) + 26 * q && c + i == (r + i) + 26 * p;
  }

  /** What the network does, for each callback and each Send in it: how many bytes it would accept, none of
      them being a refusal, and how much space the buffer has before that Send.  Callback 0 is the start. */
  datatype Network = Network(accepts: (nat, nat) -> nat, space: (nat, nat) -> nat) {
    /** A callback that finds space and whose first Send is not refused. */
    predicate Productive(k: nat) {
      space(k, 0) > 0 && accepts(k, 0) > 0
    }

    function ProductiveBelow(n: nat): nat {
      if n == 0 then 0 else ProductiveBelow(n - 1) + if Productive(n - 1) then 1 else 0
    }
  }

  /** A socket seen from its owner. */
  class Socket {
    const net: Network
    var accepted: seq<Byte>
    var closed: bool
    var callback: nat          // the number of the current callback
    var sends: nat             // the number of Sends in it
    ghost var refused: bool    // the last Send returned -1

    constructor (net: Network)
      ensures this.net == net && accepted == [] && !closed && callback == 0 && sends == 0
    {
      this.net := net;
      accepted, closed, callback, sends, refused := [], false, 0, 0, false;
    }

    function TxAvailable(): nat
      reads this
    {
      net.space(callback, sends)
    }

    method GetTxAvailable() returns (n: nat)
      ensures n == TxAvailable()
    {
      n := net.space(callback, sends);
    }

    /** -1, or a positive number of bytes that were taken over. */
    method Send(data: array<Byte>, offset: nat, size: nat) returns (sent: int)
      requires 0 < size && offset + size <= data.Length
      modifies this`accepted, this`sends, this`refused
      ensures sent == -1 || 1 <= sent <= size
      ensures sent == -1 <==> net.accepts(callback, old(sends)) == 0
      ensures sends == old(sends) + 1 && (refused <==> sent == -1)
      ensures accepted == old(accepted) + if sent < 0 then [] else data[offset..offset + sent]
    {
      var n := net.accepts(callback, sends);
      sent := if n == 0 then -1 else if n < size then n else size;
      refused := n == 0;
      if sent > 0 {
        accepted := accepted + data[offset..offset + sent];
      }
      sends := sends + 1;
    }

    method Close()
      modifies this`closed
      ensures closed
    {
      closed := true;
    }

    /** Time passes until the next callback. */
    method NextCallback()
      modifies this`callback, this`sends
      ensures callback == old(callback) + 1 && sends == 0
    {
      callback, sends := callback + 1, 0;
    }
  }

  class Sender {
    const data: array<Byte>
    const socket: Socket
    var currentTxBytes: nat

    /** The socket has accepted exactly the first currentTxBytes of the stream, and is closed
        exactly when these are all. */
    ghost predicate Valid()
      reads this, data, socket
    {
      && data[..] == Stream(WRITE_SIZE)
      && currentTxBytes <= TOTAL_TX_BYTES
      && socket.accepted == Stream(currentTxBytes)
      && (socket.closed ==> currentTxBytes == TOTAL_TX_BYTES)
    }

    /** The initialisation of the buffer in main. */
    constructor (localSocket: Socket)
      requires localSocket.accepted == [] && !localSocket.closed
      ensures Valid() && socket == localSocket && fresh(data) && currentTxBytes == 0
      ensures localSocket.callback == old(localSocket.callback) && localSocket.sends == old(localSocket.sends)
    {
      data := new Byte[WRITE_SIZE];
      socket := localSocket;
      currentTxBytes := 0;
      new;
      for i := 0 to WRITE_SIZE
        invariant forall k: nat | k < i :: data[k] == Letter(k)
        invariant socket.accepted == [] && !socket.closed && currentTxBytes == 0
      {
        data[i] := 97 + i % 26;
      }
    }

    /** The bytes to offer next: the rest of the buffer, of the transfer, or of the space in the socket. */
    method NextChunk() returns (dataOffset: nat, toWrite: nat)
      requires data.Length == WRITE_SIZE && currentTxBytes < TOTAL_TX_BYTES && socket.TxAvailable() > 0
      ensures dataOffset == currentTxBytes % WRITE_SIZE && dataOffset + toWrite <= WRITE_SIZE
      ensures 0 < toWrite && currentTxBytes + toWrite <= TOTAL_TX_BYTES
    {
      var left := TOTAL_TX_BYTES - currentTxBytes;
      dataOffset := currentTxBytes % WRITE_SIZE;
      toWrite := WRITE_SIZE - dataOffset;
      toWrite := if left < toWrite then left else toWrite;
      var available := socket.GetTxAvailable();
      toWrite := if available < toWrite then available else toWrite;
    }

    lemma ChunkContinues(c: nat, o: nat, k: nat)
      requires data[..] == Stream(WRITE_SIZE) && o == c % WRITE_SIZE && o + k <= WRITE_SIZE
      ensures Stream(c) + data[o..o + k] == Stream(c + k)
    {
      StreamContinues(data[..], c, k);
      assert data[..][o..o + k] == data[o..o + k];
    }

    /** It gives up only when everything is sent, the buffer is full, or a Send was refused. */
    method WriteUntilBufferFull(txSpace: nat)
      requires Valid()
      modifies this, socket
      ensures Valid() && data[..] == old(data[..])
      ensures old(currentTxBytes) <= currentTxBytes
      ensures currentTxBytes == TOTAL_TX_BYTES || socket.TxAvailable() == 0 || socket.refused
      ensures socket.callback == old(socket.callback)
      ensures old(socket.sends) == 0 && socket.net.Productive(socket.callback) ==>
                currentTxBytes > old(currentTxBytes) || currentTxBytes == TOTAL_TX_BYTES
      ensures socket.closed <==> currentTxBytes == TOTAL_TX_BYTES
    {
      socket.refused := false;
      var available := socket.GetTxAvailable();
      while currentTxBytes < TOTAL_TX_BYTES && available > 0
        invariant Valid() && old(currentTxBytes) <= currentTxBytes
        invariant available == socket.TxAvailable() && socket.closed == old(socket.closed)
        invariant socket.callback == old(socket.callback)
        invariant currentTxBytes == old(currentTxBytes) ==> socket.sends == old(socket.sends)
        decreases TOTAL_TX_BYTES - currentTxBytes
      {
        var dataOffset, toWrite := NextChunk();
        var amountSent := socket.Send(data, dataOffset, toWrite);
        if amountSent < 0 {
          // called again when there is new space
          return;
        }
        ChunkContinues(currentTxBytes, dataOffset, amountSent);
        currentTxBytes := currentTxBytes + amountSent;
        available := socket.GetTxAvailable();
      }
      if currentTxBytes >= TOTAL_TX_BYTES {
        socket.Close();
      }
    }

    method StartFlow()
      requires Valid()
      modifies this, socket
      ensures Valid() && (socket.closed <==> currentTxBytes == TOTAL_TX_BYTES)
      ensures socket.callback == old(socket.callback)
      ensures old(socket.sends) == 0 && socket.net.Productive(socket.callback) ==>
                currentTxBytes > old(currentTxBytes) || currentTxBytes == TOTAL_TX_BYTES
    {
      var space := socket.GetTxAvailable();
      WriteUntilBufferFull(space);
    }
  }

  lemma {:induction false} AllProductive(net: Network, n: nat)
    requires forall k: nat | k < n :: net.Productive(k)
    ensures net.ProductiveBelow(n) == n
  {
    if n > 0 { AllProductive(net, n - 1); }
  }

  /** A whole flow over any network: the start, and a number of callbacks.  At its end the receiver's side of
      the socket holds a prefix of the stream, with a byte at least for every callback that found space and
      was not refused at once, and the socket is closed exactly when it holds all of the stream. */
  method Flow(callbacks: nat, net: Network) returns (received: seq<Byte>, closed: bool)
    ensures |received| <= TOTAL_TX_BYTES && received == Stream(|received|)
    ensures closed <==> |received| == TOTAL_TX_BYTES
    ensures |received| >= net.ProductiveBelow(callbacks + 1) || closed
    ensures callbacks + 1 >= TOTAL_TX_BYTES && (forall k: nat | k <= callbacks :: net.Productive(k)) ==> closed
  {
    var socket := new Socket(net);
    var sender := new Sender(socket);
    sender.StartFlow();
    for i := 0 to callbacks
      invariant sender.Valid() && sender.socket == socket && socket.net == net && socket.callback == i
      invariant socket.closed <==> sender.currentTxBytes == TOTAL_TX_BYTES
      invariant sender.currentTxBytes >= net.ProductiveBelow(i + 1) || sender.currentTxBytes == TOTAL_TX_BYTES
    {
      socket.NextCallback();
      var space := socket.GetTxAvailable();
      sender.WriteUntilBufferFull(space);
    }
    received, closed := socket.accepted, socket.closed;
    assert (forall k: nat | k <= callbacks :: net.Productive(k)) ==> net.ProductiveBelow(callbacks + 1) == callbacks + 1 by {
      if forall k: nat | k <= callbacks :: net.Productive(k) {
        AllProductive(net, callbacks + 1);
      }
    }
  }
}
