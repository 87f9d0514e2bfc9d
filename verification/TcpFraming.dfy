/**
 Length-prefixed messages over a byte stream that hands its bytes over in pieces of any size. What the
 peer wrote and has not been read is `incoming`; after it, the stream ends.
 */
module TcpFraming {
  import opened Bytes
  import opened Wrappers

  type Msg = seq<byte>

  datatype Error = ConnectionClosed

  // The length is cast to 32 bits and written in network order.
  function Framed(msg: Msg): seq<byte> { ToBe(|msg|, 4) + msg }

  function Stream(msgs: seq<Msg>): seq<byte> {
    if msgs == [] then [] else Framed(msgs[0]) + Stream(msgs[1..])
  }

  // One message off the stream and what is left of it; a stream that ends early is used up.
  function Recv(stream: seq<byte>): (r: (Result<Msg, Error>, seq<byte>))
    ensures r.0.Ok? ==> |r.1| < |stream|
  {
    if |stream| < 4 then (Err(ConnectionClosed), [])
    else
      var len := FromBe(stream[..4]);
      if |stream| - 4 < len then (Err(ConnectionClosed), [])
      else (Ok(stream[4..4 + len]), stream[4 + len..])
  }

  // What repeated receiving gives before its first error.
  function Messages(stream: seq<byte>): seq<Msg>
    decreases |stream|
  {
    var (r, rest) := Recv(stream);
    match r
    case Ok(msg) => [msg] + Messages(rest)
    case Err(_) => []
  }

  class TcpConn {
    var incoming: seq<byte>
    var outgoing: seq<byte>

    constructor (incoming: seq<byte>)
      ensures this.incoming == incoming && outgoing == []
    {
      this.incoming, outgoing := incoming, [];
    }

    // A short read: any positive number of bytes that are there and fit, and none only when there is
    // nothing to read or no room.
    method Read(buf: array<byte>, from: nat) returns (n: nat)
      requires from <= buf.Length
      modifies this`incoming, buf
      ensures n <= buf.Length - from && n <= |old(incoming)|
      ensures n == 0 <==> from == buf.Length || old(incoming) == []
      ensures buf[..] == old(buf[..from]) + old(incoming)[..n] + old(buf[from + n..])
      ensures incoming == old(incoming)[n..]
    {
      var most := if buf.Length - from < |incoming| then buf.Length - from else |incoming|;
      if most == 0 {
        return 0;
      }
      n :| 1 <= n <= most;
      forall i | 0 <= i < n {
        buf[from + i] := incoming[i];
      }
      incoming := incoming[n..];
    }

    method ReadExact(buf: array<byte>) returns (r: Result<(), Error>)
      modifies this`incoming, buf
      ensures r.Ok? <==> buf.Length <= |old(incoming)|
      ensures r.Ok? ==> buf[..] == old(incoming)[..buf.Length] && incoming == old(incoming)[buf.Length..]
      ensures r.Err? ==> incoming == []
    {
      var total := 0;
      while total < buf.Length
        invariant 0 <= total <= buf.Length && total <= |old(incoming)|
        invariant buf[..total] == old(incoming)[..total]
        invariant incoming == old(incoming)[total..]
      {
        var n := Read(buf, total);
        if n == 0 {
          return Err(ConnectionClosed);
        }
        assert buf[..total + n] == old(incoming)[..total] + old(incoming)[total..][..n];
        assert old(incoming)[..total + n] == old(incoming)[..total] + old(incoming)[total..][..n];
        assert old(incoming)[total..][n..] == old(incoming)[total + n..];
        total := total + n;
      }
      assert buf[..] == buf[..total];
      return Ok(());
    }

    // However the bytes arrive in pieces, receiving a message is `Recv` of the stream.
    method RecvMsg() returns (r: Result<Msg, Error>)
      modifies this`incoming
      ensures (r, incoming) == Recv(old(incoming))
    {
      var lenBuf := new byte[4];
      var read := ReadExact(lenBuf);
      if read.Err? {
        return Err(ConnectionClosed);
      }
      assert lenBuf[..] == old(incoming)[..4];
      var len := FromBe(lenBuf[..]);
      var data := new byte[len];
      read := ReadExact(data);
      if read.Err? {
        return Err(ConnectionClosed);
      }
      assert old(incoming)[4..][..len] == old(incoming)[4..4 + len];
      assert old(incoming)[4..][len..] == old(incoming)[4 + len..];
      return Ok(data[..]);
    }

    method SendBytes(msg: Msg)
      modifies this`outgoing
      ensures outgoing == old(outgoing) + Framed(msg)
    {
      var buf: seq<byte> := [];
      buf := buf + ToBe(|msg|, 4);
      buf := buf + msg;
      outgoing := outgoing + buf;
    }
  }

  // A message is received as it was sent exactly when its length fits in 32 bits.
  lemma ReceivedIff(msg: Msg, rest: seq<byte>)
    ensures Recv(Framed(msg) + rest) == (Ok(msg), rest) <==> |msg| < U32_LIMIT
  {
    var stream := Framed(msg) + rest;
    assert stream[..4] == ToBe(|msg|, 4);
    BeRoundTrip(|msg|, 4);
    assert Pow256(4) == U32_LIMIT;
    if |msg| < U32_LIMIT {
      assert stream[4..4 + |msg|] == msg && stream[4 + |msg|..] == rest;
    }
  }

  ghost predicate Fit(msgs: seq<Msg>) { forall msg :: msg in msgs ==> |msg| < U32_LIMIT }

  // The whole stream gives back all messages, in order.
  lemma {:induction false} AllReceived(msgs: seq<Msg>)
    requires Fit(msgs)
    ensures Messages(Stream(msgs)) == msgs
  {
    hide Recv, Framed;
    if msgs == [] {
      assert Recv([]).0.Err? by { EmptyStream(); }
    } else {
      ReceivedIff(msgs[0], Stream(msgs[1..]));
      AllReceived(msgs[1..]);
    }
  }

  lemma EmptyStream()
    ensures Recv([]) == (Err(ConnectionClosed), [])
  {}

  lemma ShortStream(msg: Msg, k: nat)
    requires |msg| < U32_LIMIT && k < |Framed(msg)|
    ensures Recv(Framed(msg)[..k]) == (Err(ConnectionClosed), [])
  {
    if k >= 4 {
      BeRoundTrip(|msg|, 4);
      assert Pow256(4) == U32_LIMIT;
      hide ToBe, FromBe, Pow256;
      assert Framed(msg)[..k][..4] == ToBe(|msg|, 4);
    }
  }

  // A stream cut anywhere gives the messages that came through whole, then an error.
  lemma {:induction false} CutStreamGivesPrefix(msgs: seq<Msg>, k: nat) returns (j: nat)
    requires Fit(msgs) && k <= |Stream(msgs)|
    ensures j <= |msgs| && Messages(Stream(msgs)[..k]) == msgs[..j]
    ensures |Stream(msgs[..j])| <= k
    ensures j < |msgs| ==> k < |Stream(msgs[..j + 1])|
  {
    hide Recv, Framed;
    var cut := Stream(msgs)[..k];
    if msgs == [] {
      EmptyStream();
      j := 0;
    } else {
      var first, rest := Framed(msgs[0]), Stream(msgs[1..]);
      assert msgs[..1][1..] == [] && Stream(msgs[..1]) == first + Stream(msgs[..1][1..]);
      if k < |first| {
        assert cut == first[..k];
        ShortStream(msgs[0], k);
        j := 0;
      } else {
        assert cut == first + rest[..k - |first|];
        ReceivedIff(msgs[0], rest[..k - |first|]);
        j := CutStreamGivesPrefix(msgs[1..], k - |first|);
        assert msgs[..j + 1][1..] == msgs[1..][..j];
        assert msgs[..j + 1] == [msgs[0]] + msgs[1..][..j];
        if j + 1 < |msgs| { assert msgs[..j + 2][1..] == msgs[1..][..j + 1]; }
        j := j + 1;
      }
    }
  }

  // A framed message: its length in four bytes, the most significant first, and the message.
  lemma FramedLayout(msg: Msg)
    requires |msg| < U32_LIMIT
    ensures |Framed(msg)| == 4 + |msg| && Framed(msg)[4..] == msg
    ensures var f := Framed(msg);
      f[0] as int * 0x100_0000 + f[1] as int * 0x1_0000 + f[2] as int * 0x100 + f[3] as int == |msg|
  {
    var l := |msg|;
    BeDigit(l, 4, 0);
    BeDigit(l, 4, 1);
    BeDigit(l, 4, 2);
    BeDigit(l, 4, 3);
    assert Pow256(0) == 1 && Pow256(1) == 0x100 && Pow256(2) == 0x1_0000 && Pow256(3) == 0x100_0000;
    hide ToBe;
    FourDigits(l);
  }

  lemma FourDigits(l: nat)
    requires l < U32_LIMIT
    ensures (l / 0x100_0000) % 256 * 0x100_0000 + (l / 0x1_0000) % 256 * 0x1_0000 + (l / 0x100) % 256 * 0x100 + l % 256
      == l
  {
    var l1, l2, l3 := l / 0x100, l / 0x1_0000, l / 0x100_0000;
    assert l2 == l1 / 0x100 && l3 == l2 / 0x100 && l3 < 256;
    assert l == l1 * 0x100 + l % 256 && l1 == l2 * 0x100 + l1 % 256 && l2 == l3 * 0x100 + l2 % 256;
  }
}
