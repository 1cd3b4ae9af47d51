/** The two readers of the reply stream (`_get_responses`). Both scan a
    length prefix up to `;` and then read the frame body in requests of at
    most 4096 bytes, but they differ in what they read:

    - the synchronous reader (`airfoil.py`) reads the prefix one byte at a
      time, keeps its digits, then reads N-1 body bytes and appends `}`;
    - the asynchronous reader (`airfoil_async.py`) reads through the first
      `;` at once, keeps the digits of that prefix, then requests the owed
      count for as long as more than one byte is owed, and appends nothing.

    The socket is a sequence of bursts: a read returns bytes from the first
    burst that still holds some, never more than were asked for, so the same
    byte stream can reach the reader in many different ways. Parsing the
    body as JSON is not modelled; a reader yields the raw body bytes. */
module Decoder {
  import opened Base
  import opened Text
  import opened Framing
  import opened Protocol

  /** The bursts still to be delivered on a connection, in order. */
  type Conn = seq<seq<byte>>

  /** Everything the peer has still to deliver, regardless of bursts. */
  function Pending(c: Conn): seq<byte>
  {
    Flatten(c)
  }

  /** One `recv(k)` / `read(k)`: up to `k` bytes of the first non-empty
      burst. An empty answer means the stream is exhausted. */
  function Recv(c: Conn, k: nat): (p: (seq<byte>, Conn))
    requires k >= 1
    ensures Pending(c) == p.0 + Pending(p.1)
    ensures |p.0| <= k
    ensures p.0 == [] <==> Pending(c) == []
    decreases |c|
  {
    if c == [] then ([], [])
    else if c[0] == [] then Recv(c[1..], k)
    else
      var n := Min(k, |c[0]|);
      var rest := [c[0][n..]] + c[1..];
      assert rest[0] == c[0][n..] && rest[1..] == c[1..];
      assert c[0] == c[0][..n] + c[0][n..];
      (c[0][..n], rest)
  }

  const Semicolon: byte := 59
  const CloseBrace: byte := 125
  const MaxRead: nat := 4096

  predicate IsDigitByte(b: byte) { 48 <= b <= 57 }

  predicate AllDigitBytes(bs: seq<byte>) {
    forall i :: 0 <= i < |bs| ==> IsDigitByte(bs[i])
  }

  /** The text of ASCII bytes. */
  function Chars(bs: seq<byte>): (s: string)
    ensures |s| == |bs|
    ensures forall i :: 0 <= i < |bs| ==> s[i] as int == bs[i]
  {
    seq(|bs|, i requires 0 <= i < |bs| => bs[i] as char)
  }

  /** Python `int` of the collected digit characters. */
  function DigitsValue(ds: seq<byte>): nat
    requires AllDigitBytes(ds)
  {
    DecimalValue(Chars(ds))
  }

  /** The length prefix as the synchronous reader scans it, one byte at a
      time, with the digits collected so far in `digits`. A byte that is not
      ASCII fails to decode on its own (`OneByteDecodes`); an exhausted
      stream leaves the reader spinning, modelled as `Stalled`; a `;` with
      no digit before it makes `int('')` fail. Other bytes are skipped.
      The result is the digits and what follows the `;`. */
  function ScanLength(bs: seq<byte>, digits: seq<byte>): Result<(seq<byte>, seq<byte>)>
    decreases |bs|
  {
    if bs == [] then Err(Stalled)
    else if bs[0] >= 0x80 then Err(Undecodable)
    else if bs[0] == Semicolon then
      if digits == [] then Err(BadLength) else Ok((digits, bs[1..]))
    else if IsDigitByte(bs[0]) then ScanLength(bs[1..], digits + [bs[0]])
    else ScanLength(bs[1..], digits)
  }

  /** A frame read off the stream: its body, and the bytes left behind. */
  datatype Decoded = Decoded(body: seq<byte>, rest: seq<byte>)

  /** The number of body bytes the synchronous reader takes for a prefix
      of `n`. */
  function Owed(n: nat): nat
  {
    if n > 1 then n - 1 else 0
  }

  /** The synchronous reader on the whole remaining byte stream: the
      prefix, then `Owed(n)` bytes, then a synthesised `}`. */
  function DecodeFrame(bs: seq<byte>): (r: Result<Decoded>)
    ensures r.Ok? ==> |r.value.rest| < |bs| && |r.value.body| >= 1
    ensures r.Ok? ==> r.value.body[|r.value.body| - 1] == CloseBrace
  {
    var p :- ScanLength(bs, []);
    var (digits, rest) := p;
    ScanDigits(bs, []);
    var owed := Owed(DigitsValue(digits));
    if |rest| < owed then Err(Stalled)
    else Ok(Decoded(rest[..owed] + [CloseBrace], rest[owed..]))
  }

  /** What the scan collects is digits, and it ends inside the input. */
  lemma {:induction false} ScanDigits(bs: seq<byte>, digits: seq<byte>)
    requires AllDigitBytes(digits)
    ensures ScanLength(bs, digits).Ok? ==>
      AllDigitBytes(ScanLength(bs, digits).value.0)
      && |ScanLength(bs, digits).value.0| >= 1
      && |ScanLength(bs, digits).value.1| < |bs|
    decreases |bs|
  {
    if bs != [] && bs[0] < 0x80 && bs[0] != Semicolon {
      if IsDigitByte(bs[0]) {
        ScanDigits(bs[1..], digits + [bs[0]]);
      } else {
        ScanDigits(bs[1..], digits);
      }
    }
  }

  /** The prefix loop of the synchronous `_get_responses`: one-byte reads
      until `;`. The outcome is `ScanLength` of the pending bytes, however
      they are split into bursts. */
  method ReadLength(conn: Conn) returns (r: Result<seq<byte>>, left: Conn)
    ensures r.Ok? <==> ScanLength(Pending(conn), []).Ok?
    ensures r.Ok? ==> ScanLength(Pending(conn), []) == Ok((r.value, Pending(left)))
    ensures r.Err? ==> ScanLength(Pending(conn), []) == Err(r.error)
  {
    var c := conn;
    var digits: seq<byte> := [];
    while true
      invariant ScanLength(Pending(conn), []) == ScanLength(Pending(c), digits)
      decreases |Pending(c)|
    {
      var p := Recv(c, 1);
      if p.0 == [] {
        return Err(Stalled), c;
      }
      var b := p.0[0];
      assert Pending(c) == [b] + Pending(p.1);
      assert Pending(c)[1..] == Pending(p.1);
      c := p.1;
      if b >= 0x80 {
        return Err(Undecodable), c;
      }
      if b == Semicolon {
        if digits == [] {
          return Err(BadLength), c;
        }
        return Ok(digits), c;
      }
      if IsDigitByte(b) {
        digits := digits + [b];
      }
    }
  }

  /** Read `i` asks for `asks[i]` bytes when `owed[i]` of the `Owed(n)`
      are still to come, and fewer are owed at every read. */
  predicate AsksFit(asks: seq<nat>, owed: seq<nat>, n: nat) {
    |owed| == |asks|
    && (forall i :: 0 <= i < |asks| ==> 1 <= owed[i] && asks[i] == Min(MaxRead, owed[i]))
    && (|owed| > 0 ==> owed[0] == Owed(n))
    && (forall i :: 0 < i < |owed| ==> owed[i] < owed[i - 1])
  }

  /** One more read, with `num - 1` bytes still to come. */
  lemma AsksFitSnoc(asks: seq<nat>, owed: seq<nat>, n: nat, num: nat)
    requires AsksFit(asks, owed, n) && num > 1
    requires |owed| == 0 ==> num == n
    requires |owed| > 0 ==> owed[|owed| - 1] > num - 1
    ensures AsksFit(asks + [if num > MaxRead then MaxRead else num - 1], owed + [num - 1], n)
  {
  }

  /** The body loop of the synchronous `_get_responses` for a prefix of
      `n`: it reads exactly `Owed(n)` bytes and appends `}`. Read `i` asks
      for `asks[i]` bytes when `owed[i]` are still to come: all of them, but
      never more than 4096. */
  method ReadBody(conn: Conn, n: nat) returns (r: Result<seq<byte>>, left: Conn, asks: seq<nat>, owed: seq<nat>)
    ensures r.Ok? <==> Owed(n) <= |Pending(conn)|
    ensures r.Ok? ==> r.value == Pending(conn)[..Owed(n)] + [CloseBrace]
    ensures r.Ok? ==> Pending(left) == Pending(conn)[Owed(n)..]
    ensures r.Err? ==> r.error == Stalled
    ensures forall i :: 0 <= i < |asks| ==> 1 <= asks[i] <= MaxRead
    ensures |owed| == |asks|
    ensures forall i :: 0 <= i < |asks| ==> 1 <= owed[i] && asks[i] == Min(MaxRead, owed[i])
    ensures |owed| > 0 ==> owed[0] == Owed(n)
    ensures forall i :: 0 < i < |owed| ==> owed[i] < owed[i - 1]
  {
    asks := [];
    owed := [];
    var c := conn;
    var num: nat := n;
    var buffer: seq<byte> := [];
    while num > 1
      invariant |buffer| + num == n
      invariant n >= 1 ==> num >= 1
      invariant Pending(conn) == buffer + Pending(c)
      invariant AsksFit(asks, owed, n)
      invariant |owed| == 0 ==> num == n
      invariant |owed| > 0 ==> owed[|owed| - 1] > num - 1
      decreases num
    {
      var want := if num > MaxRead then MaxRead else num - 1;
      AsksFitSnoc(asks, owed, n, num);
      asks := asks + [want];
      owed := owed + [num - 1];
      var p := Recv(c, want);
      if p.0 == [] {
        assert |Pending(conn)| == |buffer| < Owed(n);
        return Err(Stalled), c, asks, owed;
      }
      Assoc(buffer, p.0, Pending(p.1));
      buffer := buffer + p.0;
      num := num - |p.0|;
      c := p.1;
    }
    assert |buffer| == Owed(n);
    SplitAt(buffer, Pending(c));
    r := Ok(buffer + [CloseBrace]);
    left := c;
  }

  /** The synchronous `_get_responses` reading one frame from a socket.
      Whatever bursts the bytes come in, the outcome is `DecodeFrame` of the
      pending bytes. */
  method ReadFrame(conn: Conn) returns (r: Result<seq<byte>>, left: Conn)
    ensures r.Ok? <==> DecodeFrame(Pending(conn)).Ok?
    ensures r.Ok? ==> DecodeFrame(Pending(conn)) == Ok(Decoded(r.value, Pending(left)))
    ensures r.Err? ==> DecodeFrame(Pending(conn)) == Err(r.error)
  {
    var digits, c := ReadLength(conn);
    if digits.Err? {
      return Err(digits.error), c;
    }
    ScanDigits(Pending(conn), []);
    var asks, owed;
    r, left, asks, owed := ReadBody(c, DigitsValue(digits.value));
  }

  /** What a connection yields: the frame bodies in stream order, and the
      way the stream ends. The reader never finishes by itself; it only
      stops on an error, `Stalled` at the end of the bytes included. */
  datatype Yield = Yield(bodies: seq<seq<byte>>, end: Error)

  /** The generator `_get_responses` run over all the bytes of a
      connection. */
  function DecodeFrames(bs: seq<byte>): (y: Yield)
    decreases |bs|
  {
    match DecodeFrame(bs)
    case Err(e) => Yield([], e)
    case Ok(d) =>
      var more := DecodeFrames(d.rest);
      Yield([d.body] + more.bodies, more.end)
  }

  /** The ASCII digits of `n`, as `str(n)` encodes them. */
  function DigitBytes(n: nat): (r: seq<byte>)
    ensures |r| >= 1 && AllDigitBytes(r)
    ensures Chars(r) == Decimal(n)
  {
    var d := Decimal(n);
    var r := seq(|d|, i requires 0 <= i < |d| => d[i] as int);
    assert Chars(r) == d;
    r
  }

  /** A frame as the server sends it: the length of the payload in
      decimal, `;`, then the payload. */
  function ServerFrame(payload: seq<byte>): seq<byte>
  {
    DigitBytes(|payload|) + [Semicolon] + payload
  }

  /** A payload the server sends: a JSON object, so it ends in `}`. */
  predicate WellFormed(payload: seq<byte>) {
    |payload| >= 1 && payload[|payload| - 1] == CloseBrace
  }

  /** Bytes the prefix scan passes over: ASCII, no digit, no `;`. */
  predicate Skippable(junk: seq<byte>) {
    forall i :: 0 <= i < |junk| ==> junk[i] < 0x80 && junk[i] != Semicolon && !IsDigitByte(junk[i])
  }

  lemma {:induction false} ScanSkips(junk: seq<byte>, tail: seq<byte>, digits: seq<byte>)
    requires Skippable(junk)
    ensures ScanLength(junk + tail, digits) == ScanLength(tail, digits)
    decreases |junk|
  {
    if junk != [] {
      assert (junk + tail)[0] == junk[0];
      assert (junk + tail)[1..] == junk[1..] + tail;
      ScanSkips(junk[1..], tail, digits);
    } else {
      assert junk + tail == tail;
    }
  }

  lemma {:induction false} ScanDigitRun(ds: seq<byte>, tail: seq<byte>, digits: seq<byte>)
    requires AllDigitBytes(ds) && digits + ds != []
    ensures ScanLength(ds + [Semicolon] + tail, digits) == Ok((digits + ds, tail))
    decreases |ds|
  {
    var bs := ds + [Semicolon] + tail;
    if ds == [] {
      assert bs[0] == Semicolon && bs[1..] == tail;
      assert digits + ds == digits;
    } else {
      assert bs[0] == ds[0] && bs[1..] == ds[1..] + [Semicolon] + tail;
      ScanDigitRun(ds[1..], tail, digits + [ds[0]]);
      assert digits + [ds[0]] + ds[1..] == digits + ds;
    }
  }

  lemma DigitBytesValue(n: nat)
    ensures DigitsValue(DigitBytes(n)) == n
  {
    DecimalRoundTrip(n);
  }

  lemma FrameBytes(junk: seq<byte>, payload: seq<byte>, tail: seq<byte>)
    ensures junk + ServerFrame(payload) + tail
      == junk + (DigitBytes(|payload|) + [Semicolon] + (payload + tail))
  {
  }

  /** All of a payload but its `}`, then the `}` and what follows. */
  lemma BodySplit(payload: seq<byte>, tail: seq<byte>)
    requires WellFormed(payload)
    ensures (payload + tail)[..|payload| - 1] + [CloseBrace] == payload
    ensures (payload + tail)[|payload| - 1..] == [CloseBrace] + tail
  {
    var m := |payload| - 1;
    assert payload == payload[..m] + [CloseBrace];
  }

  /** The synchronous reader reads back a server frame, after any skippable
      bytes: it takes the payload but its final `}`, puts a `}` back in its
      place, and leaves the real one in the stream. */
  lemma ServerFrameDecodes(junk: seq<byte>, payload: seq<byte>, tail: seq<byte>)
    requires Skippable(junk) && WellFormed(payload)
    ensures DecodeFrame(junk + ServerFrame(payload) + tail)
      == Ok(Decoded(payload, [CloseBrace] + tail))
  {
    var ds := DigitBytes(|payload|);
    var rest := payload + tail;
    FrameBytes(junk, payload, tail);
    ScanSkips(junk, ds + [Semicolon] + rest, []);
    ScanDigitRun(ds, rest, []);
    assert [] + ds == ds;
    DigitBytesValue(|payload|);
    BodySplit(payload, tail);
  }

  /** The bytes a server streams for a run of payloads. */
  function Wire(payloads: seq<seq<byte>>): seq<byte>
  {
    if payloads == [] then [] else ServerFrame(payloads[0]) + Wire(payloads[1..])
  }

  /** The frame stream: a server that sends well-formed payloads has them
      yielded one by one, in order, and then the reader stalls at the end of
      the bytes: the generator does not end on its own. */
  lemma {:induction false} StreamRoundTrip(junk: seq<byte>, payloads: seq<seq<byte>>)
    requires Skippable(junk)
    requires forall k :: 0 <= k < |payloads| ==> WellFormed(payloads[k])
    ensures DecodeFrames(junk + Wire(payloads)) == Yield(payloads, Stalled)
    decreases |payloads|
  {
    if payloads == [] {
      ScanSkips(junk, [], []);
      assert junk + Wire(payloads) == junk + [];
    } else {
      var rest := Wire(payloads[1..]);
      ServerFrameDecodes(junk, payloads[0], rest);
      assert junk + Wire(payloads) == junk + ServerFrame(payloads[0]) + rest;
      StreamRoundTrip([CloseBrace], payloads[1..]);
      assert [payloads[0]] + payloads[1..] == payloads;
    }
  }

  /** The frame the client writes is a server frame followed by CRLF. */
  lemma ClientFrameShape(payload: string)
    requires IsAscii(payload)
    ensures IsAscii(Frame(payload))
    ensures Bytes(Frame(payload)) == ServerFrame(Bytes(payload)) + [13, 10]
  {
    FrameAscii(payload);
    var f := Frame(payload);
    var ds := DigitBytes(|payload|);
    var g := ServerFrame(Bytes(payload)) + [13, 10];
    assert |Bytes(f)| == |g|;
    forall i | 0 <= i < |f|
      ensures Bytes(f)[i] == g[i]
    {
      var d := Decimal(|payload|);
      if i < |d| {
        assert f[i] == d[i] && g[i] == ds[i];
        assert Chars(ds)[i] == d[i];
      } else if i == |d| {
        assert f[i] == ';';
      } else if i < |d| + 1 + |payload| {
        assert f[i] == payload[i - |d| - 1];
      } else if i == |d| + 1 + |payload| {
        assert f[i] == '\r';
      } else {
        assert f[i] == '\n';
      }
    }
  }

  /** The synchronous reader reads back a frame the client itself writes,
      when the payload ends in `}` as a rendered dictionary does; the `}`
      and the CRLF it leaves are skipped by the next prefix scan. */
  lemma ClientFrameDecodes(payload: string, tail: seq<byte>)
    requires IsAscii(payload) && |payload| >= 1 && payload[|payload| - 1] == '}'
    ensures IsAscii(Frame(payload))
    ensures DecodeFrame(Bytes(Frame(payload)) + tail) == Ok(Decoded(Bytes(payload), [CloseBrace, 13, 10] + tail))
  {
    ClientFrameShape(payload);
    var p := Bytes(payload);
    assert Bytes(Frame(payload)) + tail == [] + ServerFrame(p) + ([13, 10] + tail);
    assert WellFormed(p);
    ServerFrameDecodes([], p, [13, 10] + tail);
    assert [CloseBrace] + ([13, 10] + tail) == [CloseBrace, 13, 10] + tail;
  }

  /** The synchronous reader reads back the frame `_create_cmd` builds,
      when the compacted payload ends in `}`. */
  lemma CreatedFrameDecodes(render: Command -> string, req: Request, n: RequestNo, tail: seq<byte>)
    requires CreateCmd(render, req, n).Ok?
    requires var p := Payload(render, Command(req, Decimal(n))); |p| >= 1 && p[|p| - 1] == '}'
    ensures IsAscii(Payload(render, Command(req, Decimal(n))))
    ensures DecodeFrame(CreateCmd(render, req, n).value.frame + tail)
      == Ok(Decoded(Bytes(Payload(render, Command(req, Decimal(n)))), [CloseBrace, 13, 10] + tail))
  {
    ClientFrameDecodes(Payload(render, Command(req, Decimal(n))), tail);
  }
}
