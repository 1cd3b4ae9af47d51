/** The asynchronous reader of the reply stream (`_get_responses` of
    `airfoil_async.py`). It reads through the first `;` in one call, decodes
    that prefix as UTF-8 and keeps its digits, then asks for the owed count
    (at most 4096) while more than one byte is owed, and yields what it got
    without appending anything.

    A read returns what has arrived, which on a real connection depends on
    how the peer's bytes were split in transit: the bursts of `Conn`. */
module AsyncDecoder {
  import opened Base
  import opened Framing
  import opened Text
  import opened Protocol
  import opened Decoder

  /** The first position of `x` in `s`. */
  function IndexOf(s: seq<byte>, x: byte): (i: nat)
    requires x in s
    ensures i < |s| && s[i] == x && x !in s[..i]
  {
    if s[0] == x then 0
    else
      var j := IndexOf(s[1..], x);
      assert s[..j + 1] == [s[0]] + s[1..][..j];
      j + 1
  }

  /** `readuntil(b';')`: the bytes through the first `;`, gathered across
      bursts; what is left of the burst holding the `;` stays buffered for
      the next read. A stream that ends first raises
      `IncompleteReadError`. */
  function ReadUntil(c: Conn): (r: Result<(seq<byte>, Conn)>)
    ensures r.Ok? ==> Pending(c) == r.value.0 + Pending(r.value.1)
    ensures r.Ok? ==> |r.value.0| >= 1 && r.value.0[|r.value.0| - 1] == Semicolon
    ensures r.Ok? ==> Semicolon !in r.value.0[..|r.value.0| - 1]
    ensures r.Err? <==> Semicolon !in Pending(c)
    ensures r.Err? ==> r.error == StreamEnded
    decreases |c|
  {
    if c == [] then Err(StreamEnded)
    else if Semicolon in c[0] then
      var i := IndexOf(c[0], Semicolon);
      var rest := [c[0][i + 1..]] + c[1..];
      assert rest[0] == c[0][i + 1..] && rest[1..] == c[1..];
      assert c[0] == c[0][..i + 1] + c[0][i + 1..];
      assert c[0][..i + 1][..i] == c[0][..i];
      Ok((c[0][..i + 1], rest))
    else
      match ReadUntil(c[1..])
      case Err(e) => Err(e)
      case Ok(p) =>
        assert (c[0] + p.0)[..|c[0] + p.0| - 1] == c[0] + p.0[..|p.0| - 1];
        Ok((c[0] + p.0, p.1))
  }

  /** The ASCII digit bytes of `bs`, in order: the characters `0`-`9`.
      Every byte of a longer UTF-8 character is at least 0x80, so none of
      them is kept; other Unicode digits, such as `²`, are dropped. */
  function DigitsIn(bs: seq<byte>): (ds: seq<byte>)
    ensures AllDigitBytes(ds) && |ds| <= |bs|
    ensures ds == Filter(bs, IsDigitByte)
  {
    if bs == [] then []
    else (if IsDigitByte(bs[0]) then [bs[0]] else []) + DigitsIn(bs[1..])
  }

  /** The length of a prefix: it must decode, and `int` of its digits must
      not be `int('')`. */
  function PrefixLength(prefix: seq<byte>): (r: Result<nat>)
    ensures r.Err? <==> !Utf8Valid(prefix) || DigitsIn(prefix) == []
    ensures r.Ok? ==> r.value == DecimalValue(Chars(DigitsIn(prefix)))
  {
    if !Utf8Valid(prefix) then Err(Undecodable)
    else
      var ds := DigitsIn(prefix);
      if ds == [] then Err(BadLength) else Ok(DigitsValue(ds))
  }

  /** The body loop as written: while more than one byte is owed, ask for
      the owed count, at most 4096. It gathers everything owed but
      possibly the last byte. */
  function BodyAsWritten(c: Conn, num: int): (r: Result<(seq<byte>, Conn)>)
    ensures r.Ok? ==> Pending(c) == r.value.0 + Pending(r.value.1)
    ensures r.Ok? ==> num - 1 <= |r.value.0| <= Max(num, 0)
    ensures r.Err? <==> |Pending(c)| < num - 1
    ensures r.Err? ==> r.error == Stalled
    decreases |Pending(c)|
  {
    if num <= 1 then Ok(([], c))
    else
      var p := Recv(c, Min(num, MaxRead));
      assert |Pending(c)| == |p.0| + |Pending(p.1)|;
      if p.0 == [] then Err(Stalled)
      else
        match BodyAsWritten(p.1, num - |p.0|)
        case Err(e) => Err(e)
        case Ok(q) =>
          Assoc(p.0, q.0, Pending(q.1));
          Ok((p.0 + q.0, q.1))
  }

  /** The 4096-byte cap of each read matters even when the whole body has
      arrived at once: the reads take 4096 bytes at a time, so the loop
      stops one byte short exactly when the count announced is one more
      than a multiple of 4096. */
  lemma {:induction false} OneBurstAsWritten(s: seq<byte>, num: int)
    requires 0 <= num <= |s|
    ensures var m := if num % MaxRead == 1 then num - 1 else num;
      BodyAsWritten([s], num) == Ok((s[..m], [s[m..]]))
    decreases num
  {
    if num <= MaxRead {
      OneBurstFits(s, num);
      ModSmall(num);
    } else {
      OneBurstAsWritten(s[MaxRead..], num - MaxRead);
      OneBurstStep(s, num);
    }
  }

  /** The step of `OneBurstAsWritten`: a first read of 4096 bytes, then
      the rest of the body from what remains of the burst. */
  lemma OneBurstStep(s: seq<byte>, num: int)
    requires MaxRead < num <= |s|
    requires var t := s[MaxRead..]; var m' := if (num - MaxRead) % MaxRead == 1 then num - MaxRead - 1 else num - MaxRead;
      BodyAsWritten([t], num - MaxRead) == Ok((t[..m'], [t[m'..]]))
    ensures var m := if num % MaxRead == 1 then num - 1 else num;
      BodyAsWritten([s], num) == Ok((s[..m], [s[m..]]))
  {
    var t := s[MaxRead..];
    AsWrittenFromBurst(s, num);
    ModMaxRead(num);
    var m' := if (num - MaxRead) % MaxRead == 1 then num - MaxRead - 1 else num - MaxRead;
    assert s[..MaxRead] + t[..m'] == s[..MaxRead + m'];
    assert t[m'..] == s[MaxRead + m'..];
  }

  /** A body of at most 4096 bytes in one burst is read whole, in one
      read, unless it is a single byte, which the loop never asks for. */
  lemma OneBurstFits(s: seq<byte>, num: int)
    requires 0 <= num <= |s| && num <= MaxRead
    ensures var m := if num == 1 then 0 else num;
      BodyAsWritten([s], num) == Ok((s[..m], [s[m..]]))
  {
    if num <= 1 {
      assert s[..0] == [] && s[0..] == s;
    } else {
      AsWrittenFromBurst(s, num);
      assert BodyAsWritten([s[num..]], 0) == Ok(([], [s[num..]]));
      assert s[..num] + [] == s[..num];
    }
  }

  /** One turn of the loop as written on a single burst. */
  lemma AsWrittenFromBurst(s: seq<byte>, num: int)
    requires 2 <= num <= |s|
    ensures var n := Min(num, MaxRead); var rest := BodyAsWritten([s[n..]], num - n);
      BodyAsWritten([s], num) == if rest.Err? then Err(rest.error) else Ok((s[..n] + rest.value.0, rest.value.1))
  {
    RecvWhole(s, Min(num, MaxRead));
  }

  lemma ModSmall(a: int)
    requires 0 <= a <= MaxRead
    ensures a % MaxRead == 1 <==> a == 1
  {
  }

  lemma ModMaxRead(a: int)
    requires a > MaxRead
    ensures (a - MaxRead) % MaxRead == a % MaxRead
  {
  }

  /** The corrected loop reads the same 4097-byte burst whole. */
  lemma CorrectedOneBurst4097(s: seq<byte>)
    requires |s| == 4097
    ensures Body([s], 4097).Ok? && Body([s], 4097).value.0 == s
  {
    assert [s][1..] == [];
    assert Pending([s]) == s + Pending([]);
  }

  /** A read from a single burst holding at least `k` bytes takes `k`. */
  lemma RecvWhole(s: seq<byte>, k: nat)
    requires 1 <= k <= |s|
    ensures Recv([s], k) == (s[..k], [s[k..]])
  {
    var c := [s];
    assert c[0] == s && c[1..] == [];
    assert [c[0][Min(k, |c[0]|)..]] + c[1..] == [s[k..]];
  }

  /** A 4097-byte body in one burst loses its last byte: the first read
      takes 4096 bytes and leaves one owed. */
  lemma OneBurst4097(s: seq<byte>)
    requires |s| == 4097
    ensures BodyAsWritten([s], 4097) == Ok((s[..4096], [s[4096..]]))
  {
    OneBurstAsWritten(s, 4097);
  }

  /** One frame read by the asynchronous reader as written. */
  function FrameAsWritten(c: Conn): (r: Result<(seq<byte>, Conn)>)
    ensures r.Ok? ==> Semicolon in Pending(c)
    ensures r.Ok? ==>
      var k := IndexOf(Pending(c), Semicolon) + 1;
      PrefixLength(Pending(c)[..k]).Ok?
      && Pending(c)[k..] == r.value.0 + Pending(r.value.1)
      && PrefixLength(Pending(c)[..k]).value - 1 <= |r.value.0| <= PrefixLength(Pending(c)[..k]).value
  {
    var p :- ReadUntil(c);
    var n :- PrefixLength(p.0);
    var q :- BodyAsWritten(p.1, n);
    ReadUntilIsFlat(c);
    assert Pending(c)[|p.0|..] == q.0 + Pending(q.1);
    Ok(q)
  }

  /** The body loop as evidently intended: read until nothing is owed. */
  function Body(c: Conn, num: int): (r: Result<(seq<byte>, Conn)>)
    ensures r.Ok? <==> num <= |Pending(c)|
    ensures r.Ok? ==> |r.value.0| == Max(num, 0)
    ensures r.Ok? ==> Pending(c) == r.value.0 + Pending(r.value.1)
    ensures r.Err? ==> r.error == Stalled
    decreases |Pending(c)|
  {
    if num <= 0 then Ok(([], c))
    else
      var p := Recv(c, Min(num, MaxRead));
      if p.0 == [] then Err(Stalled)
      else
        match Body(p.1, num - |p.0|)
        case Err(e) => Err(e)
        case Ok(q) =>
          assert Pending(c) == (p.0 + q.0) + Pending(q.1);
          Ok((p.0 + q.0, q.1))
  }

  /** One frame read by the corrected asynchronous reader. */
  function ReadFrame(c: Conn): Result<(seq<byte>, Conn)>
  {
    var p :- ReadUntil(c);
    var n :- PrefixLength(p.0);
    Body(p.1, n)
  }

  /** The corrected reader on the plain byte stream: through the first
      `;`, then exactly the announced number of bytes. */
  function FlatFrame(bs: seq<byte>): Result<Decoded>
  {
    if Semicolon !in bs then Err(StreamEnded)
    else
      var i := IndexOf(bs, Semicolon);
      var n :- PrefixLength(bs[..i + 1]);
      var rest := bs[i + 1..];
      if |rest| < n then Err(Stalled) else Ok(Decoded(rest[..n], rest[n..]))
  }

  /** `readuntil` depends on the bytes only, not on how they arrived. */
  lemma {:induction false} ReadUntilIsFlat(c: Conn)
    ensures Semicolon in Pending(c) ==>
      ReadUntil(c).Ok?
      && ReadUntil(c).value.0 == Pending(c)[..IndexOf(Pending(c), Semicolon) + 1]
  {
    if Semicolon in Pending(c) {
      var r := ReadUntil(c).value;
      var j := |r.0| - 1;
      var bs := Pending(c);
      assert bs[..j + 1] == r.0;
      assert bs[j] == Semicolon && Semicolon !in bs[..j];
      IndexOfUnique(bs, j);
    }
  }

  lemma IndexOfUnique(s: seq<byte>, j: nat)
    requires j < |s| && s[j] == Semicolon && Semicolon !in s[..j]
    ensures IndexOf(s, Semicolon) == j
  {
  }

  /** With the correction, a frame read from a socket is the frame of the
      pending bytes, whatever bursts they arrive in. */
  lemma ReadFrameIsFlat(c: Conn)
    ensures ReadFrame(c).Ok? <==> FlatFrame(Pending(c)).Ok?
    ensures ReadFrame(c).Ok? ==>
      FlatFrame(Pending(c)) == Ok(Decoded(ReadFrame(c).value.0, Pending(ReadFrame(c).value.1)))
  {
    ReadUntilIsFlat(c);
    var bs := Pending(c);
    if Semicolon in bs {
      var p := ReadUntil(c).value;
      var i := IndexOf(bs, Semicolon);
      assert bs[i + 1..] == Pending(p.1);
      if PrefixLength(p.0).Ok? {
        var n := PrefixLength(p.0).value;
        if Body(p.1, n).Ok? {
          var q := Body(p.1, n).value;
          assert Pending(p.1)[..n] == q.0;
        }
      }
    }
  }

  /** Two ways the four bytes `2;{}` can arrive. */
  const OneBurst: Conn := [[50, 59, 123, 125]]
  const TwoBursts: Conn := [[50, 59, 123], [125]]

  /** `readuntil` on each arrival: the prefix `2;` and what stays
      buffered after it. */
  lemma ExamplePrefix()
    ensures ReadUntil(OneBurst) == Ok(([50, 59], [[123, 125]]))
    ensures ReadUntil(TwoBursts) == Ok(([50, 59], [[123], [125]]))
  {
    var a: seq<byte> := [50, 59, 123, 125];
    var b: seq<byte> := [50, 59, 123];
    assert a[1..][0] == 59 && b[1..][0] == 59;
    assert IndexOf(a, Semicolon) == 1 && IndexOf(b, Semicolon) == 1;
    assert a[..2] == [50, 59] && a[2..] == [123, 125];
    assert b[..2] == [50, 59] && b[2..] == [123];
    assert OneBurst[0] == a && OneBurst[1..] == [];
    assert TwoBursts[0] == b && TwoBursts[1..] == [[125]];
    var rest1: Conn := [a[2..]] + OneBurst[1..];
    assert rest1 == [[123, 125]];
    var rest2: Conn := [b[2..]] + TwoBursts[1..];
    assert rest2 == [[123], [125]];
    assert ReadUntil(OneBurst) == Ok((a[..2], rest1));
    assert ReadUntil(TwoBursts) == Ok((b[..2], rest2));
  }

  /** The digits of a run of digits followed by bytes that are not digits
      are the run. */
  lemma {:induction false} DigitsOfRun(ds: seq<byte>, junk: seq<byte>)
    requires AllDigitBytes(ds)
    requires forall i :: 0 <= i < |junk| ==> !IsDigitByte(junk[i])
    ensures DigitsIn(ds + junk) == ds
    decreases |ds| + |junk|
  {
    if ds != [] {
      assert (ds + junk)[0] == ds[0] && (ds + junk)[1..] == ds[1..] + junk;
      DigitsOfRun(ds[1..], junk);
    } else if junk != [] {
      assert (ds + junk)[1..] == [] + junk[1..];
      DigitsOfRun([], junk[1..]);
    } else {
      assert ds + junk == [];
    }
  }

  /** The prefix the server writes for a length reads back as that length. */
  lemma PrefixRoundTrip(m: nat)
    ensures PrefixLength(DigitBytes(m) + [Semicolon]) == Ok(m)
  {
    var ds := DigitBytes(m);
    DigitsOfRun(ds, [Semicolon]);
    AsciiDecodes(ds + [Semicolon]);
    DigitBytesValue(m);
  }

  /** The corrected reader reads a length prefix and exactly that many
      bytes after it, and leaves the rest. */
  lemma ServerFrameReadsBack(body: seq<byte>, tail: seq<byte>)
    ensures FlatFrame(DigitBytes(|body|) + [Semicolon] + (body + tail)) == Ok(Decoded(body, tail))
  {
    var ds := DigitBytes(|body|);
    var bs := ds + [Semicolon] + (body + tail);
    assert bs[|ds|] == Semicolon && bs[..|ds|] == ds;
    IndexOfUnique(bs, |ds|);
    assert bs[..|ds| + 1] == ds + [Semicolon];
    PrefixRoundTrip(|body|);
    var rest := bs[|ds| + 1..];
    assert rest == body + tail;
    assert rest[..|body|] == body && rest[|body|..] == tail;
  }

  /** The corrected reader reads back any frame `_create_cmd` builds,
      leaving the CRLF that ends it. */
  lemma CreatedFrameReadsBack(render: Command -> string, req: Request, n: RequestNo, tail: seq<byte>)
    requires CreateCmd(render, req, n).Ok?
    ensures IsAscii(Payload(render, Command(req, Decimal(n))))
    ensures FlatFrame(CreateCmd(render, req, n).value.frame + tail)
      == Ok(Decoded(Bytes(Payload(render, Command(req, Decimal(n)))), [13, 10] + tail))
  {
    var body := CreatedFrameShape(render, req, n);
    var ds := DigitBytes(|body|);
    ServerFrameReadsBack(body, [13, 10] + tail);
    calc {
      CreateCmd(render, req, n).value.frame + tail;
      ds + [Semicolon] + body + [13, 10] + tail;
      { Assoc(ds + [Semicolon] + body, [13, 10], tail); }
      ds + [Semicolon] + body + ([13, 10] + tail);
      { Assoc(ds + [Semicolon], body, [13, 10] + tail); }
      ds + [Semicolon] + (body + ([13, 10] + tail));
    }
  }

  /** The frame `_create_cmd` builds, as the server's frame of the same
      payload followed by CRLF. */
  lemma CreatedFrameShape(render: Command -> string, req: Request, n: RequestNo) returns (body: seq<byte>)
    requires CreateCmd(render, req, n).Ok?
    ensures IsAscii(Payload(render, Command(req, Decimal(n))))
    ensures body == Bytes(Payload(render, Command(req, Decimal(n))))
    ensures CreateCmd(render, req, n).value.frame == DigitBytes(|body|) + [Semicolon] + body + [13, 10]
  {
    var p := Payload(render, Command(req, Decimal(n)));
    ClientFrameShape(p);
    body := Bytes(p);
  }

  /** `2;` announces two bytes. */
  lemma ExampleLength()
    ensures PrefixLength([50, 59]) == Ok(2)
  {
    var pre: seq<byte> := [50, 59];
    assert pre[1..] == [59] && pre[1..][1..] == [];
    assert Utf8Valid(pre);
    assert DigitsIn(pre) == [50];
    assert Chars([50]) == "2";
  }

  /** A prefix after bytes left over from an earlier reply: `OK\n2211;`
      announces 2211 bytes; the letters and the newline are not digits. */
  lemma ExampleLeftover()
    ensures PrefixLength([79, 75, 10, 50, 50, 49, 49, 59]) == Ok(2211)
  {
    ExampleLeftoverDigits();
    ExampleLeftoverValue();
    AsciiDecodes([79, 75, 10, 50, 50, 49, 49, 59]);
  }

  lemma ExampleLeftoverDigits()
    ensures DigitsIn([79, 75, 10, 50, 50, 49, 49, 59]) == [50, 50, 49, 49]
  {
    var ds: seq<byte> := [50, 50, 49, 49];
    DigitsOfRun(ds, [59]);
    assert [79, 75, 10, 50, 50, 49, 49, 59] == [79, 75, 10] + (ds + [59]);
    DigitsAfterJunk([79, 75, 10], ds + [59]);
  }

  lemma ExampleLeftoverValue()
    ensures DecimalValue(Chars([50, 50, 49, 49])) == 2211
  {
    assert Chars([50, 50, 49, 49]) == "2211";
    assert "2211"[..3] == "221" && "221"[..2] == "22" && "22"[..1] == "2" && "2"[..0] == "";
  }

  /** Bytes that are not digits in front add no digit. */
  lemma {:induction false} DigitsAfterJunk(junk: seq<byte>, bs: seq<byte>)
    requires forall i :: 0 <= i < |junk| ==> !IsDigitByte(junk[i])
    ensures DigitsIn(junk + bs) == DigitsIn(bs)
  {
    if junk != [] {
      assert (junk + bs)[0] == junk[0] && (junk + bs)[1..] == junk[1..] + bs;
      DigitsAfterJunk(junk[1..], bs);
    } else {
      assert junk + bs == bs;
    }
  }

  /** The body reads of the two arrivals. */
  lemma ExampleReads()
    ensures Recv([[123, 125]], 2) == ([123, 125], [[]])
    ensures Recv([[123], [125]], 2) == ([123], [[], [125]])
    ensures Recv([[], [125]], 1) == ([125], [[]])
  {
    var whole: Conn := [[123, 125]];
    assert whole[0][..2] == whole[0] && whole[0][2..] == [] && whole[1..] == [];
    var r1: Conn := [whole[0][2..]] + whole[1..];
    assert r1 == [[]];
    assert Recv(whole, 2) == (whole[0][..2], r1);
    var split: Conn := [[123], [125]];
    assert split[0][..1] == split[0] && split[0][1..] == [] && split[1..] == [[125]];
    var r2: Conn := [split[0][1..]] + split[1..];
    assert r2 == [[], [125]];
    assert Recv(split, 2) == (split[0][..1], r2);
    var late: Conn := [[], [125]];
    var last: Conn := [[125]];
    assert late[1..] == last;
    assert last[0][..1] == last[0] && last[0][1..] == [] && last[1..] == [];
    var r3: Conn := [last[0][1..]] + last[1..];
    assert r3 == [[]];
    assert Recv(last, 1) == (last[0][..1], r3);
  }

  /** The body loop as written on each arrival. */
  lemma ExampleBodiesAsWritten()
    ensures BodyAsWritten([[123, 125]], 2) == Ok(([123, 125], [[]]))
    ensures BodyAsWritten([[123], [125]], 2) == Ok(([123], [[], [125]]))
  {
    ExampleReads();
    assert Min(2, MaxRead) == 2;
    var none: seq<byte> := [];
    var whole: seq<byte> := [123, 125];
    var first: seq<byte> := [123];
    assert whole + none == whole && first + none == first;
  }

  /** The corrected body loop on each arrival. */
  lemma ExampleBodies()
    ensures Body([[123, 125]], 2) == Ok(([123, 125], [[]]))
    ensures Body([[123], [125]], 2) == Ok(([123, 125], [[]]))
  {
    ExampleReads();
    assert Min(2, MaxRead) == 2 && Min(1, MaxRead) == 1;
    var none: seq<byte> := [];
    var whole: seq<byte> := [123, 125];
    var first: seq<byte> := [123];
    var last: seq<byte> := [125];
    assert whole + none == whole && last + none == last && first + last == whole;
    assert Body([[], [125]], 1) == Ok(([125], [[]]));
  }

  /** The reader as written yields `{}` when the frame arrives whole but
      only `{` when its last byte arrives on its own: once one byte is
      owed it stops asking. */
  lemma AsWrittenDependsOnArrival()
    ensures Pending(OneBurst) == Pending(TwoBursts)
    ensures FrameAsWritten(OneBurst) == Ok(([123, 125], [[]]))
    ensures FrameAsWritten(TwoBursts) == Ok(([123], [[], [125]]))
  {
    ExamplePrefix();
    ExampleLength();
    ExampleBodiesAsWritten();
    ExamplePending();
  }

  /** Both arrivals carry the same four bytes. */
  lemma ExamplePending()
    ensures Pending(OneBurst) == Pending(TwoBursts) == [50, 59, 123, 125]
  {
    assert Pending(OneBurst) == [50, 59, 123, 125] by {
      assert OneBurst[1..] == [];
    }
    assert Pending(TwoBursts) == [50, 59, 123] + [125] by {
      assert TwoBursts[1..] == [[125]] && TwoBursts[1..][1..] == [];
    }
  }

  /** The corrected reader yields `{}` however the four bytes arrive. */
  lemma CorrectedIgnoresArrival()
    ensures ReadFrame(OneBurst) == Ok(([123, 125], [[]]))
    ensures ReadFrame(TwoBursts) == Ok(([123, 125], [[]]))
  {
    ExamplePrefix();
    ExampleLength();
    ExampleBodies();
  }
}
