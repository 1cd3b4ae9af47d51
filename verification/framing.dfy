/** The frame the client writes (`_create_cmd`) and the handshake it opens
    every connection with (`_connect`). A command is rendered to text by the
    Python `str` of its dict, which this model takes as a parameter, then
    compacted by deleting the space after each `:` and `,`, then framed as
    `<length>;<payload>\r\n` and encoded as ASCII. */
module Framing {
  import opened Base
  import opened Text
  import opened Protocol

  function DigitChar(d: nat): (c: char)
    requires d < 10
    ensures IsDigit(c)
  {
    ('0' as int + d) as char
  }

  function DigitValue(c: char): (d: nat)
    requires IsDigit(c)
    ensures d < 10 && DigitChar(d) == c
  {
    c as int - '0' as int
  }

  predicate AllDigits(s: string) {
    forall i :: 0 <= i < |s| ==> IsDigit(s[i])
  }

  /** Python `str(n)` for a natural number: its decimal digits, without
      leading zeros. */
  function Decimal(n: nat): (r: string)
    ensures |r| >= 1 && AllDigits(r)
    ensures |r| > 1 ==> r[0] != '0'
  {
    if n < 10 then [DigitChar(n)] else Decimal(n / 10) + [DigitChar(n % 10)]
  }

  /** Python `int(s)` for a string of ASCII digits; leading zeros are
      allowed, as `int` allows them. */
  function DecimalValue(s: string): nat
    requires AllDigits(s)
  {
    if s == [] then 0 else 10 * DecimalValue(s[..|s| - 1]) + DigitValue(s[|s| - 1])
  }

  /** Reading back the digits of a number gives the number. */
  lemma {:induction false} DecimalRoundTrip(n: nat)
    ensures DecimalValue(Decimal(n)) == n
  {
    if n >= 10 {
      DecimalRoundTrip(n / 10);
      var r := Decimal(n);
      assert r[..|r| - 1] == Decimal(n / 10);
    }
  }

  function Pow10(k: nat): nat
  {
    if k == 0 then 1 else 10 * Pow10(k - 1)
  }

  /** A digit string is worth less than ten to the power of its length, and
      at least ten to the power of its length less one when it does not start
      with a zero. */
  lemma {:induction false} DecimalValueBounds(s: string)
    requires AllDigits(s)
    ensures DecimalValue(s) < Pow10(|s|)
    ensures |s| >= 1 && s[0] != '0' ==> DecimalValue(s) >= Pow10(|s| - 1)
  {
    if s != [] {
      var u := s[..|s| - 1];
      DecimalValueBounds(u);
      if |s| >= 2 && s[0] != '0' {
        assert u[0] == s[0];
      }
    }
  }

  /** The other half of the round trip: a digit string without leading zeros
      is the decimal form of its value. */
  lemma {:induction false} DecimalCanonical(s: string)
    requires |s| >= 1 && AllDigits(s) && (|s| > 1 ==> s[0] != '0')
    ensures Decimal(DecimalValue(s)) == s
  {
    var u := s[..|s| - 1];
    var v := DecimalValue(s);
    if |s| == 1 {
      assert v == 10 * DecimalValue(u) + DigitValue(s[|s| - 1]);
      assert u == [];
      assert v == DigitValue(s[0]);
    } else {
      DecimalValueBounds(s);
      assert Pow10(|s| - 1) >= 10 by {
        assert Pow10(1) == 10;
        Pow10Grows(1, |s| - 1);
      }
      assert u[0] == s[0];
      DecimalCanonical(u);
      assert v / 10 == DecimalValue(u) && v % 10 == DigitValue(s[|s| - 1]);
      assert s == u + [s[|s| - 1]];
    }
  }

  lemma {:induction false} Pow10Grows(j: nat, k: nat)
    requires j <= k
    ensures Pow10(j) <= Pow10(k)
    decreases k
  {
    if j < k {
      Pow10Grows(j, k - 1);
    }
  }

  /** `int` ignores leading zeros. */
  lemma {:induction false} DecimalLeadingZero(s: string)
    requires AllDigits(s)
    ensures DecimalValue(['0'] + s) == DecimalValue(s)
  {
    var t := ['0'] + s;
    if s != [] {
      assert t[..|t| - 1] == ['0'] + s[..|s| - 1];
      DecimalLeadingZero(s[..|s| - 1]);
    } else {
      assert t[..|t| - 1] == [];
    }
  }

  /** The characters of `s` other than the plain space. */
  function NonSpace(s: string): string
  {
    if s == [] then [] else (if s[0] == ' ' then [] else [s[0]]) + NonSpace(s[1..])
  }

  /** The compaction of the rendered command: `': '` becomes `':'`, then
      `', '` becomes `','`. */
  function Compact(s: string): string
  {
    Squash(Squash(s, ':', ' '), ',', ' ')
  }

  /** Squashing a character followed by a space deletes spaces and nothing
      else. */
  lemma {:induction false} SquashDropsOnlySpaces(s: string, a: char)
    ensures NonSpace(Squash(s, a, ' ')) == NonSpace(s)
  {
    if |s| >= 2 {
      if s[0] == a && s[1] == ' ' {
        SquashDropsOnlySpaces(s[2..], a);
        assert Squash(s, a, ' ') == [a] + Squash(s[2..], a, ' ');
        assert s[1..][1..] == s[2..];
      } else {
        SquashDropsOnlySpaces(s[1..], a);
        assert Squash(s, a, ' ') == [s[0]] + Squash(s[1..], a, ' ');
      }
    }
  }

  /** Compaction only deletes spaces: the other characters stay, in order. */
  lemma CompactDropsOnlySpaces(s: string)
    ensures NonSpace(Compact(s)) == NonSpace(s)
    ensures |Compact(s)| <= |s|
  {
    SquashDropsOnlySpaces(s, ':');
    SquashDropsOnlySpaces(Squash(s, ':', ' '), ',');
  }

  /** Squashing a pair that does not occur changes nothing. */
  lemma {:induction false} SquashAbsent(s: string, a: char, b: char)
    requires !HasPair(s, a, b)
    ensures Squash(s, a, b) == s
  {
    if |s| >= 2 {
      assert !(s[0] == a && s[1] == b);
      assert !HasPair(s[1..], a, b) by {
        forall i | 0 <= i < |s[1..]| - 1
          ensures !(s[1..][i] == a && s[1..][i + 1] == b)
        {
          assert s[1..][i] == s[i + 1] && s[1..][i + 1] == s[i + 2];
        }
      }
      SquashAbsent(s[1..], a, b);
    }
  }

  /** A rendering already free of `': '` and `', '` is sent as it is. */
  lemma CompactKeepsCompact(s: string)
    requires !HasPair(s, ':', ' ') && !HasPair(s, ',', ' ')
    ensures Compact(s) == s
  {
    SquashAbsent(s, ':', ' ');
    SquashAbsent(s, ',', ' ');
  }

  /** The ASCII encoding of a string. */
  function Bytes(s: string): (r: seq<byte>)
    requires IsAscii(s)
    ensures |r| == |s|
    ensures forall i :: 0 <= i < |s| ==> r[i] == s[i] as int
  {
    seq(|s|, i requires 0 <= i < |s| => s[i] as int as byte)
  }

  lemma AsciiAppend(s: string, t: string)
    requires IsAscii(s) && IsAscii(t)
    ensures IsAscii(s + t)
  {
    forall i | 0 <= i < |s + t|
      ensures (s + t)[i] as int < 128
    {
      if i < |s| {
        assert (s + t)[i] == s[i];
      } else {
        assert (s + t)[i] == t[i - |s|];
      }
    }
  }

  /** The text of a frame: `<length>;<payload>\r\n`, where the length counts
      the payload only. */
  function Frame(payload: string): string
  {
    Decimal(|payload|) + ";" + payload + "\r\n"
  }

  /** What `_create_cmd` returns: the request id, the command with that id
      written into it, and the bytes to send. */
  datatype Outgoing = Outgoing(requestId: string, command: Command, frame: seq<byte>)

  /** The payload of a command as sent: rendered, then compacted. */
  function Payload(render: Command -> string, c: Command): string
  {
    Compact(render(c))
  }

  /** `_create_cmd` with the random draw `n` passed in. The only failure is
      a rendering with a character outside ASCII. */
  function CreateCmd(render: Command -> string, req: Request, n: RequestNo): (r: Result<Outgoing>)
    ensures r.Ok? <==> IsAscii(Payload(render, Command(req, Decimal(n))))
    ensures r.Ok? ==> r.value.requestId == Decimal(n) && r.value.command == Command(req, r.value.requestId)
    ensures r.Ok? ==> AllDigits(r.value.requestId) && DecimalValue(r.value.requestId) == n
    ensures r.Ok? ==> (IsAscii(Frame(Payload(render, r.value.command)))
      && r.value.frame == Bytes(Frame(Payload(render, r.value.command))))
  {
    var id := Decimal(n);
    var cmd := Command(req, id);
    var text := Frame(Payload(render, cmd));
    DecimalRoundTrip(n);
    FrameAscii(Payload(render, cmd));
    if IsAscii(text) then Ok(Outgoing(id, cmd, Bytes(text))) else Err(NotAscii)
  }

  /** A frame is ASCII exactly when its payload is. */
  lemma FrameAscii(payload: string)
    ensures IsAscii(Frame(payload)) <==> IsAscii(payload)
  {
    var d := Decimal(|payload|);
    var f := Frame(payload);
    assert f == d + ";" + payload + "\r\n";
    if IsAscii(payload) {
      forall i | 0 <= i < |f|
        ensures f[i] as int < 128
      {
        if i < |d| {
          assert f[i] == d[i];
        } else if i == |d| {
        } else if i < |d| + 1 + |payload| {
          assert f[i] == payload[i - |d| - 1];
        }
      }
    }
    if IsAscii(f) {
      forall i | 0 <= i < |payload|
        ensures payload[i] as int < 128
      {
        assert f[|d| + 1 + i] == payload[i];
      }
    }
  }

  /** Strict UTF-8 as `bytes.decode()` accepts it: the well-formed byte
      sequences of table 3-7 in section 3.9 of the Unicode Standard. */
  predicate Utf8Valid(bs: seq<byte>)
    decreases |bs|
  {
    if bs == [] then true
    else if bs[0] < 0x80 then Utf8Valid(bs[1..])
    else if 0xC2 <= bs[0] <= 0xDF then
      |bs| >= 2 && Cont(bs[1]) && Utf8Valid(bs[2..])
    else if bs[0] == 0xE0 then
      |bs| >= 3 && 0xA0 <= bs[1] <= 0xBF && Cont(bs[2]) && Utf8Valid(bs[3..])
    else if 0xE1 <= bs[0] <= 0xEC || 0xEE <= bs[0] <= 0xEF then
      |bs| >= 3 && Cont(bs[1]) && Cont(bs[2]) && Utf8Valid(bs[3..])
    else if bs[0] == 0xED then
      |bs| >= 3 && 0x80 <= bs[1] <= 0x9F && Cont(bs[2]) && Utf8Valid(bs[3..])
    else if bs[0] == 0xF0 then
      |bs| >= 4 && 0x90 <= bs[1] <= 0xBF && Cont(bs[2]) && Cont(bs[3]) && Utf8Valid(bs[4..])
    else if 0xF1 <= bs[0] <= 0xF3 then
      |bs| >= 4 && Cont(bs[1]) && Cont(bs[2]) && Cont(bs[3]) && Utf8Valid(bs[4..])
    else if bs[0] == 0xF4 then
      |bs| >= 4 && 0x80 <= bs[1] <= 0x8F && Cont(bs[2]) && Cont(bs[3]) && Utf8Valid(bs[4..])
    else false
  }

  /** A UTF-8 continuation byte. */
  predicate Cont(b: byte) { 0x80 <= b <= 0xBF }

  predicate AsciiBytes(bs: seq<byte>) {
    forall i :: 0 <= i < |bs| ==> bs[i] < 0x80
  }

  /** ASCII bytes always decode. */
  lemma {:induction false} AsciiDecodes(bs: seq<byte>)
    requires AsciiBytes(bs)
    ensures Utf8Valid(bs)
  {
    if bs != [] {
      AsciiDecodes(bs[1..]);
    }
  }

  /** A lone byte decodes exactly when it is ASCII. */
  lemma OneByteDecodes(b: byte)
    ensures Utf8Valid([b]) <==> b < 0x80
  {
    assert [b][1..] == [];
  }

  /** The version the server must announce. */
  const Version: string := "majorversion=1,minorversion=5"

  /** The protocol name line of the greeting. */
  const ProtocolLine: string := "com.rogueamoeba.protocol.slipstreamremote\n"

  /** The greeting text: protocol line, version line, `OK` line. */
  function HelloText(): string
  {
    ProtocolLine + Version + "\nOK\n"
  }

  lemma HelloAscii()
    ensures IsAscii(ProtocolLine) && IsAscii(Version) && IsAscii("\nOK\n")
    ensures IsAscii(ProtocolLine + Version) && IsAscii(HelloText())
  {
    assert IsAscii(ProtocolLine);
    assert IsAscii(Version);
    assert IsAscii("\nOK\n");
    AsciiAppend(ProtocolLine, Version);
    AsciiAppend(ProtocolLine + Version, "\nOK\n");
  }

  /** The greeting bytes the client writes on every connection. */
  function Hello(): seq<byte>
  {
    HelloAscii();
    Bytes(HelloText())
  }

  /** The handshake check of `_connect`: the answer to the greeting is
      decoded as UTF-8 (a failure raises) and must contain the version. */
  function HandshakeAccepted(answer: seq<byte>): (r: Result<bool>)
    ensures r.Err? <==> !Utf8Valid(answer)
    ensures r == Ok(true) ==> |answer| >= |Version|
    ensures r == Ok(true) <==> Utf8Valid(answer) && Contains(answer, BytesOfVersion())
  {
    HelloAscii();
    if !Utf8Valid(answer) then Err(Undecodable)
    else Ok(Contains(answer, Bytes(Version)))
  }

  /** Any decodable answer that carries the version bytes is accepted,
      wherever they sit in it. */
  lemma AcceptedWhereverVersionSits(before: seq<byte>, after: seq<byte>)
    requires Utf8Valid(before + BytesOfVersion() + after)
    ensures HandshakeAccepted(before + BytesOfVersion() + after) == Ok(true)
  {
    var a := before + BytesOfVersion() + after;
    assert a[|before|..|before| + |Version|] == BytesOfVersion();
    assert OccursAt(a, BytesOfVersion(), |before|);
  }

  function BytesOfVersion(): (r: seq<byte>)
    ensures |r| == |Version|
  {
    HelloAscii();
    Bytes(Version)
  }

  /** A server that answers with the client's own greeting is accepted. */
  lemma EchoedHelloAccepted()
    ensures HandshakeAccepted(Hello()) == Ok(true)
  {
    HelloAscii();
    var p := Bytes(ProtocolLine);
    var v := Bytes(Version);
    var t := Bytes("\nOK\n");
    BytesAppend(ProtocolLine, Version);
    BytesAppend(ProtocolLine + Version, "\nOK\n");
    assert Hello() == p + v + t;
    AsciiDecodes(Hello());
    AcceptedWhereverVersionSits(p, t);
  }

  /** A server that announces another minor version is refused without
      an error. */
  lemma OtherVersionRefused()
    ensures IsAscii("majorversion=1,minorversion=4")
    ensures HandshakeAccepted(Bytes("majorversion=1,minorversion=4")) == Ok(false)
  {
    assert IsAscii("majorversion=1,minorversion=4");
    var a := Bytes("majorversion=1,minorversion=4");
    AsciiDecodes(a);
    forall i | 0 <= i <= |a|
      ensures !OccursAt(a, BytesOfVersion(), i)
    {
      if i == 0 {
        assert a[28] != BytesOfVersion()[28];
      }
    }
  }

  lemma {:induction false} BytesAppend(s: string, t: string)
    requires IsAscii(s) && IsAscii(t)
    ensures IsAscii(s + t) && Bytes(s + t) == Bytes(s) + Bytes(t)
  {
    AsciiAppend(s, t);
  }
}
