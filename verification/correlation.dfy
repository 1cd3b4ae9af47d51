/** One exchange with the server and the ways the client consumes the
    replies it gets back.

    Every operation opens a fresh connection per command: it draws a request
    number, frames the command, greets the server and, when the server
    answers with the right version, writes the command and reads replies
    until one of them settles what it waits for. The outside world is a
    `Net`: how commands render, what each connection delivers and which
    number each draw gives. The `k`-th exchange of a run uses the `k`-th
    draw and the `k`-th connection. */
module Correlation {
  import opened Base
  import opened Protocol
  import opened Framing

  /** What one reply means to a consumer that is waiting for something. */
  datatype Verdict<T> = Skip | Take(value: T) | Fail(error: Error)

  /** A consumer loop over the reply stream: the first reply that is not
      skipped settles the outcome. When every reply is skipped, the
      consumer is still waiting when the server falls silent. */
  function Scan<T>(replies: seq<Reply>, look: Reply -> Verdict<T>): (r: Result<T>)
    ensures r.Ok? ==> exists i :: (0 <= i < |replies| && look(replies[i]) == Take(r.value)
      && forall j :: 0 <= j < i ==> look(replies[j]).Skip?)
    ensures (forall j :: 0 <= j < |replies| ==> look(replies[j]).Skip?) ==> r == Err(StreamEnded)
  {
    if replies == [] then Err(StreamEnded)
    else
      match look(replies[0])
      case Skip =>
        var r := Scan(replies[1..], look);
        assert r.Ok? ==> exists i :: (0 <= i < |replies| && look(replies[i]) == Take(r.value)
          && forall j :: 0 <= j < i ==> look(replies[j]).Skip?) by {
          if r.Ok? {
            var i :| 0 <= i < |replies[1..]| && look(replies[1..][i]) == Take(r.value)
              && forall j :: 0 <= j < i ==> look(replies[1..][j]).Skip?;
            assert forall j :: 0 <= j < i + 1 ==> look(replies[j]).Skip? by {
              forall j | 0 <= j < i + 1 ensures look(replies[j]).Skip? {
                if j > 0 { assert replies[j] == replies[1..][j - 1]; }
              }
            }
            assert look(replies[i + 1]) == Take(r.value);
          }
        }
        assert (forall j :: 0 <= j < |replies| ==> look(replies[j]).Skip?) ==>
          forall j :: 0 <= j < |replies[1..]| ==> look(replies[1..][j]).Skip? by {
          if forall j :: 0 <= j < |replies| ==> look(replies[j]).Skip? {
            forall j | 0 <= j < |replies[1..]| ensures look(replies[1..][j]).Skip? {
              assert replies[1..][j] == replies[j + 1];
            }
          }
        }
        r
      case Take(v) => Ok(v)
      case Fail(e) => Err(e)
  }

  /** The replies a consumer does not skip, in order. */
  function Relevant<T>(replies: seq<Reply>, look: Reply -> Verdict<T>): seq<Reply>
  {
    Filter(replies, (r: Reply) => !look(r).Skip?)
  }

  /** Skipped replies do not matter: neither how many there are nor where
      they sit, so the outcome is that of the relevant replies alone. */
  lemma {:induction false} ScanOnlyRelevant<T>(replies: seq<Reply>, look: Reply -> Verdict<T>)
    ensures Scan(replies, look) == Scan(Relevant(replies, look), look)
  {
    if replies != [] {
      ScanOnlyRelevant(replies[1..], look);
      if look(replies[0]).Skip? {
        assert Relevant(replies, look) == Relevant(replies[1..], look);
      } else {
        var rel := Relevant(replies, look);
        assert rel == [replies[0]] + Relevant(replies[1..], look);
        assert rel[0] == replies[0];
      }
    }
  }

  /** A prefix of skipped replies changes nothing. */
  lemma {:induction false} ScanAfterSkipped<T>(skipped: seq<Reply>, replies: seq<Reply>, look: Reply -> Verdict<T>)
    requires forall j :: 0 <= j < |skipped| ==> look(skipped[j]).Skip?
    ensures Scan(skipped + replies, look) == Scan(replies, look)
  {
    if skipped != [] {
      assert (skipped + replies)[0] == skipped[0];
      assert (skipped + replies)[1..] == skipped[1..] + replies;
      ScanAfterSkipped(skipped[1..], replies, look);
    } else {
      assert skipped + replies == replies;
    }
  }

  /** `_get_result` / `_change_speaker_connected`: a reply carrying the
      awaited `replyID` settles the call with `data.success`, which must be
      there; any other reply is skipped. */
  function Awaited(id: string, reply: Reply): (v: Verdict<bool>)
    ensures reply.replyId != Some(id) <==> v.Skip?
    ensures v.Take? <==> reply.replyId == Some(id) && reply.data.Some? && reply.data.value.success.Some?
    ensures v.Take? ==> v.value == reply.data.value.success.value
  {
    if reply.replyId != Some(id) then Skip
    else if reply.data.None? then Fail(MissingKey("data"))
    else if reply.data.value.success.None? then Fail(MissingKey("success"))
    else Take(reply.data.value.success.value)
  }

  /** `set_source`: as `Awaited`, but a matching reply without
      `data.success` (the server's error replies) settles the call with
      `False`. */
  function AwaitedLeniently(id: string, reply: Reply): (v: Verdict<bool>)
    ensures reply.replyId != Some(id) <==> v.Skip?
    ensures !v.Fail?
    ensures v.Take? && reply.data.Some? && reply.data.value.success.Some? ==>
      v.value == reply.data.value.success.value
    ensures v.Take? && (reply.data.None? || reply.data.value.success.None?) ==> !v.value
  {
    if reply.replyId != Some(id) then Skip
    else if reply.data.None? || reply.data.value.success.None? then Take(false)
    else Take(reply.data.value.success.value)
  }

  /** What `set_source` settles on: the first reply carrying the request
      id gives `v`, which is true exactly when that reply holds `data`
      with `success` true. */
  predicate SettledLeniently(replies: seq<Reply>, id: string, v: bool) {
    exists i :: 0 <= i < |replies| && replies[i].replyId == Some(id)
      && (forall j :: 0 <= j < i ==> replies[j].replyId != Some(id))
      && (v <==> replies[i].data.Some? && replies[i].data.value.success == Some(true))
  }

  /** The lenient consumer never raises: it settles exactly when some reply
      carries the request id, as `SettledLeniently` says, and otherwise
      waits until the server falls silent. */
  lemma {:induction false} ScanLeniently(replies: seq<Reply>, id: string, look: Reply -> Verdict<bool>)
    requires forall r :: look(r) == AwaitedLeniently(id, r)
    ensures Scan(replies, look).Ok? <==> exists i :: 0 <= i < |replies| && replies[i].replyId == Some(id)
    ensures Scan(replies, look).Ok? ==> SettledLeniently(replies, id, Scan(replies, look).value)
    ensures Scan(replies, look).Err? ==> Scan(replies, look).error == StreamEnded
  {
    if replies != [] {
      var head := replies[0];
      if head.replyId == Some(id) {
        assert Scan(replies, look) == Ok(AwaitedLeniently(id, head).value);
        assert replies[0] == head;
      } else {
        var tail := replies[1..];
        ScanLeniently(tail, id, look);
        assert Scan(replies, look) == Scan(tail, look);
        if exists i :: 0 <= i < |replies| && replies[i].replyId == Some(id) {
          var i :| 0 <= i < |replies| && replies[i].replyId == Some(id);
          assert tail[i - 1] == replies[i];
        }
        if Scan(tail, look).Ok? {
          var v := Scan(tail, look).value;
          var i :| 0 <= i < |tail| && tail[i].replyId == Some(id)
            && (forall j :: 0 <= j < i ==> tail[j].replyId != Some(id))
            && (v <==> tail[i].data.Some? && tail[i].data.value.success == Some(true));
          assert replies[i + 1] == tail[i];
          assert forall j :: 0 <= j < i + 1 ==> replies[j].replyId != Some(id) by {
            forall j | 0 <= j < i + 1 ensures replies[j].replyId != Some(id) {
              if j > 0 { assert replies[j] == tail[j - 1]; }
            }
          }
        }
      }
    }
  }

  /** The correlator as a consumer of replies. */
  function AwaitSuccess(id: string): Reply -> Verdict<bool>
  {
    (r: Reply) => Awaited(id, r)
  }

  /** The correlator over a reply stream. */
  function Correlate(replies: seq<Reply>, id: string): Result<bool>
  {
    Scan(replies, AwaitSuccess(id))
  }

  /** The correlator returns the success flag of the first reply with the
      awaited id, whatever other replies come before it. */
  lemma CorrelateFirstMatch(before: seq<Reply>, id: string, ok: bool, d: ReplyData, after: seq<Reply>)
    requires forall j :: 0 <= j < |before| ==> before[j].replyId != Some(id)
    requires d.success == Some(ok)
    ensures Correlate(before + [Reply(Some(id), Some(d))] + after, id) == Ok(ok)
  {
    ScanAfterSkipped(before, [Reply(Some(id), Some(d))] + after, AwaitSuccess(id));
    assert before + [Reply(Some(id), Some(d))] + after == before + ([Reply(Some(id), Some(d))] + after);
  }

  /** Replies with another id, or with none, can be dropped, added or
      reordered without changing what the correlator returns. */
  lemma CorrelateIgnoresOthers(replies: seq<Reply>, id: string)
    ensures Correlate(replies, id)
      == Correlate(Filter(replies, (r: Reply) => r.replyId == Some(id)), id)
  {
    ScanOnlyRelevant(replies, AwaitSuccess(id));
    RelevantIsFilter(replies, id);
  }

  lemma {:induction false} RelevantIsFilter(replies: seq<Reply>, id: string)
    ensures Relevant(replies, AwaitSuccess(id))
      == Filter(replies, (r: Reply) => r.replyId == Some(id))
  {
    if replies != [] {
      RelevantIsFilter(replies[1..], id);
    }
  }

  /** The world a run of the client talks to. */
  datatype Net = Net(
    render: Command -> string,      // Python `str` of a command dictionary
    session: nat -> Session,        // what the k-th connection delivers
    draw: nat -> RequestNo)         // the k-th `random.randint(1, 1000)`

  /** What an exchange did: the index of the next exchange, the commands it
      wrote, and its outcome; `None` when the server refused the greeting,
      so that the consumer loop never ran. */
  datatype Run<T> = Run(next: nat, events: seq<Event>, result: Result<Option<T>>)

  /** One `_create_cmd` plus `_get_responses` plus consumer loop, as the
      `k`-th exchange of a run. An encoding failure raises before the
      connection opens, an undecodable greeting answer raises before the
      command is written, a refused greeting ends the reply stream at once,
      and otherwise the command is written and the consumer decides. */
  function Exchange<T>(net: Net, k: nat, req: Request, look: string -> Reply -> Verdict<T>): (r: Run<T>)
    ensures r.next == k + 1
    ensures r.events != [] ==> r.events == [Send(Command(req, Decimal(net.draw(k))))]
    ensures r.events != [] <==>
      CreateCmd(net.render, req, net.draw(k)).Ok? && HandshakeAccepted(net.session(k).greeting) == Ok(true)
    ensures r.result == Ok(None) <==>
      CreateCmd(net.render, req, net.draw(k)).Ok? && HandshakeAccepted(net.session(k).greeting) == Ok(false)
    ensures r.events != [] ==>
      r.result == Scan(net.session(k).replies, look(Decimal(net.draw(k)))).MapSome()
  {
    match CreateCmd(net.render, req, net.draw(k))
    case Err(e) => Run(k + 1, [], Err(e))
    case Ok(out) =>
      var s := net.session(k);
      match HandshakeAccepted(s.greeting)
      case Err(e) => Run(k + 1, [], Err(e))
      case Ok(accepted) =>
        if !accepted then Run(k + 1, [], Ok(None))
        else Run(k + 1, [Send(out.command)], Scan(s.replies, look(out.requestId)).MapSome())
  }

  /** The server behind the `k`-th connection accepts the greeting. */
  predicate Greets(net: Net, k: nat) {
    HandshakeAccepted(net.session(k).greeting) == Ok(true)
  }

  /** Every connection from the `k`-th up to, but not including, the
      `n`-th accepts the greeting. */
  predicate GreetsFrom(net: Net, k: nat, n: nat) {
    forall j :: k <= j < n ==> Greets(net, j)
  }
}
