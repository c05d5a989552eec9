/** `NfcTransport`'s two exchanges with a FIDO authenticator over ISO-DEP:
    selecting the FIDO applet, and sending one CTAP message and collecting
    a response that may arrive in several frames (status 61xx: more data,
    fetch it with GET RESPONSE). The tag is not modelled as a device: each
    `transceive` call takes the next entry of a list of replies, so every
    property here holds for whatever the authenticator answers. */
module NfcExchange {
  import opened Results
  import opened Bytes
  import opened Apdu

  /** What one `isoDep.transceive` call does: return a response frame, or
      throw `TagLostException`, `SecurityException` (the tag object is out
      of date), or another `IOException` (such as a timeout). */
  datatype Reply = Frame(bytes: seq<byte>) | TagLost | AccessDenied | IoFailure

  /** How `sendCtapCommand` ends: with the reassembled response, or with
      the exception it lets escape. */
  datatype Outcome =
    | Response(bytes: seq<byte>)           // the concatenated response data
    | ApduError(sw1: byte, sw2: byte)      // `Exception("APDU error: …")`
    | LinkLost                             // `TagLostException`, rethrown after `close()`
    | ConnectionLost                       // `IOException("NFC connection lost")`
    | IoError                              // any other `IOException` of `transceive`

  /** An exchange: its outcome, the commands sent in order, and whether
      the transport closed its connection. */
  datatype Exchange = Exchange(outcome: Outcome, sent: seq<seq<byte>>, closed: bool)

  /** The reply to the `i`-th `transceive` call. A call with no scripted
      reply left fails as a timeout would. */
  function ReplyAt(replies: seq<Reply>, i: nat): Reply
  {
    if i < |replies| then replies[i] else IoFailure
  }

  /** A frame with status 61xx: more response data is waiting. */
  predicate MoreData(reply: Reply)
  {
    reply.Frame? && |reply.bytes| >= 2 && reply.bytes[|reply.bytes| - 2] == 0x61
  }

  /** The data of a frame: everything before its two status bytes. A frame
      shorter than that carries none. */
  function Payload(reply: Reply): (r: seq<byte>)
    ensures reply.Frame? && |reply.bytes| >= 2 ==> reply.bytes == r + reply.bytes[|reply.bytes| - 2..]
  {
    if reply.Frame? && |reply.bytes| >= 2 then reply.bytes[..|reply.bytes| - 2] else []
  }

  /** The data of a run of frames, in order. */
  function Payloads(replies: seq<Reply>): seq<byte>
  {
    if |replies| == 0 then [] else Payload(replies[0]) + Payloads(replies[1..])
  }

  /** The response loop of `sendCtapCommand`, from the reply to the latest
      command on. `replies` answers this and every later `transceive`;
      `acc` is the data collected so far. `sent` lists the GET RESPONSE
      commands the loop sends. */
  function Collect(replies: seq<Reply>, acc: seq<byte>): (r: Exchange)
    ensures |r.sent| <= |replies|
    decreases |replies|
  {
    match ReplyAt(replies, 0)
    case TagLost => Exchange(LinkLost, [], true)
    case AccessDenied => Exchange(ConnectionLost, [], false)
    case IoFailure => Exchange(IoError, [], false)
    case Frame(response) =>
      if |response| < 2 then Exchange(Response(acc), [], false)
      else
        var sw1 := response[|response| - 2];
        var sw2 := response[|response| - 1];
        var data := acc + response[..|response| - 2];
        if sw1 == 0x90 && sw2 == 0x00 then Exchange(Response(data), [], false)
        else if sw1 == 0x61 then
          var rest := Collect(replies[1..], data);
          Exchange(rest.outcome, [GetResponse(sw2)] + rest.sent, rest.closed)
        else Exchange(ApduError(sw1, sw2), [], false)
  }

  /** `sendCtapCommand`: wrap the CTAP message in an APDU, send it, and
      collect the response frames. */
  function SendCtapCommand(command: ByteArray, replies: seq<Reply>): (r: Exchange)
    ensures 1 <= |r.sent| <= |replies| + 1
    ensures r.sent[0] == BuildApdu(command)
  {
    var rest := Collect(replies, []);
    Exchange(rest.outcome, [BuildApdu(command)] + rest.sent, rest.closed)
  }

  /** `selectFidoApplet`: send `SELECT_FIDO_APPLET` and report whether the
      applet answered 90 00. A `SecurityException` reads as "not
      selected"; a lost tag or another I/O error escapes. */
  function SelectFidoApplet(reply: Reply): (r: Result<bool, Outcome>)
    ensures r == Success(true) <==> reply.Frame? && IsSuccess(reply.bytes)
    ensures r.Failure? <==> reply.TagLost? || reply.IoFailure?
  {
    match reply
    case Frame(response) => Success(IsSuccess(response))
    case AccessDenied => Success(false)
    case TagLost => Failure(LinkLost)
    case IoFailure => Failure(IoError)
  }

  /** How a reply that is not 61xx ends the loop, given the data `acc`
      collected before it. */
  function Verdict(reply: Reply, acc: seq<byte>): Outcome
  {
    match reply
    case TagLost => LinkLost
    case AccessDenied => ConnectionLost
    case IoFailure => IoError
    case Frame(response) =>
      if |response| < 2 then Response(acc)
      else if IsSuccess(response) then Response(acc + Payload(reply))
      else ApduError(response[|response| - 2], response[|response| - 1])
  }

  /** The length a 61xx frame says is still waiting. */
  function Remaining(reply: Reply): byte
    requires MoreData(reply)
  {
    reply.bytes[|reply.bytes| - 1]
  }

  /** `sent` are the GET RESPONSE commands for the first `|sent|` replies,
      all of them 61xx frames. */
  predicate AnswersMoreData(replies: seq<Reply>, sent: seq<seq<byte>>)
  {
    && |sent| <= |replies|
    && forall i :: 0 <= i < |sent| ==> MoreData(replies[i]) && sent[i] == GetResponse(Remaining(replies[i]))
  }

  /** A reply that is not 61xx ends the loop at once. */
  lemma {:induction false} CollectStops(replies: seq<Reply>, acc: seq<byte>)
    requires !MoreData(ReplyAt(replies, 0))
    ensures Collect(replies, acc) == Exchange(Verdict(ReplyAt(replies, 0), acc), [], ReplyAt(replies, 0).TagLost?)
  {
  }

  /** A 61xx reply sends one GET RESPONSE and continues with the next
      reply, its data collected. */
  lemma {:induction false} CollectMore(replies: seq<Reply>, acc: seq<byte>)
    requires MoreData(ReplyAt(replies, 0))
    ensures var rest := Collect(replies[1..], acc + Payload(replies[0]));
            Collect(replies, acc) == Exchange(rest.outcome, [GetResponse(Remaining(replies[0]))] + rest.sent, rest.closed)
  {
  }

  lemma {:induction false} AnswersMoreDataCons(replies: seq<Reply>, sent: seq<seq<byte>>)
    requires |replies| > 0 && MoreData(replies[0]) && AnswersMoreData(replies[1..], sent)
    ensures AnswersMoreData(replies, [GetResponse(Remaining(replies[0]))] + sent)
  {
    var all := [GetResponse(Remaining(replies[0]))] + sent;
    forall i | 1 <= i < |all| ensures MoreData(replies[i]) && all[i] == GetResponse(Remaining(replies[i])) {
      assert replies[i] == replies[1..][i - 1];
      assert all[i] == sent[i - 1];
    }
  }

  /** The loop sends one GET RESPONSE for each leading 61xx frame, and
      stops at the first reply that is not one. */
  lemma {:induction false} CollectRequests(replies: seq<Reply>, acc: seq<byte>)
    ensures AnswersMoreData(replies, Collect(replies, acc).sent)
    ensures !MoreData(ReplyAt(replies, |Collect(replies, acc).sent|))
    decreases |replies|
  {
    if MoreData(ReplyAt(replies, 0)) {
      var data := acc + Payload(replies[0]);
      CollectMore(replies, acc);
      CollectRequests(replies[1..], data);
      AnswersMoreDataCons(replies, Collect(replies[1..], data).sent);
      assert ReplyAt(replies, |Collect(replies, acc).sent|) == ReplyAt(replies[1..], |Collect(replies[1..], data).sent|);
    } else {
      CollectStops(replies, acc);
    }
  }

  lemma {:induction false} ReplyAtTail(replies: seq<Reply>, k: nat)
    requires |replies| > 0
    ensures ReplyAt(replies, k + 1) == ReplyAt(replies[1..], k)
  {
  }

  lemma {:induction false} NoPayloads(replies: seq<Reply>)
    ensures Payloads(replies[..0]) == []
  {
    assert replies[..0] == [];
  }

  lemma {:induction false} PayloadsCons(replies: seq<Reply>, k: nat)
    requires 0 < k <= |replies|
    ensures Payloads(replies[..k]) == Payload(replies[0]) + Payloads(replies[1..][..k - 1])
  {
    assert replies[..k][1..] == replies[1..][..k - 1];
  }

  /** The reply after the last GET RESPONSE decides the outcome, with the
      data of every earlier frame collected in order. */
  lemma {:induction false} CollectVerdict(replies: seq<Reply>, acc: seq<byte>)
    ensures var r := Collect(replies, acc);
            r.outcome == Verdict(ReplyAt(replies, |r.sent|), acc + Payloads(replies[..|r.sent|]))
    decreases |replies|, 1
  {
    if MoreData(ReplyAt(replies, 0)) {
      VerdictAfterMore(replies, acc);
    } else {
      CollectStops(replies, acc);
      NoPayloads(replies);
      assert acc + [] == acc;
    }
  }

  lemma {:induction false} VerdictAfterMore(replies: seq<Reply>, acc: seq<byte>)
    requires MoreData(ReplyAt(replies, 0))
    ensures var r := Collect(replies, acc);
            r.outcome == Verdict(ReplyAt(replies, |r.sent|), acc + Payloads(replies[..|r.sent|]))
    decreases |replies|, 0
  {
    assert |replies| > 0;
    var data := acc + Payload(replies[0]);
    var rest := Collect(replies[1..], data);
    var k := |rest.sent|;
    var ps := Payloads(replies[1..][..k]);
    hide *;
    CollectMore(replies, acc);
    CollectVerdict(replies[1..], data);
    ReplyAtTail(replies, k);
    PayloadsCons(replies, k + 1);
    AppendAssoc(acc, Payload(replies[0]), ps);
  }

  /** The loop closes the connection exactly when the tag is lost. */
  lemma {:induction false} CollectCloses(replies: seq<Reply>, acc: seq<byte>)
    ensures Collect(replies, acc).closed <==> Collect(replies, acc).outcome.LinkLost?
    decreases |replies|
  {
    if MoreData(ReplyAt(replies, 0)) {
      CollectMore(replies, acc);
      CollectCloses(replies[1..], acc + Payload(replies[0]));
    } else {
      CollectStops(replies, acc);
    }
  }

  /** A successful exchange returns the data of every frame received, in
      order, ending at a frame with status 90 00 or one too short to carry
      a status word. */
  lemma {:induction false} ResponseIsConcatenation(command: ByteArray, replies: seq<Reply>)
    ensures var r := SendCtapCommand(command, replies); r.outcome.Response? ==> |r.sent| - 1 < |replies|
    ensures var r := SendCtapCommand(command, replies); r.outcome.Response? ==> replies[|r.sent| - 1].Frame?
    ensures var r := SendCtapCommand(command, replies);
            r.outcome.Response? ==> |replies[|r.sent| - 1].bytes| < 2 || IsSuccess(replies[|r.sent| - 1].bytes)
    ensures var r := SendCtapCommand(command, replies);
            r.outcome.Response? ==> r.outcome.bytes == Payloads(replies[..|r.sent|])
  {
    var rest := Collect(replies, []);
    var k := |rest.sent|;
    var r := SendCtapCommand(command, replies);
    assert r.outcome == rest.outcome && |r.sent| - 1 == k;
    CollectResponse(replies, []);
    if rest.outcome.Response? {
      AppendEmpty(Payloads(replies[..k + 1]));
    }
  }

  /** The loop's response is the data collected before it followed by the
      data of every frame up to the one that ends it. */
  lemma {:induction false} CollectResponse(replies: seq<Reply>, acc: seq<byte>)
    ensures var r := Collect(replies, acc); r.outcome.Response? ==> |r.sent| < |replies|
    ensures var r := Collect(replies, acc); r.outcome.Response? ==> replies[|r.sent|].Frame?
    ensures var r := Collect(replies, acc);
            r.outcome.Response? ==> |replies[|r.sent|].bytes| < 2 || IsSuccess(replies[|r.sent|].bytes)
    ensures var r := Collect(replies, acc);
            r.outcome.Response? ==> r.outcome.bytes == acc + Payloads(replies[..|r.sent| + 1])
  {
    var r := Collect(replies, acc);
    hide *;
    CollectVerdict(replies, acc);
    DecidingReply(replies, |r.sent|, acc, r.outcome);
  }

  /** What an outcome decided by reply `k` says when it is a response. */
  lemma {:induction false} DecidingReply(replies: seq<Reply>, k: nat, acc: seq<byte>, outcome: Outcome)
    requires k <= |replies|
    requires outcome == Verdict(ReplyAt(replies, k), acc + Payloads(replies[..k]))
    ensures outcome.Response? ==> k < |replies|
    ensures outcome.Response? ==> replies[k].Frame?
    ensures outcome.Response? ==> |replies[k].bytes| < 2 || IsSuccess(replies[k].bytes)
    ensures outcome.Response? ==> outcome.bytes == acc + Payloads(replies[..k + 1])
  {
    var ps := Payloads(replies[..k]);
    hide *;
    VerdictResponse(ReplyAt(replies, k), acc + ps);
    ReplyAtFrame(replies, k);
    if outcome.Response? {
      PayloadsPrefix(replies, k);
      AppendAssoc(acc, ps, Payload(replies[k]));
    }
  }

  /** The data of the first `k + 1` replies is that of the first `k`
      followed by that of reply `k`. */
  lemma {:induction false} PayloadsPrefix(replies: seq<Reply>, k: nat)
    requires k < |replies|
    ensures Payloads(replies[..k + 1]) == Payloads(replies[..k]) + Payload(replies[k])
  {
    assert replies[..k + 1] == replies[..k] + [replies[k]];
    PayloadsSnoc(replies[..k], replies[k]);
  }

  lemma {:induction false} AppendAssoc(a: seq<byte>, b: seq<byte>, c: seq<byte>)
    ensures (a + b) + c == a + (b + c)
  {
  }

  lemma {:induction false} AppendEmpty(a: seq<byte>)
    ensures [] + a == a
  {
  }

  lemma {:induction false} ReplyAtFrame(replies: seq<Reply>, k: nat)
    ensures ReplyAt(replies, k).Frame? ==> k < |replies|
    ensures ReplyAt(replies, k).Frame? ==> ReplyAt(replies, k) == replies[k]
  {
  }

  /** A reply ends the loop with a response only when it is a frame with
      status 90 00 or too short for a status word; its data comes last. */
  lemma {:induction false} VerdictResponse(reply: Reply, acc: seq<byte>)
    ensures Verdict(reply, acc).Response? ==> reply.Frame?
    ensures Verdict(reply, acc).Response? ==> |reply.bytes| < 2 || IsSuccess(reply.bytes)
    ensures Verdict(reply, acc).Response? ==> Verdict(reply, acc).bytes == acc + Payload(reply)
  {
  }

  lemma {:induction false} PayloadsSnoc(replies: seq<Reply>, last: Reply)
    ensures Payloads(replies + [last]) == Payloads(replies) + Payload(last)
    decreases |replies|
  {
    if |replies| == 0 {
      assert replies + [last] == [last];
    } else {
      assert (replies + [last])[1..] == replies[1..] + [last];
      PayloadsSnoc(replies[1..], last);
    }
  }

  /** Each GET RESPONSE answers a 61xx frame and asks for the length that
      frame announced; the first command is the wrapped CTAP message. */
  lemma {:induction false} OneGetResponsePerMoreData(command: ByteArray, replies: seq<Reply>)
    ensures var r := SendCtapCommand(command, replies);
            forall i :: 1 <= i < |r.sent| ==>
              MoreData(replies[i - 1]) && r.sent[i] == GetResponse(Remaining(replies[i - 1]))
  {
    var rest := Collect(replies, []);
    CollectRequests(replies, []);
    CollectVerdict(replies, []);
    var r := SendCtapCommand(command, replies);
    forall i | 1 <= i < |r.sent|
      ensures MoreData(replies[i - 1]) && r.sent[i] == GetResponse(replies[i - 1].bytes[|replies[i - 1].bytes| - 1])
    {
      assert r.sent[i] == rest.sent[i - 1];
    }
  }

  /** A status word other than 90 00 and 61xx ends the exchange with that
      status word, after the last 61xx frame's GET RESPONSE. */
  lemma {:induction false} ErrorStatusStops(command: ByteArray, replies: seq<Reply>)
    ensures var r := SendCtapCommand(command, replies); r.outcome.ApduError? ==> |r.sent| - 1 < |replies|
    ensures var r := SendCtapCommand(command, replies);
            r.outcome.ApduError? ==> replies[|r.sent| - 1].Frame? && |replies[|r.sent| - 1].bytes| >= 2
    ensures var r := SendCtapCommand(command, replies);
            r.outcome.ApduError? ==> var b := replies[|r.sent| - 1].bytes; b[|b| - 2..] == [r.outcome.sw1, r.outcome.sw2]
    ensures var r := SendCtapCommand(command, replies);
            r.outcome.ApduError? ==> r.outcome.sw1 != 0x61 && !IsSuccess(replies[|r.sent| - 1].bytes)
    ensures var r := SendCtapCommand(command, replies); r.outcome.ApduError? ==> !r.closed
  {
    var rest := Collect(replies, []);
    var k := |rest.sent|;
    CollectRequests(replies, []);
    CollectVerdict(replies, []);
    CollectCloses(replies, []);
    if rest.outcome.ApduError? {
      var b := replies[k].bytes;
      assert b[|b| - 2..] == [b[|b| - 2], b[|b| - 1]];
    }
  }

  /** A frame of fewer than two bytes ends the loop with the data collected
      so far, sending nothing more. */
  lemma {:induction false} ShortFrameEnds(replies: seq<Reply>, acc: seq<byte>)
    requires |replies| > 0 && replies[0].Frame? && |replies[0].bytes| < 2
    ensures Collect(replies, acc) == Exchange(Response(acc), [], false)
  {
  }

  /** Only a lost tag closes the connection. */
  lemma {:induction false} ClosedOnlyOnTagLost(command: ByteArray, replies: seq<Reply>)
    ensures var r := SendCtapCommand(command, replies);
            r.closed <==> r.outcome.LinkLost?
  {
    CollectCloses(replies, []);
  }

  /** A response split over two frames: the data of both comes back, and
      the one 61 05 status causes one GET RESPONSE for 5 bytes. */
  lemma {:induction false} TwoFrameResponse(command: ByteArray)
    ensures SendCtapCommand(command, [Frame([0x01, 0x02, 0x61, 0x05]), Frame([0x03, 0x90, 0x00])])
            == Exchange(Response([0x01, 0x02, 0x03]), [BuildApdu(command), [0x00, 0xC0, 0x00, 0x00, 0x05]], false)
  {
    var replies := [Frame([0x01, 0x02, 0x61, 0x05]), Frame([0x03, 0x90, 0x00])];
    assert replies[1..] == [Frame([0x03, 0x90, 0x00])];
    CollectMore(replies, []);
    assert Payload(replies[0]) == [0x01, 0x02];
    CollectStops(replies[1..], [0x01, 0x02]);
    assert Verdict(replies[1], [0x01, 0x02]) == Response([0x01, 0x02, 0x03]);
    assert GetResponse(Remaining(replies[0])) == [0x00, 0xC0, 0x00, 0x00, 0x05];
  }
}
