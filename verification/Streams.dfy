/** The worker (cmd/verifoxx/stream.go): frames in, frames out, one session for the whole stream. */
module Streams {
  import opened Programs
  import opened Evaluator
  import opened Packs
  import opened Sessions
  import opened Engines
  import opened Framed

  datatype Option<T> = None | Some(value: T)

  /** The JSON codec, as functions: decode fails on a malformed document, encode on a response that is
      too long. The frame is an argument of encode because the text of an error depends on it. */
  datatype Codec = Codec(decode: seq<byte> -> Option<Pack>, encode: (seq<byte>, Response) -> Option<seq<byte>>)

  // ----- what a stream of frames is answered

  function ResponseOf(p: Program, l: Limits, codec: Codec, frame: seq<byte>): Response
    requires ProgramValid(p) && RequirementIDsFit(p)
  {
    match codec.decode(frame)
    case None => Rejected
    case Some(pack) => ResponseTo(p, l, pack)
  }

  /** The payload sent for a frame; an internal failure and an overlong response send nothing. */
  function ReplyTo(p: Program, l: Limits, codec: Codec, frame: seq<byte>): (reply: Option<seq<byte>>)
    requires ProgramValid(p) && RequirementIDsFit(p)
    ensures reply.Some? ==> |reply.value| <= MAX_OUTPUT_PAYLOAD
  {
    var response := ResponseOf(p, l, codec, frame);
    if response == Failed then None
    else
      var encoded := codec.encode(frame, response);
      if encoded.Some? && |encoded.value| <= MAX_OUTPUT_PAYLOAD then encoded else None
  }

  /** The replies up to the first frame that has none, and whether every frame has one. */
  function Replies(p: Program, l: Limits, codec: Codec, frames: seq<seq<byte>>): (r: (seq<seq<byte>>, bool))
    requires ProgramValid(p) && RequirementIDsFit(p)
    ensures Writable(r.0)
  {
    if frames == [] then ([], true)
    else
      match ReplyTo(p, l, codec, frames[0])
      case None => ([], false)
      case Some(reply) => var more := Replies(p, l, codec, frames[1..]); ([reply] + more.0, more.1)
  }

  /** Reply i answers frame i, whatever the other frames are. */
  lemma {:induction false} RepliesAt(p: Program, l: Limits, codec: Codec, frames: seq<seq<byte>>, i: nat)
    requires ProgramValid(p) && RequirementIDsFit(p)
    ensures var r := Replies(p, l, codec, frames);
      && |r.0| <= |frames| && (r.1 <==> |r.0| == |frames|)
      && (i < |r.0| ==> ReplyTo(p, l, codec, frames[i]) == Some(r.0[i]))
      && (|r.0| < |frames| ==> ReplyTo(p, l, codec, frames[|r.0|]) == None)
  {
    hide ProgramValid, RequirementIDsFit, ReplyTo;
    if frames != [] && ReplyTo(p, l, codec, frames[0]).Some? {
      RepliesAt(p, l, codec, frames[1..], if i == 0 then 0 else i - 1);
    }
  }

  /** Every frame is answered, malformed and rejected ones too, except where evaluation has too many rows
      or the encoded answer is too long. */
  lemma {:induction false} AnsweredExactly(p: Program, l: Limits, codec: Codec, frame: seq<byte>)
    requires ProgramValid(p) && RequirementIDsFit(p)
    ensures var input := codec.decode(frame);
      var accepted := input.Some? && PackAccepted(l, input.value.requests, input.value.evidence);
      var failed := accepted && TooManyRows(p, |input.value.requests|);
      var response := if accepted && !failed then ResponseTo(p, l, input.value) else Rejected;
      ReplyTo(p, l, codec, frame).Some?
      <==> !failed && codec.encode(frame, response).Some? && |codec.encode(frame, response).value| <= 67108864
  {
    hide ProgramValid, RequirementIDsFit, PackAccepted, TooManyRows, ReportOf;
  }

  /** A client that writes readable frames gets back, for as many as are answered, the replies in order. */
  lemma {:induction false} ClientReads(p: Program, l: Limits, codec: Codec, ps: seq<seq<byte>>)
    requires ProgramValid(p) && RequirementIDsFit(p) && Readable(ps)
    ensures Frames(Stream(ps)) == (ps, true)
    ensures var replies := Replies(p, l, codec, ps).0;
      Readable(replies) ==> Frames(Stream(replies)) == (replies, true)
  {
    hide ProgramValid, RequirementIDsFit, Frames, Replies;
    StreamRoundTrip(ps);
    var replies := Replies(p, l, codec, ps).0;
    if Readable(replies) { StreamRoundTrip(replies); }
  }

  /** The writer delivers these frames one after the other. */
  predicate DeliversStream(script: seq<Answer>, ps: seq<seq<byte>>)
    decreases ps
  {
    ps == [] || (DeliversFrame(script, |ps[0]|) && DeliversStream(FrameAfter(script, |ps[0]|), ps[1..]))
  }

  lemma {:induction false} DeliversNext(script: seq<Answer>, p: seq<byte>, more: seq<seq<byte>>)
    ensures DeliversStream(script, [p] + more)
       <==> DeliversFrame(script, |p|) && DeliversStream(FrameAfter(script, |p|), more)
  {
    hide DeliversFrame, FrameAfter;
    assert ([p] + more)[1..] == more;
  }

  // ----- the worker

  predicate FrameFits(p: Program, l: Limits, codec: Codec, frame: seq<byte>) {
    codec.decode(frame).Some? ==> PackFits(p, l, codec.decode(frame).value)
  }

  predicate FramesFit(p: Program, l: Limits, codec: Codec, frames: seq<seq<byte>>) {
    forall i :: 0 <= i < |frames| ==> FrameFits(p, l, codec, frames[i])
  }

  lemma {:induction false} FramesFitNext(p: Program, l: Limits, codec: Codec, s: seq<byte>)
    requires FramesFit(p, l, codec, Frames(s).0) && Next(s).Frame?
    ensures FrameFits(p, l, codec, Next(s).payload) && FramesFit(p, l, codec, Frames(Next(s).rest).0)
  {
    hide FrameFits, Next;
    FrameShrinks(s);
    var frames, more := Frames(s).0, Frames(Next(s).rest).0;
    assert frames[0] == Next(s).payload;
    assert forall i :: 0 <= i < |more| ==> more[i] == frames[i + 1];
  }

  /** Process: one frame decoded, evaluated and answered. */
  method Process(session: Session, codec: Codec, frame: seq<byte>, destination: Sink) returns (ok: bool)
    requires ProgramValid(session.compiled) && RequirementIDsFit(session.compiled)
    requires LimitsFit(session.limits) && session.Linked()
    requires FrameFits(session.compiled, session.limits, codec, frame)
    modifies session.builder, session.batch, session.context, session.numeric, session.output, destination
    ensures session.Linked()
    ensures var reply := ReplyTo(session.compiled, session.limits, codec, frame);
      && (ok <==> reply.Some? && DeliversFrame(old(destination.script), |reply.value|))
      && (reply.None? ==> unchanged(destination))
      && (reply.Some? ==> var n := FrameSent(old(destination.script), |reply.value|);
            && destination.written == old(destination.written) + Encode(reply.value)[..n]
            && destination.script == FrameAfter(old(destination.script), |reply.value|))
      && (ok ==> destination.written == old(destination.written) + Encode(reply.value))
  {
    hide ProgramValid, RequirementIDsFit, ResponseTo, PackFits, DeliversFrame, FrameSent, FrameAfter, Encode;
    var input := codec.decode(frame);
    var response := Rejected;
    if input.Some? { response := Respond(session, input.value); }
    if response == Failed { return false; }
    var encoded := codec.encode(frame, response);
    if encoded.None? { return false; }
    var writer := new FrameWriter();
    ok := writer.Write(destination, encoded.value);
  }

  /** The worker has sent the replies `sent`; what is still to read and to answer completes them. */
  predicate Pending(p: Program, l: Limits, codec: Codec, input: (seq<seq<byte>>, bool), answers: seq<Answer>,
                    sent: seq<seq<byte>>, rest: seq<byte>, left: seq<Answer>)
    requires ProgramValid(p) && RequirementIDsFit(p)
  {
    var replies, frames := Replies(p, l, codec, input.0), Frames(rest);
    var more := Replies(p, l, codec, frames.0);
    && Writable(sent) && frames.1 == input.1
    && replies == (sent + more.0, more.1)
    && DeliversStream(answers, replies.0) == DeliversStream(left, more.0)
  }

  lemma {:induction false} PendingStart(p: Program, l: Limits, codec: Codec, s: seq<byte>, answers: seq<Answer>)
    requires ProgramValid(p) && RequirementIDsFit(p)
    ensures Pending(p, l, codec, Frames(s), answers, [], s, answers)
  {
    hide ProgramValid, RequirementIDsFit, Frames, Replies, DeliversStream;
    var r := Replies(p, l, codec, Frames(s).0);
    assert [] + r.0 == r.0;
  }

  /** What was sent so far is the beginning of what is to be sent; when nothing can be read any more it
      is all. */
  lemma {:induction false} PendingEnd(p: Program, l: Limits, codec: Codec, input: (seq<seq<byte>>, bool),
                                      answers: seq<Answer>, sent: seq<seq<byte>>, rest: seq<byte>, left: seq<Answer>)
    requires ProgramValid(p) && RequirementIDsFit(p) && Pending(p, l, codec, input, answers, sent, rest, left)
    ensures Stream(sent) <= Stream(Replies(p, l, codec, input.0).0)
    ensures !Next(rest).Frame? ==>
      && input.1 == (Next(rest) == End)
      && Replies(p, l, codec, input.0) == (sent, true) && DeliversStream(answers, sent)
  {
    hide ProgramValid, RequirementIDsFit, Next, ReplyTo, Stream;
    FrameShrinks(rest);
    var more := Replies(p, l, codec, Frames(rest).0).0;
    StreamJoin(sent, more);
    assert sent + [] == sent;
  }

  /** One more frame. */
  lemma {:induction false} PendingFrame(p: Program, l: Limits, codec: Codec, input: (seq<seq<byte>>, bool),
                                        answers: seq<Answer>, sent: seq<seq<byte>>, rest: seq<byte>, left: seq<Answer>)
    requires ProgramValid(p) && RequirementIDsFit(p) && Pending(p, l, codec, input, answers, sent, rest, left)
    requires Next(rest).Frame?
    ensures var replies, reply := Replies(p, l, codec, input.0), ReplyTo(p, l, codec, Next(rest).payload);
      match reply
      case None => replies == (sent, false)
      case Some(b) =>
        var n := FrameSent(left, |b|);
        && Stream(sent) + Encode(b)[..n] <= Stream(replies.0)
        && (DeliversStream(answers, replies.0) ==> DeliversFrame(left, |b|))
        && (DeliversFrame(left, |b|) ==>
              Pending(p, l, codec, input, answers, sent + [b], Next(rest).rest, FrameAfter(left, |b|)))
  {
    hide ProgramValid, RequirementIDsFit, Next, ReplyTo, Stream, Encode, Frames, DeliversStream, DeliversFrame, FrameAfter;
    FrameShrinks(rest);
    var frames, reply := Frames(rest).0, ReplyTo(p, l, codec, Next(rest).payload);
    assert frames == [Next(rest).payload] + Frames(Next(rest).rest).0 && frames[1..] == Frames(Next(rest).rest).0;
    if reply.None? {
      assert sent + [] == sent;
    } else {
      var more := Replies(p, l, codec, frames[1..]).0;
      assert sent + ([reply.value] + more) == sent + [reply.value] + more;
      DeliversNext(left, reply.value, more);
      PartSent(sent, reply.value, more, FrameSent(left, |reply.value|));
    }
  }

  /** runStream: what is sent is always a prefix of the replies to the complete frames. The exit code is
      zero only when the stream ended cleanly and every frame was answered in full, and when the reader
      reports no fault it is zero exactly then. */
  method RunStream(session: Session, codec: Codec, source: Source, destination: Sink) returns (code: nat)
    requires ProgramValid(session.compiled) && RequirementIDsFit(session.compiled)
    requires LimitsFit(session.limits) && session.Linked()
    requires FramesFit(session.compiled, session.limits, codec, Frames(source.rest).0)
    modifies session.builder, session.batch, session.context, session.numeric, session.output, source, destination
    ensures code <= 1
    ensures var input := Frames(old(source.rest));
      var replies := Replies(session.compiled, session.limits, codec, input.0);
      && old(destination.written) <= destination.written <= old(destination.written) + Stream(replies.0)
      && (code == 0 ==> input.1 && replies.1 && destination.written == old(destination.written) + Stream(replies.0))
      && (Quiet(old(source.script)) ==>
            (code == 0 <==> input.1 && replies.1 && DeliversStream(old(destination.script), replies.0)))
      && (Quiet(old(source.script)) && DeliversStream(old(destination.script), replies.0) ==>
            destination.written == old(destination.written) + Stream(replies.0))
  {
    hide ProgramValid, RequirementIDsFit, FrameFits, FramesFit, ReplyTo, Replies, Pending, Next, Frames, StoppedBy,
         Suffix, Quiet, Stream, Encode, DeliversStream, DeliversFrame, FrameSent, FrameAfter;
    ghost var p, l, input, answers := session.compiled, session.limits, Frames(source.rest), destination.script;
    var reader := new FrameReader();
    ghost var sent: seq<seq<byte>> := [];
    SuffixStart(source.script);
    PendingStart(p, l, codec, source.rest, answers);
    StreamOfNone();
    assert destination.written + [] == destination.written;
    while true
      invariant session.Linked() && Suffix(old(source.script), source.script)
      invariant FramesFit(p, l, codec, Frames(source.rest).0)
      invariant Writable(sent) && destination.written == old(destination.written) + Stream(sent)
      invariant Pending(p, l, codec, input, answers, sent, source.rest, destination.script)
      decreases |source.rest|
    {
      ghost var rest, script, left := source.rest, source.script, destination.script;
      FrameShrinks(rest);
      PendingEnd(p, l, codec, input, answers, sent, rest, left);
      var step := reader.Read(source);
      SuffixTransitive(old(source.script), script, source.script);
      FaultIsLoud(old(source.script), source.script);
      if step == Broken { return 1; }
      if step == End { return 0; }
      PendingFrame(p, l, codec, input, answers, sent, rest, left);
      FramesFitNext(p, l, codec, rest);
      var ok := Process(session, codec, step.payload, destination);
      if !ok { return 1; }
      ghost var reply := ReplyTo(p, l, codec, step.payload).value;
      StreamAppend(sent, reply);
      sent := sent + [reply];
    }
  }

  /** A frame sent in part is a part of the stream. */
  lemma {:induction false} PartSent(sent: seq<seq<byte>>, reply: seq<byte>, more: seq<seq<byte>>, n: nat)
    requires Writable(sent + ([reply] + more)) && Writable(sent) && |reply| <= MAX_OUTPUT_PAYLOAD
    requires n <= |Encode(reply)|
    ensures Stream(sent) + Encode(reply)[..n] <= Stream(sent + ([reply] + more))
  {
    hide Encode, Stream;
    assert sent + ([reply] + more) == sent + [reply] + more;
    assert forall i :: 0 <= i < |more| ==> more[i] == (sent + ([reply] + more))[|sent| + 1 + i];
    StreamJoin(sent + [reply], more);
    StreamAppend(sent, reply);
  }
}
