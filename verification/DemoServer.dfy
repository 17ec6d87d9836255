/** demoserver.cpp: the loop that answers every request with a message of a fixed type. */
module DemoServer {
  import opened Wire
  import opened Schema
  import opened Codec
  import opened Dispatch
  import opened ReqRep
  import HandshakeBuilder
  import HandshakeBytes
  import HandshakeFidelity
  import Layout
  import MessageObject
  import SmallMessages

  /** The switch on the type of a request: the reply, or none for an error message. */
  function Reply(t: Int32, sensor: Msg): Option<(Cls, Msg)> {
    match t
    case 0 => Some((Handshake, HandshakeFidelity.MessageMsg(HandshakeBuilder.NEW_MESSAGE)))
    case 2 => Some((SensorMsg, sensor))
    case 5 => None
    case _ => Some((Error, SmallMessages.ErrorMsg([])))
  }

  /** SerializeAsString, which gives no bytes for a message too long. */
  function Sent(c: Cls, m: Msg, ord: Order): Bytes {
    if |Serialize(c, m, ord)| <= MAX_LEN then Serialize(c, m, ord) else []
  }

  /** What the world does to one turn of the loop: to the receive, to the send, and to a parse that
      runs past the end of the request. */
  datatype Turn = Turn(receive: Luck, send: Luck, past: Past)

  /** How a run stands or ended: waiting for a request that has not come; returned from main; ended by
      an exception of a receive; or by one after a request was taken and before its reply was sent. */
  datatype Ending = Waiting | ShutDown | ReceiveFailed | Unanswered

  datatype Service = Service(replies: seq<Bytes>, received: nat, ending: Ending)

  /** The requests `rs` served in order, the first in turn `i`.  A send that returns false is not
      noticed, but the next receive is then out of turn and throws. */
  function Serve(rs: seq<Bytes>, i: nat, sensor: Msg, ord: Order, turns: nat -> Turn): (v: Service)
    ensures v.received <= |rs|
  {
    if rs == [] then Service([], 0, Waiting)
    else if turns(i).receive.Fault? then Service([], 0, ReceiveFailed)
    else
      var o := FromBytes(rs[0], turns(i).past);
      if o.Unknown? then Service([], 1, Unanswered)
      else
        match Reply(Reported(o), sensor)
        case None => Service([], 1, ShutDown)
        case Some(x) =>
          if turns(i).send != Fine then Service([], 1, Unanswered)
          else
            var rest := Serve(rs[1..], i + 1, sensor, ord, turns);
            Service([Sent(x.0, x.1, ord)] + rest.replies, rest.received + 1, rest.ending)
  }

  // ---------------------------------------------------------------- the fixed replies

  /** The bytes sent in reply to a request of type `t`: the handshake of type 1 and version 1, the sensor
      message, or the error message of type 5; and nothing to an error message. */
  predicate IsReplyTo(t: Int32, b: Bytes, sensor: Msg, ord: Order) {
    if t == 0 then b == [8, 1, 16, 1]
    else if t == 2 then
      b == if |Serialize(SensorMsg, sensor, ord)| <= MAX_LEN then Serialize(SensorMsg, sensor, ord) else []
    else t != 5 && b == [8, 5]
  }

  /** What they are decoded as, field by field. */
  predicate ReadsAsReplyTo(t: Int32, b: Bytes, sensor: Msg, past: Past) {
    var o := FromBytes(b, past);
    if t == 0 then o == Decoded(Handshake, Msg(map[1 := VInt(1), 2 := VInt(1)], []))
    else if t == 2 then o == Decoded(SensorMsg, sensor)
    else t != 5 && o == Decoded(Error, Msg(map[1 := VInt(5)], []))
  }

  lemma ReplyBytes(t: Int32, sensor: Msg, ord: Order)
    ensures Reply(t, sensor).None? <==> t == 5
    ensures var x := Reply(t, sensor); x.Some? ==> IsReplyTo(t, Sent(x.value.0, x.value.1, ord), sensor, ord)
  {
    hide Serialize, HandshakeFidelity.MessageMsg;
    HandshakeBytes.NewHandshakeWritten(ord);
    SmallMessages.ErrorWritten([], ord);
  }

  lemma FixedReplies(past: Past)
    ensures FromBytes([8, 1, 16, 1], past) == Decoded(Handshake, Msg(map[1 := VInt(1), 2 := VInt(1)], []))
    ensures FromBytes([8, 5], past) == Decoded(Error, Msg(map[1 := VInt(5)], []))
  {
    hide Serialize, FromBytes, Ok, TypeOf;
    var ord: Order := *;
    var first := HandshakeBuilder.NEW_MESSAGE;
    assert HandshakeFidelity.MessageMsg(first) == Msg(map[1 := VInt(1), 2 := VInt(1)], []) by { NewHandshake(); }
    HandshakeBytes.NewHandshakeWritten(ord);
    HandshakeFidelity.MessageOk(first);
    HandshakeFidelity.TypeOfMessage(first);
    FromBytesUndoesSerialize(Handshake, HandshakeFidelity.MessageMsg(first), ord, past);
    SmallMessages.TypeSelectsClass(5, past);
    assert Layout.Enum(8, 5) == [8, 5];
  }

  lemma NewHandshake()
    ensures HandshakeFidelity.MessageMsg(HandshakeBuilder.NEW_MESSAGE).fields == map[1 := VInt(1), 2 := VInt(1)]
    ensures HandshakeFidelity.MessageMsg(HandshakeBuilder.NEW_MESSAGE).unknown == []
  {
  }

  /** A sensor message that can be sent. */
  ghost predicate IsSensorReply(sensor: Msg, ord: Order) {
    && Ok(SensorMsg, MAX_DEPTH, sensor) && ClassOf(TypeOf(sensor)) == Some(SensorMsg)
    && |Serialize(SensorMsg, sensor, ord)| <= MAX_LEN
  }

  lemma ReplyArrives(t: Int32, b: Bytes, sensor: Msg, ord: Order, past: Past)
    requires IsSensorReply(sensor, ord) && IsReplyTo(t, b, sensor, ord)
    ensures ReadsAsReplyTo(t, b, sensor, past)
  {
    hide Serialize, Ok, FromBytes, TypeOf;
    FixedReplies(past);
    FromBytesUndoesSerialize(SensorMsg, sensor, ord, past);
  }

  // ---------------------------------------------------------------- what a run amounts to

  /** A request parsed in full is answered by its class: a handshake init with a handshake, a control
      message with a sensor message, an error message not at all, and any other with an error message. */
  lemma ReplyByClass(b: Bytes, past: Past)
    requires FromBytes(b, past).Decoded?
    ensures var o := FromBytes(b, past);
            && (Reported(o) == 5 <==> o.c == Error)
            && (Reported(o) == 0 <==> o.c == HandshakeInit)
            && (Reported(o) == 2 <==> o.c == Control)
  {
    hide FromBytes, TypeOf, Parse;
    DispatchIsSound(b, past);
  }

  /** A request whose turn ends with a reply. */
  predicate Answered(b: Bytes, turn: Turn) {
    var o := FromBytes(b, turn.past);
    !turn.receive.Fault? && !o.Unknown? && Reported(o) != 5 && turn.send == Fine
  }

  /** Each reply answers the request at its own position, is the message fixed for the type that request
      reports, and is decoded as that message; and as many are sent as requests received, less the one a
      run stopped at after taking it. */
  lemma {:induction false} EachRequestGetsItsReply(rs: seq<Bytes>, i: nat, sensor: Msg, ord: Order, turns: nat -> Turn,
                                                   past: Past)
    requires IsSensorReply(sensor, ord)
    ensures var v := Serve(rs, i, sensor, ord, turns);
            && |v.replies| == v.received - (if v.ending.ShutDown? || v.ending.Unanswered? then 1 else 0)
            && v.received <= |rs|
            && (forall k | 0 <= k < |v.replies| ::
                  && Answered(rs[k], turns(i + k))
                  && var t := Reported(FromBytes(rs[k], turns(i + k).past));
                     IsReplyTo(t, v.replies[k], sensor, ord) && ReadsAsReplyTo(t, v.replies[k], sensor, past))
  {
    hide FromBytes, Reported, Sent, IsSensorReply, IsReplyTo, ReadsAsReplyTo, HandshakeFidelity.MessageMsg;
    if rs != [] && Answered(rs[0], turns(i)) {
      var t := Reported(FromBytes(rs[0], turns(i).past));
      var v, rest := Serve(rs, i, sensor, ord, turns), Serve(rs[1..], i + 1, sensor, ord, turns);
      EachRequestGetsItsReply(rs[1..], i + 1, sensor, ord, turns, past);
      ReplyBytes(t, sensor, ord);
      ReplyArrives(t, v.replies[0], sensor, ord, past);
      forall k | 0 <= k < |v.replies|
        ensures Answered(rs[k], turns(i + k))
        ensures var t := Reported(FromBytes(rs[k], turns(i + k).past));
                IsReplyTo(t, v.replies[k], sensor, ord) && ReadsAsReplyTo(t, v.replies[k], sensor, past)
      {
        if k > 0 {
          assert rs[k] == rs[1..][k - 1] && v.replies[k] == rest.replies[k - 1];
          assert Answered(rs[1..][k - 1], turns(i + 1 + (k - 1)));
        }
      }
    }
  }

  /** All requests are answered, counting turns from `i`. */
  predicate AllGoWell(rs: seq<Bytes>, i: nat, turns: nat -> Turn) {
    forall k | 0 <= k < |rs| :: Answered(rs[k], turns(i + k))
  }

  /** How a run ends, for all requests whether or not they parse: it goes on if and only if every request
      is answered.  Otherwise it ends at the first that is not: by the receive, by a shutdown exactly
      if a request was taken that reports an error message, or with the request taken and unanswered. */
  lemma {:induction false} HowItEnds(rs: seq<Bytes>, i: nat, sensor: Msg, ord: Order, turns: nat -> Turn)
    ensures var v := Serve(rs, i, sensor, ord, turns);
            var n := |v.replies|;
            && (v.ending == Waiting <==> AllGoWell(rs, i, turns))
            && (v.ending != Waiting ==>
                  && n < |rs| && AllGoWell(rs[..n], i, turns) && !Answered(rs[n], turns(i + n))
                  && (v.ending == ReceiveFailed <==> turns(i + n).receive.Fault?)
                  && (v.ending == ShutDown <==>
                        var o := FromBytes(rs[n], turns(i + n).past);
                        !turns(i + n).receive.Fault? && !o.Unknown? && Reported(o) == 5))
  {
    hide FromBytes, Reported, Sent;
    if rs != [] {
      OneThenTheRest(rs, i, turns);
      if Answered(rs[0], turns(i)) {
        HowItEnds(rs[1..], i + 1, sensor, ord, turns);
        var v, rest := Serve(rs, i, sensor, ord, turns), Serve(rs[1..], i + 1, sensor, ord, turns);
        var n := |v.replies|;
        if v.ending != Waiting {
          assert rs[..n][1..] == rs[1..][..n - 1];
          OneThenTheRest(rs[..n], i, turns);
          assert rs[1..][n - 1] == rs[n] && i + 1 + (n - 1) == i + n;
        }
      }
    }
  }

  lemma OneThenTheRest(rs: seq<Bytes>, i: nat, turns: nat -> Turn)
    requires rs != []
    ensures AllGoWell(rs, i, turns) <==> Answered(rs[0], turns(i)) && AllGoWell(rs[1..], i + 1, turns)
  {
    hide Answered;
    if AllGoWell(rs, i, turns) {
      assert Answered(rs[0], turns(i)) by { assert Answered(rs[0], turns(i + 0)); }
      forall k | 0 <= k < |rs[1..]| ensures Answered(rs[1..][k], turns(i + 1 + k)) {
        assert Answered(rs[k + 1], turns(i + (k + 1)));
      }
    }
    if Answered(rs[0], turns(i)) && AllGoWell(rs[1..], i + 1, turns) {
      forall k | 0 <= k < |rs| ensures Answered(rs[k], turns(i + k)) {
        if k > 0 {
          assert Answered(rs[1..][k - 1], turns(i + 1 + (k - 1)));
        }
      }
    }
  }

  // ---------------------------------------------------------------- over the network

  /** `b` is what the loop sends in reply to the request `q`. */
  predicate IsDemoReply(q: Bytes, b: Bytes, past: Past, sensor: Msg, ord: Order) {
    var o := FromBytes(q, past);
    !o.Unknown? && IsReplyTo(Reported(o), b, sensor, ord)
  }

  /** The replies of a run are such. */
  lemma {:induction false} ServeRepliesAreDemo(rs: seq<Bytes>, i: nat, sensor: Msg, ord: Order, turns: nat -> Turn,
                                               k: nat)
    requires k < |Serve(rs, i, sensor, ord, turns).replies|
    ensures k < |rs|
    ensures IsDemoReply(rs[k], Serve(rs, i, sensor, ord, turns).replies[k], turns(i + k).past, sensor, ord)
  {
    hide FromBytes, Reported, Sent, Reply, IsReplyTo;
    ReplyBytes(Reported(FromBytes(rs[0], turns(i).past)), sensor, ord);
    if k > 0 {
      ServeRepliesAreDemo(rs[1..], i + 1, sensor, ord, turns, k - 1);
      assert rs[1..][k - 1] == rs[k] && i + 1 + (k - 1) == i + k;
    }
  }

  lemma RepliesAreDemo(rs: seq<Bytes>, sensor: Msg, ord: Order, turns: nat -> Turn)
    ensures var replies := Serve(rs, 0, sensor, ord, turns).replies;
            && |replies| <= |rs|
            && forall k | 0 <= k < |replies| :: IsDemoReply(rs[k], replies[k], turns(k).past, sensor, ord)
  {
    hide IsDemoReply;
    var replies := Serve(rs, 0, sensor, ord, turns).replies;
    if replies != [] {
      ServeRepliesAreDemo(rs, 0, sensor, ord, turns, |replies| - 1);
    }
    forall k | 0 <= k < |replies| ensures IsDemoReply(rs[k], replies[k], turns(k).past, sensor, ord) {
      ServeRepliesAreDemo(rs, 0, sensor, ord, turns, k);
    }
  }

  /** A run of client, network and server in which the server is the demo: whatever it sends while it owes
      a reply is the reply of the loop to the request it holds, the k-th decoded with `pasts(k)`. */
  ghost predicate DemoServes(events: seq<Event>, pasts: nat -> Past, sensor: Msg, ord: Order) {
    forall i | 0 <= i < |events| && events[i].ServerSend? ::
      var s := Run(events[..i]);
      s.server.busy && s.heard != [] ==>
        IsDemoReply(s.heard[|s.heard| - 1], events[i].b, pasts(|s.heard| - 1), sensor, ord)
  }

  lemma DemoServesPrefix(events: seq<Event>, pasts: nat -> Past, sensor: Msg, ord: Order)
    requires events != [] && DemoServes(events, pasts, sensor, ord)
    ensures DemoServes(events[..|events| - 1], pasts, sensor, ord)
  {
    hide IsDemoReply, Run;
    var before := events[..|events| - 1];
    forall i | 0 <= i < |before| && before[i].ServerSend?
      ensures var s := Run(before[..i]);
              s.server.busy && s.heard != [] ==>
                IsDemoReply(s.heard[|s.heard| - 1], before[i].b, pasts(|s.heard| - 1), sensor, ord)
    {
      assert before[..i] == events[..i] && before[i] == events[i];
    }
  }

  /** Every answer the server gave is the demo's to the request at the same position. */
  lemma {:induction false} AnswersAreDemo(events: seq<Event>, pasts: nat -> Past, sensor: Msg, ord: Order)
    requires DemoServes(events, pasts, sensor, ord)
    ensures var s := Run(events);
            |s.answered| <= |s.heard|
            && forall k | 0 <= k < |s.answered| ::
                 IsDemoReply(s.heard[k], s.answered[k].1, pasts(k), sensor, ord)
  {
    hide IsDemoReply, DemoServes, HistoryAgrees, TurnsAgree, Step;
    RepliesAnswerRequests(events);
    if events != [] {
      var n := |events| - 1;
      DemoServesPrefix(events, pasts, sensor, ord);
      AnswersAreDemo(events[..n], pasts, sensor, ord);
      RepliesAnswerRequests(events[..n]);
      OneMoreAnswer(events, pasts, sensor, ord);
      var s, s' := Run(events[..n]), Run(events);
      forall k | 0 <= k < |s'.answered| ensures IsDemoReply(s'.heard[k], s'.answered[k].1, pasts(k), sensor, ord) {
        if k < |s.answered| {
          assert s'.heard[k] == s.heard[k] && s'.answered[k] == s.answered[k];
        }
      }
    }
  }

  /** Only a send that takes effect answers, and it answers the request heard last. */
  lemma StepAnswers(s: System, e: Event)
    ensures var s' := Step(s, e);
            && s.heard <= s'.heard
            && (s'.answered == s.answered
                || (e.ServerSend? && s.server.busy && s'.heard == s.heard
                    && s'.answered == s.answered + [(Last(s.heard), e.b)]))
  {
  }

  lemma OneMoreAnswer(events: seq<Event>, pasts: nat -> Past, sensor: Msg, ord: Order)
    requires events != [] && DemoServes(events, pasts, sensor, ord)
    ensures var s, s' := Run(events[..|events| - 1]), Run(events);
            && s.heard <= s'.heard
            && (s'.answered == s.answered
                || (|s'.answered| == |s.answered| + 1 && s'.answered[..|s.answered|] == s.answered
                    && |s'.heard| == |s'.answered|
                    && IsDemoReply(s'.heard[|s.answered|], s'.answered[|s.answered|].1, pasts(|s.answered|),
                                   sensor, ord)))
  {
    hide IsDemoReply, Firsts, Seconds, Step;
    var n := |events| - 1;
    RunAgrees(events[..n]);
    assert Run(events) == Step(Run(events[..n]), events[n]);
    StepAnswers(Run(events[..n]), events[n]);
  }

  /** The client's k-th reply is decoded, whole, as the message the demo fixes for the type that its k-th
      request reports to the server. */
  lemma ClientGetsDemoReply(events: seq<Event>, pasts: nat -> Past, sensor: Msg, ord: Order, past: Past, k: nat)
    requires DemoServes(events, pasts, sensor, ord) && IsSensorReply(sensor, ord)
    requires k < |Run(events).learned|
    ensures var s := Run(events);
            && k < |s.asked| && s.learned[k].0 == s.asked[k]
            && var o := FromBytes(s.asked[k], pasts(k));
               && !o.Unknown? && Reported(o) != 5
               && IsReplyTo(Reported(o), s.learned[k].1, sensor, ord)
               && ReadsAsReplyTo(Reported(o), s.learned[k].1, sensor, past)
  {
    hide Run, FromBytes, Reported, IsSensorReply, DemoServes, Serialize;
    RepliesAnswerRequests(events);
    AnswersAreDemo(events, pasts, sensor, ord);
    var s := Run(events);
    var t := Reported(FromBytes(s.asked[k], pasts(k)));
    ReplyArrives(t, s.learned[k].1, sensor, ord, past);
  }

  // ---------------------------------------------------------------- main

  /** After `i` requests, with `out` sent, the rest of the run is what Serve does from there. */
  predicate Progress(rs: seq<Bytes>, i: nat, out: seq<Bytes>, sensor: Msg, ord: Order, turns: nat -> Turn)
    requires i <= |rs|
  {
    var whole, rest := Serve(rs, 0, sensor, ord, turns), Serve(rs[i..], i, sensor, ord, turns);
    |out| == i && whole == Service(out + rest.replies, i + rest.received, rest.ending)
  }

  lemma ProgressStep(rs: seq<Bytes>, i: nat, out: seq<Bytes>, sensor: Msg, ord: Order, turns: nat -> Turn)
    requires i < |rs| && Progress(rs, i, out, sensor, ord, turns)
    ensures var whole, turn := Serve(rs, 0, sensor, ord, turns), turns(i);
            var o := FromBytes(rs[i], turn.past);
            if turn.receive.Fault? then whole == Service(out, i, ReceiveFailed)
            else if o.Unknown? then whole == Service(out, i + 1, Unanswered)
            else
              var x := Reply(Reported(o), sensor);
              if x.None? then whole == Service(out, i + 1, ShutDown)
              else if turn.send != Fine then whole == Service(out, i + 1, Unanswered)
              else Progress(rs, i + 1, out + [Sent(x.value.0, x.value.1, ord)], sensor, ord, turns)
  {
    hide FromBytes, Reported, Sent, Reply;
    assert rs[i..][1..] == rs[i + 1..];
    assert out + [] == out;
    forall x: Bytes, y ensures out + ([x] + y) == out + [x] + y {}
  }

  /** The loop of main, run until the requests waiting at the socket are used up.  At its head as many
      replies have been sent as requests received, unless the last send returned false.  Both ways of
      receiving come back only once there is a request. */
  method ServeRequests(server: Server, blocking: bool, sensor: Msg, ord: Order, turns: nat -> Turn)
    returns (ending: Ending)
    requires server.Valid() && !server.socket.busy && server.socket.outbox == []
    modifies server
    ensures var v := Serve(old(server.socket.inbox), 0, sensor, ord, turns);
            && ending == v.ending && server.socket.outbox == v.replies
            && server.socket.inbox == old(server.socket.inbox)[v.received..]
            && server.Valid() && (ending == Waiting ==> server.MustRecv())
    ensures |server.socket.outbox| <= |old(server.socket.inbox)|
    ensures forall k | 0 <= k < |server.socket.outbox| ::
              IsDemoReply(old(server.socket.inbox)[k], server.socket.outbox[k], turns(k).past, sensor, ord)
    ensures ending == Waiting <==> AllGoWell(old(server.socket.inbox), 0, turns)
  {
    hide FromBytes, Reported, Serialize, Reply, Progress;
    ghost var rs := server.socket.inbox;
    var i: nat := 0;
    HowItEnds(rs, 0, sensor, ord, turns);
    RepliesAreDemo(rs, sensor, ord, turns);
    assert Progress(rs, 0, [], sensor, ord, turns) by { ProgressStart(rs, sensor, ord, turns); }
    while server.socket.busy || server.socket.inbox != []
      invariant server.Valid() && i <= |rs| && server.socket.inbox == rs[i..]
      invariant server.socket.busy ==>
                  Serve(rs, 0, sensor, ord, turns) == Service(server.socket.outbox, i, Unanswered)
      invariant !server.socket.busy ==>
                  |server.socket.outbox| == i && Progress(rs, i, server.socket.outbox, sensor, ord, turns)
      decreases |server.socket.inbox|, if server.socket.busy then 1 else 0
    {
      if !server.socket.busy { ProgressStep(rs, i, server.socket.outbox, sensor, ord, turns); }
      var request := server.Receive(blocking, turns(i).receive, turns(i).past);
      if request.Threw? { return if server.socket.busy then Unanswered else ReceiveFailed; }
      if request.value.Unknown? { return Unanswered; }
      var reply := Reply(Reported(request.value), sensor);
      if reply.None? { return ShutDown; }
      var m := new MessageObject.MessageObject(reply.value.0, reply.value.1);
      var sent := server.SendMessage(m, ord, turns(i).send);
      i := i + 1;
      if sent.Threw? { return Unanswered; }
    }
    ProgressEnd(rs, i, server.socket.outbox, sensor, ord, turns);
    return Waiting;
  }

  lemma ProgressStart(rs: seq<Bytes>, sensor: Msg, ord: Order, turns: nat -> Turn)
    ensures Progress(rs, 0, [], sensor, ord, turns)
  {
    assert rs[0..] == rs;
  }

  lemma ProgressEnd(rs: seq<Bytes>, i: nat, out: seq<Bytes>, sensor: Msg, ord: Order, turns: nat -> Turn)
    requires i <= |rs| && rs[i..] == [] && Progress(rs, i, out, sensor, ord, turns)
    ensures Serve(rs, 0, sensor, ord, turns) == Service(out, i, Waiting)
  {
    assert out + [] == out;
  }
}
