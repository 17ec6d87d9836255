/** The request/reply protocol: a Client on a ZeroMQ REQ socket, a Server on a REP socket, and an
    in-order lossless network between them (ZeroMQ RFC 28). */
module ReqRep {
  import opened Wire
  import opened Schema
  import opened Codec
  import opened Dispatch
  import Serializer
  import MessageObject

  /** A socket of either kind.  A REP socket is busy from receiving a request until it has replied,
      a REQ socket from sending a request until it has received the reply. */
  datatype Socket = Socket(busy: bool, inbox: seq<Bytes>, outbox: seq<Bytes>)

  const IDLE := Socket(false, [], [])

  /** How an operation goes wrong from outside: not at all; it would have to wait; zmq reports an error. */
  datatype Luck = Fine | Busy | Fault

  /** What an operation comes back with.  Zmq errors are thrown, and so is asking out of turn (EFSM). */
  datatype Result<+T> = Done(value: T) | Again | Threw

  /** Takes the next message if it is the socket's turn to receive. */
  function Take(s: Socket, turn: bool, luck: Luck): (Socket, Result<Bytes>) {
    if !turn || luck.Fault? then (s, Threw)
    else if s.inbox == [] then (s, Again)
    else (Socket(!s.busy, s.inbox[1..], s.outbox), Done(s.inbox[0]))
  }

  /** Hands over a message if it is the socket's turn to send. */
  function Give(s: Socket, turn: bool, b: Bytes, luck: Luck): (Socket, Result<()>) {
    if !turn || luck.Fault? then (s, Threw)
    else if luck.Busy? then (s, Again)
    else (Socket(!s.busy, s.inbox, s.outbox + [b]), Done(()))
  }

  // ---------------------------------------------------------------- the two ends and the network

  /** `mustSend` is the server's m_send_is_next_action.  The rest is history: what the client sent
      and the server received, and for each reply the request its side takes it to answer. */
  datatype System = System(
    client: Socket, server: Socket, mustSend: bool,
    asked: seq<Bytes>, heard: seq<Bytes>,
    answered: seq<(Bytes, Bytes)>, learned: seq<(Bytes, Bytes)>)

  const INIT := System(IDLE, IDLE, false, [], [], [], [])

  datatype Event =
    | ClientSend(b: Bytes, luck: Luck)
    | ClientReceive(luck: Luck)
    | ServerReceive(luck: Luck)
    | ServerSend(b: Bytes, luck: Luck)
    | DeliverRequest
    | DeliverReply

  function Last(s: seq<Bytes>): Bytes {
    if s == [] then [] else s[|s| - 1]
  }

  function Step(s: System, e: Event): System {
    match e
    case ClientSend(b, luck) =>
      var (client, r) := Give(s.client, !s.client.busy, b, luck);
      if r.Done? then s.(client := client, asked := s.asked + [b]) else s
    case ClientReceive(luck) =>
      var (client, r) := Take(s.client, s.client.busy, luck);
      if r.Done? then s.(client := client, learned := s.learned + [(Last(s.asked), r.value)]) else s
    case ServerReceive(luck) =>
      var (server, r) := Take(s.server, !s.server.busy, luck);
      if r.Done? then s.(server := server, mustSend := true, heard := s.heard + [r.value]) else s
    case ServerSend(b, luck) =>
      var (server, r) := Give(s.server, s.server.busy, b, luck);
      if r.Done? then s.(server := server, mustSend := false, answered := s.answered + [(Last(s.heard), b)]) else s
    case DeliverRequest =>
      if s.client.outbox == [] then s
      else
        s.(client := s.client.(outbox := s.client.outbox[1..]),
           server := s.server.(inbox := s.server.inbox + [s.client.outbox[0]]))
    case DeliverReply =>
      if s.server.outbox == [] then s
      else
        s.(server := s.server.(outbox := s.server.outbox[1..]),
           client := s.client.(inbox := s.client.inbox + [s.server.outbox[0]]))
  }

  function Run(events: seq<Event>): System {
    if events == [] then INIT else Step(Run(events[..|events| - 1]), events[|events| - 1])
  }

  // ---------------------------------------------------------------- what every run keeps

  function Firsts(s: seq<(Bytes, Bytes)>): (r: seq<Bytes>)
    ensures |r| == |s| && forall i | 0 <= i < |s| :: r[i] == s[i].0
  {
    seq(|s|, i requires 0 <= i < |s| => s[i].0)
  }

  function Seconds(s: seq<(Bytes, Bytes)>): (r: seq<Bytes>)
    ensures |r| == |s| && forall i | 0 <= i < |s| :: r[i] == s[i].1
  {
    seq(|s|, i requires 0 <= i < |s| => s[i].1)
  }

  function One(b: bool): nat {
    if b then 1 else 0
  }

  function InFlight(s: System): nat {
    |s.client.outbox| + |s.server.inbox|
  }

  function RepliesInFlight(s: System): nat {
    |s.server.outbox| + |s.client.inbox|
  }

  predicate TurnsAgree(s: System) {
    && s.mustSend == s.server.busy
    && InFlight(s) + One(s.server.busy) + RepliesInFlight(s) == One(s.client.busy)
  }

  predicate HistoryAgrees(s: System) {
    && s.asked == s.heard + s.server.inbox + s.client.outbox
    && |s.heard| == |s.answered| + One(s.server.busy)
    && |s.asked| == |s.learned| + One(s.client.busy)
    && Firsts(s.answered) == s.heard[..|s.answered|]
    && Firsts(s.learned) == s.asked[..|s.learned|]
    && Seconds(s.answered) == Seconds(s.learned) + s.client.inbox + s.server.outbox
  }

  lemma StepKeepsTurns(s: System, e: Event)
    requires TurnsAgree(s)
    ensures TurnsAgree(Step(s, e))
  {
  }

  lemma Appended(s: seq<(Bytes, Bytes)>, p: (Bytes, Bytes))
    ensures Firsts(s + [p]) == Firsts(s) + [p.0] && Seconds(s + [p]) == Seconds(s) + [p.1]
  {
  }

  lemma StepKeepsHistory(s: System, e: Event)
    requires TurnsAgree(s) && HistoryAgrees(s)
    ensures HistoryAgrees(Step(s, e))
  {
    if e.ClientSend? || e.ServerReceive? || e.DeliverRequest? {
      RequestKeepsHistory(s, e);
    } else {
      ReplyKeepsHistory(s, e);
    }
  }

  lemma RequestKeepsHistory(s: System, e: Event)
    requires TurnsAgree(s) && HistoryAgrees(s) && (e.ClientSend? || e.ServerReceive? || e.DeliverRequest?)
    ensures HistoryAgrees(Step(s, e))
  {
    hide Firsts, Seconds;
  }

  lemma ReplyKeepsHistory(s: System, e: Event)
    requires TurnsAgree(s) && HistoryAgrees(s) && (e.ClientReceive? || e.ServerSend? || e.DeliverReply?)
    ensures HistoryAgrees(Step(s, e))
  {
    hide Firsts, Seconds;
    match e
    case ClientReceive(luck) => Appended(s.learned, (Last(s.asked), Last(s.client.inbox)));
    case ServerSend(b, luck) => Appended(s.answered, (Last(s.heard), b));
    case DeliverReply =>
  }

  lemma InitAgrees()
    ensures TurnsAgree(INIT) && HistoryAgrees(INIT)
  {
  }

  lemma {:induction false} RunAgrees(events: seq<Event>)
    ensures TurnsAgree(Run(events)) && HistoryAgrees(Run(events))
  {
    hide TurnsAgree, HistoryAgrees, Step;
    if events == [] {
      InitAgrees();
    } else {
      RunAgrees(events[..|events| - 1]);
      StepKeepsTurns(Run(events[..|events| - 1]), events[|events| - 1]);
      StepKeepsHistory(Run(events[..|events| - 1]), events[|events| - 1]);
    }
  }

  /** Turn-taking, after any events: the server's flag says exactly that the REP socket owes a reply;
      and while the client waits, exactly one of a request in flight, a reply owed and a reply in
      flight is there, and otherwise none. */
  lemma TurnTaking(events: seq<Event>)
    ensures var s := Run(events);
            && s.mustSend == s.server.busy
            && (s.mustSend <==> Take(s.server, !s.server.busy, Fine).1 == Threw)
            && (!s.mustSend <==> forall b :: Give(s.server, s.server.busy, b, Fine).1 == Threw)
            && InFlight(s) + One(s.mustSend) + RepliesInFlight(s) == One(s.client.busy)
  {
    hide Run;
    RunAgrees(events);
    assert Run(events).server.busy ==> Give(Run(events).server, true, [], Fine).1 == Done(());
  }

  /** The k-th reply the client receives is the one the server sent to the k-th request, on receiving
      the bytes the client had sent as its k-th request. */
  lemma RepliesAnswerRequests(events: seq<Event>)
    ensures var s := Run(events);
            && s.heard <= s.asked && s.learned <= s.answered
            && |s.learned| <= |s.answered| <= |s.learned| + 1 && |s.answered| <= |s.heard|
            && forall k | 0 <= k < |s.learned| :: s.learned[k].0 == s.answered[k].0 == s.heard[k] == s.asked[k]
  {
    hide Run, Firsts, Seconds;
    RunAgrees(events);
    var s := Run(events);
    forall k | 0 <= k < |s.learned|
      ensures s.learned[k] == s.answered[k] && s.learned[k].0 == s.heard[k] == s.asked[k]
    {
      assert Firsts(s.answered)[k] == s.heard[k];
      assert Firsts(s.learned)[k] == s.asked[k];
      assert Seconds(s.answered)[k] == Seconds(s.learned)[k];
    }
  }

  /** No run gets stuck: wherever a waiting client is, five events that all go well bring it a reply. */
  lemma ExchangeCompletes(events: seq<Event>, b: Bytes)
    requires Run(events).client.busy
    ensures var s0 := Run(events);
            var s1 := Step(Step(s0, DeliverRequest), ServerReceive(Fine));
            var s2 := Step(Step(s1, ServerSend(b, Fine)), DeliverReply);
            var s3 := Step(s2, ClientReceive(Fine));
            !s3.client.busy && |s3.learned| == |s0.learned| + 1
  {
    hide Run, HistoryAgrees;
    RunAgrees(events);
  }

  /** Messages survive the exchange: what is sent as the k-th request or reply is decoded as such. */
  lemma MessagesArrive(events: seq<Event>, k: nat, c: Cls, m: Msg, ord: Order, past: Past)
    requires IsTop(c) && Ok(c, MAX_DEPTH, m) && ClassOf(TypeOf(m)) == Some(c)
    requires |Serialize(c, m, ord)| <= MAX_LEN
    ensures var s := Run(events);
            var sent := Serialize(c, m, ord);
            && |s.heard| <= |s.asked| && |s.learned| <= |s.answered|
            && (k < |s.heard| && s.asked[k] == sent ==> FromBytes(s.heard[k], past) == Decoded(c, m))
            && (k < |s.learned| && s.answered[k].1 == sent ==> FromBytes(s.learned[k].1, past) == Decoded(c, m))
  {
    hide Run, Serialize, Ok, FromBytes, TypeOf;
    FromBytesUndoesSerialize(c, m, ord, past);
    RepliesAnswerRequests(events);
  }

  // ---------------------------------------------------------------- receiving, over whole runs

  /** What a receive of the client and one of the server get after any events: out of turn and on an error
      they throw, and it is Again exactly when it is their turn and nothing has come; otherwise the client
      takes the reply after those it has, and the server the request after those it has. */
  lemma ReceivesInOrder(events: seq<Event>, luck: Luck)
    ensures var s := Run(events);
            var r := Take(s.client, s.client.busy, luck).1;
            && (r == Threw <==> !s.client.busy || luck.Fault?)
            && (r == Again <==> s.client.busy && !luck.Fault? && s.client.inbox == [])
            && (r.Done? <==> s.client.busy && !luck.Fault? && s.client.inbox != [])
            && (r.Done? ==>
                  var k := |s.learned|;
                  k < |s.answered| && k < |s.asked| && r == Done(s.answered[k].1)
                  && Step(s, ClientReceive(luck)).learned == s.learned + [(s.asked[k], s.answered[k].1)])
    ensures var s := Run(events);
            var r := Take(s.server, !s.server.busy, luck).1;
            && (r == Threw <==> s.server.busy || luck.Fault?)
            && (r == Again <==> !s.server.busy && !luck.Fault? && s.server.inbox == [])
            && (r.Done? <==> !s.server.busy && !luck.Fault? && s.server.inbox != [])
            && (r.Done? ==>
                  var k := |s.heard|;
                  k < |s.asked| && r == Done(s.asked[k])
                  && Step(s, ServerReceive(luck)).heard == s.heard + [s.asked[k]])
  {
    hide Run, Firsts, Seconds;
    RunAgrees(events);
    var s := Run(events);
    if s.client.inbox != [] {
      assert Seconds(s.answered)[|s.learned|] == s.client.inbox[0];
    }
  }

  /** Polling is free: with a receive left out that takes no message, a run goes on in the same way.
      However often it is polled, the message that comes later is the one that would have come. */
  lemma {:induction false} PollingIsInvisible(before: seq<Event>, e: Event, more: seq<Event>)
    requires var s := Run(before);
             || (e.ClientReceive? && !Take(s.client, s.client.busy, e.luck).1.Done?)
             || (e.ServerReceive? && !Take(s.server, !s.server.busy, e.luck).1.Done?)
    ensures Run(before + [e] + more) == Run(before + more)
    decreases |more|
  {
    hide Step, Take;
    if more == [] {
      NothingHappens(Run(before), e);
      assert before + [e] + more == before + [e] && before + more == before;
      assert (before + [e])[..|before|] == before;
    } else {
      var n := |more| - 1;
      PollingIsInvisible(before, e, more[..n]);
      var with, without := before + [e] + more, before + more;
      assert with[..|with| - 1] == before + [e] + more[..n] && without[..|without| - 1] == before + more[..n];
    }
  }

  lemma NothingHappens(s: System, e: Event)
    requires || (e.ClientReceive? && !Take(s.client, s.client.busy, e.luck).1.Done?)
             || (e.ServerReceive? && !Take(s.server, !s.server.busy, e.luck).1.Done?)
    ensures Step(s, e) == s
  {
  }

  // ---------------------------------------------------------------- the objects

  /** click::Server over a REP socket. */
  class Server {
    var socket: Socket
    var sendIsNextAction: bool

    predicate Valid()
      reads this
    {
      sendIsNextAction == socket.busy
    }

    constructor ()
      ensures Valid() && socket == Socket(false, [], [])
    {
      socket, sendIsNextAction := IDLE, false;
    }

    /** must_send: exactly when a receive would be out of turn. */
    function MustSend(): (r: bool)
      requires Valid()
      reads this
      ensures r <==> Take(socket, !socket.busy, Fine).1 == Threw
    {
      sendIsNextAction
    }

    /** must_recv: exactly when a send would be out of turn. */
    function MustRecv(): (r: bool)
      requires Valid()
      reads this
      ensures forall b :: r <==> Give(socket, socket.busy, b, Fine).1 == Threw
    {
      !sendIsNextAction
    }

    /** send(const string&): the flag drops only on success.  Out of turn and on an error it throws. */
    method Send(b: Bytes, luck: Luck) returns (r: Result<()>)
      requires Valid()
      modifies this
      ensures Valid()
      ensures !old(socket).busy || luck.Fault? ==> r == Threw && socket == old(socket)
      ensures old(socket).busy && luck.Busy? ==> r == Again && socket == old(socket)
      ensures old(socket).busy && luck.Fine? ==>
                r == Done(()) && socket == Socket(false, old(socket).inbox, old(socket).outbox + [b])
      ensures forall s: System | s.server == old(socket) && s.mustSend == old(sendIsNextAction) ::
                var s' := Step(s, ServerSend(b, luck)); s'.server == socket && s'.mustSend == sendIsNextAction
    {
      var (s, status) := Give(socket, socket.busy, b, luck);
      socket, r := s, status;
      if r.Done? {
        sendIsNextAction := false;
      }
    }

    /** send(const Message&). A message too long to serialize goes out as no bytes. */
    method SendMessage(m: MessageObject.MessageObject, ord: Order, luck: Luck) returns (r: Result<()>)
      requires Valid()
      modifies this, m`cache
      ensures Valid()
      ensures !old(socket).busy || luck.Fault? ==> r == Threw && socket == old(socket)
      ensures old(socket).busy && luck.Busy? ==> r == Again && socket == old(socket)
      ensures old(socket).busy && luck.Fine? ==>
                var x := Serialize(m.cls, m.value, ord);
                var b := if |x| <= MAX_LEN then x else [];
                r == Done(()) && socket == Socket(false, old(socket).inbox, old(socket).outbox + [b])
    {
      hide Serialize;
      var bytes := m.SerializeAsString(ord);
      r := Send(if bytes.Some? then bytes.value else [], luck);
    }

    /** receive(block).  Out of turn and on an error it throws; with no request waiting it returns an empty
        pointer, unless it blocks; and otherwise it takes the first request and decodes it.  The flag
        rises before the bytes are decoded, so also when decoding throws. */
    method Receive(block: bool, luck: Luck, past: Past) returns (r: Result<Outcome>)
      requires Valid()
      requires block ==> socket.busy || luck.Fault? || socket.inbox != []
      modifies this
      ensures Valid() && (block ==> r != Again)
      ensures old(socket).busy || luck.Fault? ==> r == Threw && socket == old(socket)
      ensures !old(socket).busy && !luck.Fault? && old(socket).inbox == [] ==> r == Again && socket == old(socket)
      ensures !old(socket).busy && !luck.Fault? && old(socket).inbox != [] ==>
                && r == Done(FromBytes(old(socket).inbox[0], past))
                && socket == Socket(true, old(socket).inbox[1..], old(socket).outbox)
      ensures forall s: System | s.server == old(socket) && s.mustSend == old(sendIsNextAction) ::
                var s' := Step(s, ServerReceive(luck)); s'.server == socket && s'.mustSend == sendIsNextAction
    {
      hide FromBytes;
      var (s, status) := Take(socket, !socket.busy, luck);
      socket := s;
      match status {
        case Done(b) =>
          sendIsNextAction := true;
          var outcome := Serializer.Decode(b, past);
          r := Done(outcome);
        case Again => r := Again;
        case Threw => r := Threw;
      }
    }
  }

  /** click::Client over a REQ socket. */
  class Client {
    var socket: Socket

    constructor ()
      ensures socket == Socket(false, [], [])
    {
      socket := IDLE;
    }

    /** send(const Message&). */
    method SendMessage(m: MessageObject.MessageObject, ord: Order, luck: Luck) returns (r: Result<()>)
      modifies this, m`cache
      ensures old(socket).busy || luck.Fault? ==> r == Threw && socket == old(socket)
      ensures !old(socket).busy && luck.Busy? ==> r == Again && socket == old(socket)
      ensures var x := Serialize(m.cls, m.value, ord);
              var b := if |x| <= MAX_LEN then x else [];
              && (!old(socket).busy && luck.Fine? ==>
                    r == Done(()) && socket == Socket(true, old(socket).inbox, old(socket).outbox + [b]))
              && forall s: System | s.client == old(socket) :: Step(s, ClientSend(b, luck)).client == socket
    {
      hide Serialize;
      var bytes := m.SerializeAsString(ord);
      var (s, status) := Give(socket, !socket.busy, if bytes.Some? then bytes.value else [], luck);
      socket, r := s, status;
    }

    /** receive(block), with the same outcomes. */
    method Receive(block: bool, luck: Luck, past: Past) returns (r: Result<Outcome>)
      requires block ==> !socket.busy || luck.Fault? || socket.inbox != []
      modifies this
      ensures block ==> r != Again
      ensures !old(socket).busy || luck.Fault? ==> r == Threw && socket == old(socket)
      ensures old(socket).busy && !luck.Fault? && old(socket).inbox == [] ==> r == Again && socket == old(socket)
      ensures old(socket).busy && !luck.Fault? && old(socket).inbox != [] ==>
                && r == Done(FromBytes(old(socket).inbox[0], past))
                && socket == Socket(false, old(socket).inbox[1..], old(socket).outbox)
      ensures forall s: System | s.client == old(socket) :: Step(s, ClientReceive(luck)).client == socket
    {
      hide FromBytes;
      var (s, status) := Take(socket, socket.busy, luck);
      socket := s;
      match status {
        case Done(b) =>
          var outcome := Serializer.Decode(b, past);
          r := Done(outcome);
        case Again => r := Again;
        case Threw => r := Threw;
      }
    }
  }
}
