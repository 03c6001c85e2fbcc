/** One C++ client and the server with all its other clients: what the handshake
    guarantees while everybody else's steps interleave. */
module Handshake {
  import opened Bytes
  import opened Credentials
  import opened Crypto
  import opened Session
  import opened Invariants
  import opened Traffic
  import opened Accounts
  import C = ClientNetwork

  /** The client under study connects as socket h. Both channels are queues: the
      client has taken the first `got` messages sent to it, the server the first
      `delivered` messages the client sent. */
  datatype System = System(
    srv: Server, cl: C.ClientState, h: Socket, joined: bool,
    uname: Bytes, passwd: Bytes, got: nat, delivered: nat)

  datatype Move =
    | Others(e: Event)                                        // accept or poll anyone else
    | Connect(t: nat)                                         // the server accepts h
    | Serve(p: nat, t0: nat, t1: nat)                         // the server polls h
    | Break(p: nat)                                           // h's connection is lost
    | Take                                                    // the client takes its next message
    | Speak(text: Bytes)                                      // the client sends a frame

  /** What the server's poll of h finds. */
  function Incoming(y: System, m: Move): Input
    requires m.Serve?
  {
    if y.delivered < |y.cl.sent| then Received(y.cl.sent[y.delivered], m.t0, m.t1) else Quiet
  }

  predicate AtH(y: System, p: nat) {
    p < |y.srv.clients| && y.srv.clients[p].sock == y.h
  }

  predicate Can(y: System, m: Move) {
    match m
    case Others(e) =>
      Enabled(y.srv, e) && (if e.Accepting? then e.sock != y.h else y.srv.clients[e.p].sock != y.h)
    case Connect(t) => !y.joined && Enabled(y.srv, Accepting(y.h, t))
    case Serve(p, t0, t1) => AtH(y, p) && Enabled(y.srv, Polling(p, Incoming(y, m)))
    case Break(p) => AtH(y, p) && Enabled(y.srv, Polling(p, Hangup))
    case Take => y.joined && !y.cl.crashed && y.got < |Sent(y.srv, y.h)|
    case Speak(text) => y.cl.hasHandshook && !y.cl.crashed
  }

  /** Before the handshake is over the client's next message goes to it, afterwards
      to the display. */
  function TakeNext(y: System): System
    requires y.got < |Sent(y.srv, y.h)|
  {
    var m := Sent(y.srv, y.h)[y.got];
    y.(got := y.got + 1,
       cl := if y.cl.hasHandshook then y.cl else C.HandshakeStep(y.cl, m, y.uname, y.passwd))
  }

  function Go(y: System, m: Move): System
    requires Can(y, m)
  {
    match m
    case Others(e) => y.(srv := Step(y.srv, e))
    case Connect(t) => y.(srv := Step(y.srv, Accepting(y.h, t)), joined := true)
    case Serve(p, t0, t1) =>
      y.(srv := Step(y.srv, Polling(p, Incoming(y, m))),
         delivered := if y.delivered < |y.cl.sent| then y.delivered + 1 else y.delivered)
    case Break(p) => y.(srv := Step(y.srv, Polling(p, Hangup)))
    case Take => TakeNext(y)
    case Speak(text) => y.(cl := y.cl.(sent := y.cl.sent + [AesSealed(y.cl.aesKey, text)]))
  }

  /** A key stored for h, if any, was left behind: it cannot be sealed for. */
  predicate OnlyStale(y: System) {
    y.h in y.srv.keys ==> RefusesServerKey(y.srv.keys[y.h])
  }

  predicate OwnKeysLoad(y: System) {
    Loads(KeyText(y.cl.own)) && Loads(KeyText(y.srv.publicKey))
  }

  /** The client before it connects; both sides have keys of their own. */
  predicate Start(y: System) {
    && Inv(y.srv) && !y.joined && y.cl == C.Fresh(y.cl.own)
    && y.got == 0 && y.delivered == 0
    && !Live(y.srv, y.h) && OnlyStale(y) && OwnKeysLoad(y)
  }

  /** The credentials fit what can be sealed for the server. */
  predicate Sealable(y: System) {
    C.Greets(KeyText(y.srv.publicKey), y.uname, y.passwd)
  }

  // ---- The invariant ------------------------------------------------------

  /** Everything the server ever sends h: its public key, the request for a key, the
      session key sealed for h, then frames under the session key. */
  predicate Script(y: System, o: seq<Message>) {
    && |o| >= 1 && o[0] == KeyText(y.srv.publicKey)
    && (|o| >= 2 ==> o[1] == KeyRequest)
    && (|o| >= 3 ==> o[2] == RsaSealed(y.cl.own, SERVER_KEY) && !RefusesServerKey(y.cl.own))
    && (forall i :: 3 <= i < |o| ==> ServerSealed(o[i]))
  }

  function Answers(y: System): seq<Message> {
    [RsaSealed(y.srv.publicKey, C.CredentialText(y.uname, y.passwd)), KeyText(y.cl.own)]
  }

  /** How far the client is, by the number of messages it took; it goes nowhere with
      credentials too long to seal. */
  predicate ClientAt(y: System) {
    var c := y.cl;
    if y.got >= 1 && !Sealable(y) then
      c.crashed && !c.hasHandshook && c.aesKey == [] && c.status == C.ReceivedPubKey && c.sent == []
    else
    && !c.crashed
    && (c.hasHandshook <==> y.got >= 3)
    && c.aesKey == (if y.got >= 3 then SERVER_KEY else [])
    && match y.got
       case 0 => c.status == C.HasntBegun && c.sent == []
       case 1 => c.status == C.SentCredentials && c.sent == Answers(y)[..1]
       case 2 => c.status == C.SentPubKey && c.sent == Answers(y)
       case _ =>
         && c.status == C.ReceivedAESKey && Answers(y) <= c.sent
         && forall i :: 2 <= i < |c.sent| ==> ServerSealed(c.sent[i])
  }

  /** Where the server is with h, against what it sent and took. */
  predicate ServerAt(y: System, c: Client) {
    var n := |Sent(y.srv, y.h)|;
    match c.auth
    case Undone => n == 1 && y.delivered == 0 && OnlyStale(y)
    case KeyReceived => n == 2 && y.delivered == 1 && OnlyStale(y)
    case Done => n >= 3 && y.delivered >= 2
    case Failed => false
  }

  predicate InStep(y: System) {
    && Inv(y.srv) && OwnKeysLoad(y)
    && if !y.joined then Start(y)
       else
         && y.h in y.srv.out && Script(y, Sent(y.srv, y.h)) && y.got <= |Sent(y.srv, y.h)|
         && ClientAt(y) && y.delivered <= |y.cl.sent|
         && forall i :: 0 <= i < |y.srv.clients| && y.srv.clients[i].sock == y.h ==> ServerAt(y, y.srv.clients[i])
  }

  /** h is past login, the key transfer is still to come, and somebody's poll sends h
      a direct message. */
  ghost predicate EarlyMessage(y: System, m: Move) {
    && m.Others? && m.e.Polling? && m.e.p < |y.srv.clients|
    && Messages(y.srv, m.e.p, m.e.inp, y.h)
    && exists i :: 0 <= i < |y.srv.clients| && y.srv.clients[i].sock == y.h && y.srv.clients[i].auth == KeyReceived
  }

  // ---- What a poll sends the polled client itself -------------------------

  lemma AdmitSelf(s: Server, p: nat, uname: Bytes, passwd: Bytes)
    requires p < |s.clients| && s.clients[p].sock in s.out
    ensures var k := s.clients[p].sock;
      Sent(Admit(s, p, uname, passwd), k) == Sent(s, k) + [KeyRequest]
  {
    hide JoinFrame, Seal, DoneSockets, Welcome;
  }

  lemma LoginSelf(s: Server, p: nat, credentials: Option<Bytes>)
    requires p < |s.clients| && DistinctSockets(s.clients) && s.clients[p].sock in s.out
    requires s.clients[p].auth == Undone
    ensures var s', k := Login(s, p, credentials), s.clients[p].sock;
      if |s'.clients| == |s.clients| then
        s'.clients[p].auth == KeyReceived && Sent(s', k) == Sent(s, k) + [KeyRequest] && s'.keys == s.keys
      else s'.clients == Without(s.clients, p) && Sent(s', k) == Sent(s, k)
  {
    DisconnectSelf(s, p);
    hide Field, ValidName, NameFree, Admit, Disconnect, Sent;
    if credentials.Some? {
      AdmitSelf(s, p, Field(credentials.value, 0), Field(credentials.value, 1));
      AdmitShape(s, p, Field(credentials.value, 0), Field(credentials.value, 1));
    }
  }

  lemma TransferSelf(s: Server, p: nat, m: Message)
    requires p < |s.clients| && DistinctSockets(s.clients) && s.clients[p].sock in s.out
    requires s.clients[p].auth == KeyReceived && Loads(m)
    ensures var s', k := TransferKey(s, p, m), s.clients[p].sock;
      if RefusesServerKey(Insert(s.keys, k, m.modulus)[k]) then s'.clients == Without(s.clients, p) && Sent(s', k) == Sent(s, k)
      else
        && |s'.clients| == |s.clients| && s'.clients[p].auth == Done
        && Sent(s', k) == Sent(s, k) + [RsaSealed(Insert(s.keys, k, m.modulus)[k], SERVER_KEY)]
  {
    hide LeaveFrame, Seal, DoneSockets, RefusesServerKey;
  }

  lemma SealedTrans(a: seq<Message>, b: seq<Message>, c: seq<Message>)
    requires SealedOnto(a, b) && SealedOnto(b, c)
    ensures SealedOnto(a, c)
  {
    assert forall i :: |a| <= i < |b| ==> c[i] == b[i];
  }

  lemma DirectOnto(s: Server, to: Socket, text: Bytes, k: Socket)
    ensures SealedOnto(Sent(s, k), Sent(SendTo(s, to, Direct(text)), k))
  {
    DirectSealed(text);
    hide Direct;
  }

  lemma RenameSealed(s: Server, p: nat, name: Bytes, k: Socket)
    requires p < |s.clients|
    ensures SealedOnto(Sent(s, k), Sent(Rename(s, p, name), k))
  {
    hide JoinFrame, DoneSockets, CStr;
  }

  lemma ChatSealed(s: Server, p: nat, text: Bytes, t: nat, k: Socket)
    requires p < |s.clients|
    ensures SealedOnto(Sent(s, k), Sent(Chat(s, p, text, t), k))
  {
    hide Disconnect, Broadcast, SealedOnto, Direct, ChatFrame, CStr, Blank;
    var noticed := SendTo(s, s.clients[p].sock, Direct(BLANK_NOTICE));
    DirectOnto(s, s.clients[p].sock, BLANK_NOTICE, k);
    DisconnectHush(s, p, k);
    DisconnectHush(noticed, p, k);
    SealedTrans(Sent(s, k), Sent(noticed, k), Sent(Disconnect(noticed, p), k));
    BroadcastHush(s, CStr(ChatFrame(text, s.clients[p].id)), s.clients[p].sock, k);
    BroadcastShape(s, CStr(ChatFrame(text, s.clients[p].id)), s.clients[p].sock);
  }

  lemma SealedRefl(a: seq<Message>)
    ensures SealedOnto(a, a)
  {
  }

  lemma DispatchSealed(s: Server, p: nat, line: Bytes, k: Socket)
    requires p < |s.clients|
    ensures SealedOnto(Sent(s, k), Sent(Dispatch(s, p, line), k))
  {
    hide Args, FindCommand, Reply, SealedOnto, NotFound, SendTo;
    DirectOnto(s, s.clients[p].sock, NotFound(line), k);
    assert SealedOnto(Sent(s, k), Sent(s, k)) by { SealedRefl(Sent(s, k)); }
    var args := Args(line);
    var cmd := FindCommand(s.cmds, args[0]);
    if cmd.Some? {
      var reply := Reply(s, p, cmd.value.body, args);
      if reply.Some? { DirectOnto(s, reply.value.0, reply.value.1, k); }
    }
  }

  /** Everything a frame makes the server send to anyone is sealed for the session. */
  lemma FrameSealed(s: Server, p: nat, plain: Option<Bytes>, t: nat, k: Socket)
    requires p < |s.clients|
    ensures SealedOnto(Sent(s, k), Sent(Frame(s, p, plain, t), k))
  {
    hide Chat, Dispatch, Disconnect, Rename, Accepted, NameFree, ValidName, SealedOnto, DoneSockets, Direct, Deliver;
    DisconnectHush(s, p, k);
    BroadcastHush(s, [], s.clients[p].sock, k);
    DirectOnto(s, s.clients[p].sock, NOT_SENT_NOTICE, k);
    RenameSealed(s, p, if plain.Some? then Drop(plain.value, 2) else [], k);
    if plain.Some? && plain.value != [] {
      ChatSealed(s, p, plain.value[1..], t, k);
      DispatchSealed(s, p, plain.value[1..], k);
    }
  }

  // ---- Every move keeps server and client in step -------------------------

  lemma ConnectInStep(y: System, m: Move)
    requires InStep(y) && m.Connect? && Can(y, m)
    ensures InStep(Go(y, m))
  {
    StepKeepsInv(y.srv, Accepting(y.h, m.t));
    hide Inv;
  }

  lemma TakeInStep(y: System, m: Move)
    requires InStep(y) && m.Take? && Can(y, m)
    ensures InStep(Go(y, m))
  {
    hide Inv, Sent;
  }

  lemma SpeakInStep(y: System, m: Move)
    requires InStep(y) && m.Speak? && Can(y, m)
    ensures InStep(Go(y, m))
  {
    hide Inv, Sent;
  }

  /** h is gone, perhaps with a last notice. */
  lemma GoneInStep(y: System, y': System, p: nat)
    requires InStep(y) && y.joined && AtH(y, p) && Inv(y'.srv)
    requires y' == y.(srv := y'.srv, delivered := y'.delivered) && y'.delivered <= |y.cl.sent|
    requires y'.srv.clients == Without(y.srv.clients, p) && y'.srv.publicKey == y.srv.publicKey
    requires y.h in y'.srv.out && Script(y', Sent(y'.srv, y.h)) && Sent(y.srv, y.h) <= Sent(y'.srv, y.h)
    ensures InStep(y')
  {
    hide Sent, NamesOk, Script;
    forall i | 0 <= i < |y'.srv.clients|
      ensures y'.srv.clients[i].sock != y.h
    {
      assert y'.srv.clients[i] == y.srv.clients[if i < p then i else i + 1];
    }
  }

  lemma AtHJoined(y: System, p: nat)
    requires InStep(y) && AtH(y, p)
    ensures y.joined
  {
  }

  lemma BreakInStep(y: System, m: Move)
    requires InStep(y) && m.Break? && Can(y, m)
    ensures InStep(Go(y, m))
  {
    PollKeepsInv(y.srv, m.p, Hangup);
    assert y.joined by { AtHJoined(y, m.p); }
    DisconnectSelf(y.srv, m.p);
    hide Inv, Disconnect;
    GoneInStep(y, Go(y, m), m.p);
  }

  /** The server's record of h changes in place: the facts about h to re-establish. */
  lemma ServedInStep(y: System, y': System, p: nat)
    requires InStep(y) && y.joined && AtH(y, p) && Inv(y'.srv)
    requires y' == y.(srv := y'.srv, delivered := y'.delivered) && y'.delivered <= |y.cl.sent|
    requires |y'.srv.clients| == |y.srv.clients| && ClientsStep(y.srv.clients, y'.srv.clients, p)
    requires y'.srv.publicKey == y.srv.publicKey && y.h in y'.srv.out
    requires Sent(y.srv, y.h) <= Sent(y'.srv, y.h) && Script(y', Sent(y'.srv, y.h))
    requires ServerAt(y', y'.srv.clients[p])
    ensures InStep(y')
  {
    hide Sent, NamesOk, Script, ServerAt;
    assert forall i :: 0 <= i < |y'.srv.clients| && i != p ==> y'.srv.clients[i] == y.srv.clients[i];
  }

  lemma ServeUndone(y: System, y': System, p: nat)
    requires InStep(y) && y.joined && AtH(y, p) && Inv(y'.srv)
    requires y' == y.(srv := y'.srv, delivered := y.delivered + 1) && y.delivered < |y.cl.sent|
    requires ClientsStep(y.srv.clients, y'.srv.clients, p)
    requires y'.srv.publicKey == y.srv.publicKey && y.h in y'.srv.out
    requires y.srv.clients[p].auth == Undone
    requires var c' := y'.srv.clients;
      if |c'| == |y.srv.clients| then
        c'[p].auth == KeyReceived && y'.srv.keys == y.srv.keys && Sent(y'.srv, y.h) == Sent(y.srv, y.h) + [KeyRequest]
      else c' == Without(y.srv.clients, p) && Sent(y'.srv, y.h) == Sent(y.srv, y.h)
    ensures InStep(y')
  {
    assert ServerAt(y, y.srv.clients[p]);
    hide Sent, Inv;
    if |y'.srv.clients| == |y.srv.clients| {
      ServedInStep(y, y', p);
    } else {
      GoneInStep(y, y', p);
    }
  }

  lemma SecondAnswer(y: System)
    requires ClientAt(y) && y.delivered == 1 && 1 < |y.cl.sent|
    ensures y.cl.sent[1] == KeyText(y.cl.own)
  {
    assert Answers(y)[..1][0] == Answers(y)[0];
  }

  lemma ServeKey(y: System, m: Move, y': System, p: nat)
    requires InStep(y) && y.joined && m.Serve? && Can(y, m) && p == m.p && Inv(y'.srv)
    requires y' == Go(y, m) && y.delivered < |y.cl.sent| && y.srv.clients[p].auth == KeyReceived
    ensures InStep(y')
  {
    var s, inp := y.srv, Incoming(y, m);
    assert ServerAt(y, s.clients[p]);
    assert inp.m == KeyText(y.cl.own) by { SecondAnswer(y); }
    PollLocal(s, p, inp);
    assert DistinctSockets(s.clients) && y.h in s.out;
    TransferSelf(s, p, inp.m);
    hide Sent, Inv, TransferKey, RecordStep, RefusesServerKey;
    if RefusesServerKey(Insert(s.keys, y.h, y.cl.own)[y.h]) {
      GoneInStep(y, y', p);
    } else {
      ServedInStep(y, y', p);
    }
  }

  lemma ScriptGrows(y: System, y': System)
    requires Script(y, Sent(y.srv, y.h)) && SealedOnto(Sent(y.srv, y.h), Sent(y'.srv, y.h))
    requires |Sent(y.srv, y.h)| >= 3 || Sent(y'.srv, y.h) == Sent(y.srv, y.h)
    requires y'.srv.publicKey == y.srv.publicKey && y'.cl == y.cl && y'.h == y.h
    ensures Script(y', Sent(y'.srv, y'.h))
  {
    hide Sent, ServerSealed;
  }

  lemma ServeDone(y: System, y': System, p: nat, inp: Input)
    requires InStep(y) && y.joined && AtH(y, p) && Inv(y'.srv) && inp.Received?
    requires y' == y.(srv := Poll(y.srv, p, inp), delivered := y.delivered + 1) && y.delivered < |y.cl.sent|
    requires y.srv.clients[p].auth == Done
    ensures InStep(y')
  {
    var s := y.srv;
    var restarted := Touch(s, p, inp.t0);
    PollLocal(s, p, inp);
    PollKeys(s, p, inp);
    FrameSealed(restarted, p, AesOpen(SERVER_KEY, inp.m), inp.t1, y.h);
    DisconnectHush(restarted, p, y.h);
    assert ServerAt(y, s.clients[p]);
    assert SealedOnto(Sent(s, y.h), Sent(y'.srv, y.h)) by { hide Frame, Disconnect; }
    ScriptGrows(y, y');
    if |y'.srv.clients| == |s.clients| {
      hide Poll, Sent, Inv;
      ServedInStep(y, y', p);
    } else {
      hide Inv, Poll, Sent;
      GoneInStep(y, y', p);
    }
  }

  lemma NeverFailed(y: System, c: Client)
    requires ServerAt(y, c)
    ensures c.auth != Failed
  {
  }

  lemma ServeInStep(y: System, m: Move)
    requires InStep(y) && m.Serve? && Can(y, m)
    ensures InStep(Go(y, m))
  {
    var s, p, y', inp := y.srv, m.p, Go(y, m), Incoming(y, m);
    var c := s.clients[p];
    PollKeepsInv(s, p, inp);
    PollLocal(s, p, inp);
    PollKeys(s, p, inp);
    AtHJoined(y, p);
    assert ServerAt(y, c) && DistinctSockets(s.clients) && c.sock in s.out;
    hide Inv, Login, TransferKey, Frame, Disconnect, ServerAt, Script, ClientAt, RecordStep;
    if y.delivered == |y.cl.sent| {
      assert y'.srv == s;
      assert y' == y;
    } else {
      match c.auth
      case Undone =>
        LoginSelf(s, p, RsaOpen(s.publicKey, inp.m));
        ServeUndone(y, y', p);
      case KeyReceived =>
        ServeKey(y, m, y', p);
      case Done =>
        ServeDone(y, y', p, inp);
      case Failed =>
        assert false by { NeverFailed(y, c); }
    }
  }

  // ---- The other clients --------------------------------------------------

  /** Another client's accept. */
  lemma ArrivalInStep(y: System, m: Move)
    requires InStep(y) && m.Others? && m.e.Accepting? && Can(y, m)
    ensures InStep(Go(y, m))
  {
    StepKeepsInv(y.srv, m.e);
    var s' := Step(y.srv, m.e);
    assert Sent(s', y.h) == Sent(y.srv, y.h);
    hide Inv, Sent;
    assert forall i :: 0 <= i < |y.srv.clients| ==> s'.clients[i] == y.srv.clients[i];
    assert s'.clients[|y.srv.clients|].sock != y.h;
  }

  lemma UnjoinedInStep(y: System, m: Move)
    requires InStep(y) && !y.joined && m.Others? && m.e.Polling? && Can(y, m)
    ensures InStep(Go(y, m)) && !EarlyMessage(y, m)
  {
    var s, p, s' := y.srv, m.e.p, Step(y.srv, m.e);
    PollKeepsInv(s, p, m.e.inp);
    PollLocal(s, p, m.e.inp);
    PollKeys(s, p, m.e.inp);
    hide Poll, Inv, RecordStep, Messages;
    OthersUntouched(s.clients, s'.clients, p, y.h);
  }

  lemma NotDone(s: Server, k: Socket)
    requires Inv(s)
    ensures !Live(s, k) ==> k !in DoneSockets(s.clients)
    ensures forall i :: 0 <= i < |s.clients| && s.clients[i].sock == k && s.clients[i].auth != Done ==> k !in DoneSockets(s.clients)
  {
  }

  lemma NoMessages(s: Server, p: nat, inp: Input, k: Socket)
    requires p < |s.clients| && !Live(s, k)
    ensures !Messages(s, p, inp, k)
  {
    hide Accepted, Args, FindCommand, TooSoon;
  }

  /** What h can tell of another client's poll. */
  lemma OthersTraffic(y: System, m: Move)
    requires InStep(y) && y.joined && m.Others? && m.e.Polling? && Can(y, m)
    ensures var s' := Step(y.srv, m.e);
      && Inv(s') && s'.publicKey == y.srv.publicKey && s'.out.Keys == y.srv.out.Keys
      && ClientsStep(y.srv.clients, s'.clients, m.e.p)
      && OnlyStale(y.(srv := s')) == OnlyStale(y)
      && SealedOnto(Sent(y.srv, y.h), Sent(s', y.h))
      && (forall i :: 0 <= i < |y.srv.clients| && y.srv.clients[i].sock == y.h && y.srv.clients[i].auth != Done ==>
        |Sent(s', y.h)| == |Sent(y.srv, y.h)| + if Messages(y.srv, m.e.p, m.e.inp, y.h) then 1 else 0)
      && (!Live(y.srv, y.h) ==> Sent(s', y.h) == Sent(y.srv, y.h))
  {
    var s, p, inp := y.srv, m.e.p, m.e.inp;
    PollKeepsInv(s, p, inp);
    PollLocal(s, p, inp);
    PollKeys(s, p, inp);
    PollTraffic(s, p, inp, y.h);
    NotDone(s, y.h);
    if !Live(s, y.h) { NoMessages(s, p, inp, y.h); }
    hide Poll, Inv, RecordStep, Messages, Sent, DoneSockets;
  }

  /** A client that has not logged in has no name to be messaged by. */
  lemma UndoneUnreachable(s: Server, p: nat, inp: Input, i: nat)
    requires Inv(s) && p < |s.clients| && i < |s.clients| && s.clients[i].auth == Undone
    ensures !Messages(s, p, inp, s.clients[i].sock)
  {
    hide Accepted, Args, FindCommand, TooSoon;
  }

  /** Everything InStep says of a joined h, given what the poll left of its record
      and sent on its connection. */
  lemma QuietInStep(y: System, y': System)
    requires InStep(y) && y.joined && Inv(y'.srv) && y' == y.(srv := y'.srv)
    requires y'.srv.publicKey == y.srv.publicKey && y.h in y'.srv.out
    requires OnlyStale(y') == OnlyStale(y)
    requires SealedOnto(Sent(y.srv, y.h), Sent(y'.srv, y.h))
    requires forall i :: 0 <= i < |y'.srv.clients| && y'.srv.clients[i].sock == y.h ==> y'.srv.clients[i] in y.srv.clients
    requires |Sent(y.srv, y.h)| >= 3 || Sent(y'.srv, y.h) == Sent(y.srv, y.h)
    requires forall i :: 0 <= i < |y.srv.clients| && y.srv.clients[i].sock == y.h && y.srv.clients[i].auth != Done ==>
      Sent(y'.srv, y.h) == Sent(y.srv, y.h)
    ensures InStep(y')
  {
    ScriptGrows(y, y');
    hide Sent, Script, NamesOk;
    forall i | 0 <= i < |y'.srv.clients| && y'.srv.clients[i].sock == y.h
      ensures ServerAt(y', y'.srv.clients[i])
    {
      var j :| 0 <= j < |y.srv.clients| && y.srv.clients[j] == y'.srv.clients[i];
      assert ServerAt(y, y.srv.clients[j]);
    }
  }

  /** A third message before the key transfer is out of script. */
  lemma TooManySent(y: System, y': System, c: Client)
    requires InStep(y) && y.joined && y' == y.(srv := y'.srv) && c in y.srv.clients && c in y'.srv.clients
    requires c.sock == y.h && c.auth == KeyReceived && |Sent(y'.srv, y.h)| > |Sent(y.srv, y.h)|
    ensures !InStep(y')
  {
    hide Sent, Inv;
    var i :| 0 <= i < |y.srv.clients| && y.srv.clients[i] == c;
    assert ServerAt(y, y.srv.clients[i]);
    var j :| 0 <= j < |y'.srv.clients| && y'.srv.clients[j] == c;
    assert !ServerAt(y', y'.srv.clients[j]);
  }

  /** Unless h is Done, it was sent something only if messaged early. */
  lemma SilentUnlessDone(y: System, m: Move)
    requires InStep(y) && y.joined && m.Others? && m.e.Polling? && Can(y, m) && !EarlyMessage(y, m)
    ensures forall i :: 0 <= i < |y.srv.clients| && y.srv.clients[i].sock == y.h && y.srv.clients[i].auth != Done ==>
      !Messages(y.srv, m.e.p, m.e.inp, y.h)
  {
    forall i | 0 <= i < |y.srv.clients| && y.srv.clients[i].sock == y.h && y.srv.clients[i].auth != Done
      ensures !Messages(y.srv, m.e.p, m.e.inp, y.h)
    {
      NeverFailed(y, y.srv.clients[i]);
      if y.srv.clients[i].auth == Undone {
        UndoneUnreachable(y.srv, m.e.p, m.e.inp, i);
      }
    }
  }

  lemma LongWhenDone(y: System)
    requires InStep(y) && y.joined && Live(y.srv, y.h)
    ensures |Sent(y.srv, y.h)| >= 3
      || exists i :: 0 <= i < |y.srv.clients| && y.srv.clients[i].sock == y.h && y.srv.clients[i].auth != Done
  {
    var i :| 0 <= i < |y.srv.clients| && y.srv.clients[i].sock == y.h;
    assert ServerAt(y, y.srv.clients[i]);
  }

  lemma PrefixSame(a: seq<Message>, b: seq<Message>)
    requires a <= b && |a| == |b|
    ensures a == b
  {
  }

  /** Another client's move keeps h and the server in step exactly when it does not
      send h a direct message between h's login and its key transfer. */
  lemma OthersInStep(y: System, m: Move)
    requires InStep(y) && m.Others? && Can(y, m)
    ensures InStep(Go(y, m)) <==> !EarlyMessage(y, m)
  {
    if m.e.Accepting? {
      ArrivalInStep(y, m);
    } else if !y.joined {
      UnjoinedInStep(y, m);
    } else {
      var y', s, s', p := Go(y, m), y.srv, Step(y.srv, m.e), m.e.p;
      OthersTraffic(y, m);
      OthersUntouched(s.clients, s'.clients, p, y.h);
      if EarlyMessage(y, m) {
        hide Poll, Inv, Messages, Sent, Enabled, ClientsStep, ServerAt, Script, ClientAt;
        var i :| 0 <= i < |s.clients| && s.clients[i].sock == y.h && s.clients[i].auth == KeyReceived;
        assert s.clients[i] in s'.clients;
        TooManySent(y, y', s.clients[i]);
      } else {
        SilentUnlessDone(y, m);
        if Live(s, y.h) { LongWhenDone(y); }
        if |Sent(s, y.h)| == |Sent(s', y.h)| { PrefixSame(Sent(s, y.h), Sent(s', y.h)); }
        hide Poll, Inv, Messages, Sent, Enabled, ClientsStep, ServerAt, Script, ClientAt;
        QuietInStep(y, y');
      }
    }
  }

  // ---- Whole runs ---------------------------------------------------------

  predicate Playable(y: System, moves: seq<Move>)
    decreases |moves|
  {
    moves == [] || (Can(y, moves[0]) && Playable(Go(y, moves[0]), moves[1..]))
  }

  function Play(y: System, moves: seq<Move>): System
    requires Playable(y, moves)
    decreases |moves|
  {
    if moves == [] then y else Play(Go(y, moves[0]), moves[1..])
  }

  /** What a move is to the server, if anything. */
  function ServerEvent(y: System, m: Move): seq<Event> {
    match m
    case Others(e) => [e]
    case Connect(t) => [Accepting(y.h, t)]
    case Serve(p, t0, t1) => [Polling(p, Incoming(y, m))]
    case Break(p) => [Polling(p, Hangup)]
    case _ => []
  }

  function ServerEvents(y: System, moves: seq<Move>): seq<Event>
    requires Playable(y, moves)
    decreases |moves|
  {
    if moves == [] then [] else ServerEvent(y, moves[0]) + ServerEvents(Go(y, moves[0]), moves[1..])
  }

  /** To the server a play is a run, so all that holds over runs holds here. */
  lemma {:induction false} PlayIsRun(y: System, moves: seq<Move>)
    requires Playable(y, moves)
    ensures Legal(y.srv, ServerEvents(y, moves))
    ensures Play(y, moves).srv == Run(y.srv, ServerEvents(y, moves))
    decreases |moves|
  {
    hide Enabled, Step, Poll, Sent, Incoming, AtH;
    if moves != [] {
      var m, rest := moves[0], ServerEvents(Go(y, moves[0]), moves[1..]);
      PlayIsRun(Go(y, m), moves[1..]);
      if ServerEvent(y, m) == [] {
        assert [] + rest == rest;
      } else {
        RunCons(y.srv, ServerEvent(y, m)[0], rest);
        assert ServerEvent(y, m) == [ServerEvent(y, m)[0]];
      }
    }
  }

  /** Nobody sends h a direct message between its login and its key transfer. */
  ghost predicate Undisturbed(y: System, moves: seq<Move>)
    requires Playable(y, moves)
    decreases |moves|
  {
    moves == [] || (!EarlyMessage(y, moves[0]) && Undisturbed(Go(y, moves[0]), moves[1..]))
  }

  lemma MoveInStep(y: System, m: Move)
    requires InStep(y) && Can(y, m) && !EarlyMessage(y, m)
    ensures InStep(Go(y, m))
  {
    hide InStep, EarlyMessage, Can, Go;
    match m
    case Others(e) => OthersInStep(y, m);
    case Connect(t) => ConnectInStep(y, m);
    case Serve(p, t0, t1) => ServeInStep(y, m);
    case Break(p) => BreakInStep(y, m);
    case Take => TakeInStep(y, m);
    case Speak(text) => SpeakInStep(y, m);
  }

  /** Over all interleavings with arbitrary other clients, server and client stay in
      step. */
  lemma {:induction false} RunInStep(y: System, moves: seq<Move>)
    requires InStep(y) && Playable(y, moves) && Undisturbed(y, moves)
    ensures InStep(Play(y, moves))
    decreases |moves|
  {
    hide InStep, EarlyMessage, Can, Go;
    if moves != [] {
      MoveInStep(y, moves[0]);
      RunInStep(Go(y, moves[0]), moves[1..]);
    }
  }

  lemma StartInStep(y: System)
    requires Start(y)
    ensures InStep(y)
  {
  }

  /** The same client and credentials, the same server key and commands. */
  predicate SameSides(y: System, z: System) {
    z.h == y.h && z.uname == y.uname && z.passwd == y.passwd
    && z.cl.own == y.cl.own && z.srv.publicKey == y.srv.publicKey && z.srv.cmds == y.srv.cmds
  }

  lemma MoveKeeps(y: System, m: Move)
    requires Can(y, m)
    ensures SameSides(y, Go(y, m))
  {
    hide Poll, Inv, Sent, FitsBuffers, Refuses;
    match m
    case Others(e) => if e.Polling? { PollLocal(y.srv, e.p, e.inp); }
    case Serve(p, t0, t1) => PollLocal(y.srv, p, Incoming(y, m));
    case Break(p) => PollLocal(y.srv, p, Hangup);
    case _ =>
  }

  lemma {:induction false} PlayKeeps(y: System, moves: seq<Move>)
    requires Playable(y, moves)
    ensures SameSides(y, Play(y, moves))
    decreases |moves|
  {
    hide Can, Go;
    if moves != [] {
      MoveKeeps(y, moves[0]);
      PlayKeeps(Go(y, moves[0]), moves[1..]);
    }
  }

  lemma InStepSafe(z: System)
    requires InStep(z)
    ensures z.cl.crashed <==> z.got >= 1 && !Sealable(z)
    ensures z.cl.hasHandshook <==> z.cl.status == C.ReceivedAESKey
    ensures z.cl.aesKey == (if z.cl.hasHandshook then SERVER_KEY else [])
    ensures z.cl.hasHandshook ==> !RefusesServerKey(z.cl.own) && forall i: nat :: AtH(z, i) ==> z.srv.clients[i].auth == Done
  {
    hide Sent, Inv, Sealable, RefusesServerKey;
    if z.joined {
      forall i: nat | AtH(z, i) && z.cl.hasHandshook
        ensures z.srv.clients[i].auth == Done
      {
        assert ServerAt(z, z.srv.clients[i]);
      }
    }
  }

  lemma SameSealable(y: System, z: System)
    requires SameSides(y, z)
    ensures Sealable(y) == Sealable(z)
  {
  }

  /** Handshake safety: the client crashes only on credentials too long to seal, and
      then always, on the first message it takes; it has a session key exactly when it
      finished the handshake, that key is the server's, the client's own key could be
      sealed for, and the server, if it has not dropped the client, is Done with it. */
  lemma HandshakeSafety(y: System, moves: seq<Move>)
    requires Start(y) && Playable(y, moves) && Undisturbed(y, moves)
    ensures var z := Play(y, moves);
      && (z.cl.crashed <==> z.got >= 1 && !Sealable(y))
      && (z.cl.hasHandshook <==> z.cl.status == C.ReceivedAESKey)
      && z.cl.aesKey == (if z.cl.hasHandshook then SERVER_KEY else [])
      && (z.cl.hasHandshook ==>
        !RefusesServerKey(y.cl.own) && forall i: nat :: AtH(z, i) ==> z.srv.clients[i].auth == Done)
  {
    hide Start, InStep, Play, Sealable, RefusesServerKey, AtH;
    assert InStep(y) by { StartInStep(y); }
    RunInStep(y, moves);
    PlayKeeps(y, moves);
    InStepSafe(Play(y, moves));
    assert Sealable(Play(y, moves)) == Sealable(y) by { SameSealable(y, Play(y, moves)); }
  }

  lemma PlayCons(y: System, m: Move, rest: seq<Move>)
    requires Can(y, m) && Playable(Go(y, m), rest)
    ensures Playable(y, [m] + rest) && Play(y, [m] + rest) == Play(Go(y, m), rest)
  {
    hide Can, Go;
    assert ([m] + rest)[1..] == rest;
  }

  lemma EarlyThird(y: System, m: Move)
    requires InStep(y) && Can(y, m) && EarlyMessage(y, m)
    ensures var y' := Go(y, m);
      && y'.joined && ClientAt(y') && 1 <= y'.got <= 2 && Sealable(y') && y'.got == y.got
      && |Sent(y'.srv, y'.h)| == 3 && Sent(y'.srv, y'.h)[2].AesSealed?
  {
    var i :| 0 <= i < |y.srv.clients| && y.srv.clients[i].sock == y.h && y.srv.clients[i].auth == KeyReceived;
    assert AtH(y, i);
    AtHJoined(y, i);
    assert ServerAt(y, y.srv.clients[i]);
    OthersTraffic(y, m);
    hide Inv, Messages, Sent, Script, Start;
  }

  lemma TakesToTheEnd(y: System)
    requires y.joined && ClientAt(y) && 1 <= y.got <= 2 && Sealable(y)
    requires |Sent(y.srv, y.h)| == 3 && Sent(y.srv, y.h)[2].AesSealed?
    ensures var takes := seq(3 - y.got, _ => Take);
      Playable(y, takes) && Play(y, takes).cl.crashed && !Play(y, takes).cl.hasHandshook
  {
    hide Sent;
    var takes := seq(3 - y.got, _ => Take);
    var y1 := Go(y, Take);
    if y.got == 2 {
      assert takes[1..] == [];
    } else {
      var y2 := Go(y1, Take);
      assert takes[1..] == [Take] && [Take][1..] == [];
      assert Playable(y1, [Take]) && Play(y1, [Take]) == y2;
    }
  }

  /** The hypothesis is needed: after an early direct message the client, taking its
      messages in order, opens that message instead of the session key and crashes. */
  lemma EarlyMessageBreaks(y: System, m: Move)
    requires InStep(y) && Can(y, m) && EarlyMessage(y, m)
    ensures var moves := [m] + seq(3 - y.got, _ => Take);
      Playable(y, moves) && Play(y, moves).cl.crashed && !Play(y, moves).cl.hasHandshook
  {
    hide InStep, Can, Go, EarlyMessage, Sent, ClientAt, Sealable;
    EarlyThird(y, m);
    TakesToTheEnd(Go(y, m));
    PlayCons(y, m, seq(3 - y.got, _ => Take));
  }

  /** The six moves of an undisturbed handshake of a client that connects last. */
  function Smooth(y: System, t: nat): seq<Move> {
    var p := |y.srv.clients|;
    [Connect(t), Take, Serve(p, t, t), Take, Serve(p, t, t), Take]
  }

  lemma {:induction false} PlayConcat(y: System, first: seq<Move>, second: seq<Move>)
    requires Playable(y, first) && Playable(Play(y, first), second)
    ensures Playable(y, first + second) && Play(y, first + second) == Play(Play(y, first), second)
    decreases |first|
  {
    hide Can, Go;
    if first == [] {
      assert first + second == second;
    } else {
      assert (first + second)[1..] == first[1..] + second;
      PlayConcat(Go(y, first[0]), first[1..], second);
    }
  }

  /** h was accepted last and its credentials will do. */
  predicate AtDoor(y: System, base: seq<Client>, t: nat) {
    && y.joined && y.srv.running && Inv(y.srv)
    && y.srv.clients == base + [Client(y.h, UNNAMED, false, Undone, t)]
    && SEP !in y.uname && SEP !in y.passwd && Admissible(y.srv, y.uname, y.passwd)
    && Sent(y.srv, y.h) == [KeyText(y.srv.publicKey)] && y.h in y.srv.out
    && y.cl == C.Fresh(y.cl.own) && y.got == 0 && y.delivered == 0 && Sealable(y)
  }

  lemma FirstTake(y: System, base: seq<Client>, t: nat)
    requires AtDoor(y, base, t)
    ensures Can(y, Take)
    ensures var sealed := RsaSealed(y.srv.publicKey, C.CredentialText(y.uname, y.passwd));
      Go(y, Take) == y.(got := 1, cl := y.cl.(serverKey := Some(y.srv.publicKey), status := C.SentCredentials, sent := [sealed]))
  {
    hide Inv, Admissible, Sent, C.CredentialText;
  }

  lemma UndonePoll(s: Server, p: nat, text: Bytes, t: nat)
    requires p < |s.clients| && s.clients[p].auth == Undone
    ensures Poll(s, p, Received(RsaSealed(s.publicKey, text), t, t)) == Login(s, p, Some(text))
  {
    hide Login;
  }

  lemma LoginServed(s: Server, base: seq<Client>, h: Socket, t: nat, uname: Bytes, passwd: Bytes)
    requires Inv(s) && s.clients == base + [Client(h, UNNAMED, false, Undone, t)] && h in s.out
    requires SEP !in uname && SEP !in passwd && Admissible(s, uname, passwd)
    ensures var z := Poll(s, |base|, Received(RsaSealed(s.publicKey, C.CredentialText(uname, passwd)), t, t));
      && z.clients == base + [Client(h, uname, false, KeyReceived, t)]
      && Sent(z, h) == Sent(s, h) + [KeyRequest] && h in z.out
      && z.keys == s.keys && z.running == s.running && z.publicKey == s.publicKey && Inv(z)
  {
    var text := C.CredentialText(uname, passwd);
    var inp := Received(RsaSealed(s.publicKey, text), t, t);
    CredentialsRoundTrip(uname, passwd);
    PollKeepsInv(s, |base|, inp);
    assert DistinctSockets(s.clients);
    UndonePoll(s, |base|, text, t);
    hide Poll, Field, Login, Inv, ValidName, NameFree, NamesOk, DistinctSockets, C.CredentialText;
    LoginLast(s, base, h, t, text);
    LoginSelf(s, |base|, Some(text));
  }

  lemma GoServe(y: System, p: nat, t: nat)
    requires AtH(y, p) && y.srv.running && y.delivered < |y.cl.sent|
    requires y.srv.clients[p].auth in {Undone, KeyReceived}
    ensures Can(y, Serve(p, t, t))
    ensures Go(y, Serve(p, t, t)) ==
      y.(srv := Poll(y.srv, p, Received(y.cl.sent[y.delivered], t, t)), delivered := y.delivered + 1)
  {
    hide Poll, FrameFits;
  }

  lemma ServeLogin(y: System, base: seq<Client>, t: nat)
    requires y.srv.running && Inv(y.srv) && y.delivered == 0 && y.h in y.srv.out
    requires y.srv.clients == base + [Client(y.h, UNNAMED, false, Undone, t)]
    requires SEP !in y.uname && SEP !in y.passwd && Admissible(y.srv, y.uname, y.passwd)
    requires y.cl.sent == [RsaSealed(y.srv.publicKey, C.CredentialText(y.uname, y.passwd))]
    ensures var m := Serve(|base|, t, t);
      && Can(y, m)
      && var z := Go(y, m);
         && z == y.(srv := z.srv, delivered := 1)
         && z.srv.clients == base + [Client(y.h, y.uname, false, KeyReceived, t)]
         && Sent(z.srv, y.h) == Sent(y.srv, y.h) + [KeyRequest] && y.h in z.srv.out
         && z.srv.keys == y.srv.keys && z.srv.running && z.srv.publicKey == y.srv.publicKey && Inv(z.srv)
  {
    hide Sent, Poll, Inv, Admissible, Go, Can, C.CredentialText;
    LoginServed(y.srv, base, y.h, t, y.uname, y.passwd);
    GoServe(y, |base|, t);
  }

  lemma LoginMoves(y: System, base: seq<Client>, t: nat)
    requires AtDoor(y, base, t)
    ensures var p := |base|;
      && Can(y, Take) && Can(Go(y, Take), Serve(p, t, t))
      && var z := Go(Go(y, Take), Serve(p, t, t));
         && z.srv.clients == base + [Client(y.h, y.uname, false, KeyReceived, t)]
         && z == y.(srv := z.srv, cl := z.cl, got := 1, delivered := 1)
         && z.cl.status == C.SentCredentials && |z.cl.sent| == 1 && z.cl.own == y.cl.own
         && !z.cl.crashed && !z.cl.hasHandshook
         && Sent(z.srv, y.h) == Sent(y.srv, y.h) + [KeyRequest] && y.h in z.srv.out
         && z.srv.keys == y.srv.keys && z.srv.running && z.srv.publicKey == y.srv.publicKey && Inv(z.srv)
  {
    hide Go, Can, Sent, Inv, Admissible, C.CredentialText;
    FirstTake(y, base, t);
    ServeLogin(Go(y, Take), base, t);
  }

  lemma TransferMoves(y: System, base: seq<Client>, t: nat)
    requires y.joined && y.srv.running && Inv(y.srv) && y.h !in y.srv.keys && y.h in y.srv.out
    requires Loads(KeyText(y.cl.own)) && !RefusesServerKey(y.cl.own)
    requires y.srv.clients == base + [Client(y.h, y.uname, false, KeyReceived, t)]
    requires y.got == 1 && y.delivered == 1 && y.cl.status == C.SentCredentials && |y.cl.sent| == 1
    requires !y.cl.crashed && !y.cl.hasHandshook && |Sent(y.srv, y.h)| == 2
    ensures var p := |base|;
      && Can(y, Take) && Can(Go(y, Take), Serve(p, t, t))
      && var z := Go(Go(y, Take), Serve(p, t, t));
         && Can(z, Take)
         && Go(z, Take).cl.hasHandshook && Go(z, Take).cl.aesKey == SERVER_KEY
         && Go(z, Take).srv.clients == base + [Client(y.h, y.uname, false, Done, t)]
  {
    var p, y1 := |base|, Go(y, Take);
    assert y1.cl.sent[1] == KeyText(y.cl.own);
    assert DistinctSockets(y.srv.clients);
    TransferLast(y.srv, base, y.srv.clients[p], KeyText(y.cl.own));
    TransferSelf(y.srv, p, KeyText(y.cl.own));
    GoServe(y1, p, t);
    hide Sent, TransferKey, Inv, RefusesServerKey;
  }

  lemma ConnectAtDoor(y: System, t: nat)
    requires Start(y) && y.srv.running && Admissible(y.srv, y.uname, y.passwd)
    requires SEP !in y.uname && SEP !in y.passwd && Sealable(y)
    ensures Can(y, Connect(t)) && AtDoor(Go(y, Connect(t)), y.srv.clients, t)
    ensures Go(y, Connect(t)) == y.(srv := Accept(y.srv, y.h, t), joined := true)
    ensures Loads(KeyText(y.cl.own))
  {
    StepKeepsInv(y.srv, Accepting(y.h, t));
    AdmissibleAfterAccept(y.srv, y.h, t, y.uname, y.passwd);
    hide Inv, Admissible;
  }

  lemma LoggedIn(y: System, z: System, base: seq<Client>, t: nat)
    requires AtDoor(y, base, t) && z == y.(srv := z.srv, cl := z.cl, got := 1, delivered := 1)
    requires Sent(z.srv, y.h) == Sent(y.srv, y.h) + [KeyRequest] 
    ensures y.joined && |Sent(z.srv, z.h)| == 2
  {
    hide Sent, Admissible, Inv;
  }

  /** The handshake can be completed from any server state: a client with admissible
      credentials, free of the separator and short enough to seal, whose own key can
      be sealed for and whose socket identity holds none, ends with the server's
      session key and the server with one more Done client of that name. */
  lemma HandshakeCompletes(y: System, t: nat)
    requires Start(y) && y.srv.running && Admissible(y.srv, y.uname, y.passwd)
    requires SEP !in y.uname && SEP !in y.passwd && Sealable(y)
    requires y.h !in y.srv.keys && !RefusesServerKey(y.cl.own)
    ensures Playable(y, Smooth(y, t))
    ensures var z := Play(y, Smooth(y, t));
      && z.cl.hasHandshook && z.cl.aesKey == SERVER_KEY
      && z.srv.clients == y.srv.clients + [Client(y.h, y.uname, false, Done, t)]
  {
    hide Can, Go, Inv, Start, Admissible;
    var base, moves := y.srv.clients, Smooth(y, t);
    ConnectAtDoor(y, t);
    var y1 := Go(y, moves[0]);
    LoginMoves(y1, base, t);
    var y3 := Go(Go(y1, Take), moves[2]);
    LoggedIn(y1, y3, base, t);
    TransferMoves(y3, base, t);
    var y5 := Go(Go(y3, Take), moves[4]);
    hide AtDoor;
    PlayCons(y5, Take, []);
    PlayCons(Go(y3, Take), moves[4], [Take]);
    PlayCons(y3, Take, [moves[4], Take]);
    PlayCons(Go(y1, Take), moves[2], [Take, moves[4], Take]);
    PlayCons(y1, Take, [moves[2], Take, moves[4], Take]);
    PlayCons(y, moves[0], [Take, moves[2], Take, moves[4], Take]);
    assert moves == [moves[0]] + [Take, moves[2], Take, moves[4], Take];
  }
}
