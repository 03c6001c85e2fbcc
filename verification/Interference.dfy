/** A run in which one client's direct message derails another client's handshake. */
module Interference {
  import opened Bytes
  import opened Crypto
  import opened Session
  import opened Invariants
  import opened Traffic
  import opened EndToEnd
  import opened Handshake

  /** A direct message to h by its name. */
  function Shout(y: System, text: Bytes, t0: nat, t1: nat): Input {
    Received(AesSealed(SERVER_KEY, "5" + MessageLine(y.uname, text)), t0, t1)
  }

  lemma LineWords(target: Bytes, text: Bytes)
    requires ' ' !in target
    ensures |Split(MessageLine(target, text), ' ')| == |Split(text, ' ')| + 2
  {
    SplitFirst(target, text, ' ');
    SplitFirst("msg", target + [' '] + text, ' ');
  }

  /** The server finds the target of a `msg` line by its name. */
  lemma ShoutTarget(s: Server, p: nat, q: nat, text: Bytes)
    requires Inv(s) && s.cmds == BUILT_IN && p < |s.clients| && q < |s.clients| && p != q && s.clients[p].id != UNNAMED
    requires |Split(text, ' ')| <= MAX_WORDS - 2 && Accepted("5" + MessageLine(s.clients[p].id, text))
    ensures MessageTarget(s, q, Some("5" + MessageLine(s.clients[p].id, text))) == Some(s.clients[p].sock)
  {
    var name := s.clients[p].id;
    ValidTarget(s, p);
    NameNoBlank(name);
    OnlyClient(s, p);
    DifferentIds(s, q, p);
    MessageRebuilt(name, text);
    FindMsg();
    hide Args, FindCommand, MessageLine, Split, Spaced, Accepted, Inv, ValidName, IndexOf;
    assert ("5" + MessageLine(name, text))[1..] == MessageLine(name, text);
  }

  lemma ShoutFits(name: Bytes, text: Bytes, id: Bytes)
    requires ' ' !in name && |Split(text, ' ')| <= MAX_WORDS - 2
    ensures FrameFits(id, Some("5" + MessageLine(name, text)))
  {
    LineWords(name, text);
    hide Split, MessageLine, Accepted;
    assert ("5" + MessageLine(name, text))[1..] == MessageLine(name, text);
  }

  /** h logs in. */
  function Knock(y: System, t: nat): seq<Move> {
    [Connect(t), Take, Serve(|y.srv.clients|, t, t)]
  }

  /** h's position and what the server knows of it right after its login. */
  lemma Knocked(y: System, t: nat)
    requires Start(y) && y.srv.running && Admissible(y.srv, y.uname, y.passwd)
    requires SEP !in y.uname && SEP !in y.passwd && Sealable(y)
    ensures Playable(y, Knock(y, t))
    ensures var z := Play(y, Knock(y, t));
      && InStep(z) && SameSides(y, z) && z.got == 1 && z.srv.running
      && z.srv.clients == y.srv.clients + [Client(y.h, y.uname, false, KeyReceived, t)]
  {
    hide Can, Go, Start, Admissible, InStep, Inv, Sealable, EarlyMessage;
    var base, moves := y.srv.clients, Knock(y, t);
    StartInStep(y);
    ConnectAtDoor(y, t);
    var y1 := Go(y, moves[0]);
    ConnectInStep(y, moves[0]);
    LoginMoves(y1, base, t);
    var y2 := Go(y1, Take);
    TakeInStep(y1, Take);
    var y3 := Go(y2, moves[2]);
    ServeInStep(y2, moves[2]);
    assert y1.h == y.h && y1.uname == y.uname;
    hide AtDoor;
    PlayCons(y2, moves[2], []);
    PlayCons(y1, Take, [moves[2]]);
    PlayCons(y, moves[0], [Take, moves[2]]);
    assert moves == [moves[0]] + [Take, moves[2]];
    PlayKeeps(y, moves);
  }

  lemma KnownClients(z: System, p: nat, q: nat)
    requires InStep(z) && p < |z.srv.clients| && q < |z.srv.clients| && p != q && z.srv.clients[p].auth == KeyReceived
    ensures Inv(z.srv) && z.srv.clients[p].id != UNNAMED && z.srv.clients[p].sock != z.srv.clients[q].sock
  {
    hide Start, Script, ClientAt, ServerAt;
  }

  /** After its login any other Done client can message h, early. */
  lemma ShoutIsEarly(z: System, q: nat, text: Bytes, t0: nat, t1: nat, p: nat)
    requires InStep(z) && z.srv.running && z.srv.cmds == BUILT_IN
    requires p < |z.srv.clients| && z.srv.clients[p].sock == z.h && z.srv.clients[p].auth == KeyReceived && z.srv.clients[p].id == z.uname
    requires q < |z.srv.clients| && q != p && z.srv.clients[q].auth == Done
    requires !TooSoon(z.srv.clients[q], t0) && t0 <= t1
    requires |Split(text, ' ')| <= MAX_WORDS - 2 && Accepted("5" + MessageLine(z.uname, text))
    ensures var shout := Others(Polling(q, Shout(z, text, t0, t1)));
      Can(z, shout) && EarlyMessage(z, shout)
  {
    hide InStep, Inv, Accepted, Split, MessageLine, MessageTarget, FrameFits, TooSoon;
    var s := z.srv;
    KnownClients(z, p, q);
    ValidTarget(s, p);
    NameNoBlank(z.uname);
    ShoutTarget(s, p, q, text);
    ShoutFits(z.uname, text, s.clients[q].id);
    assert AtH(z, p);
  }

  /** From any start where another client is Done and has been quiet long enough: h
      logs in, that client messages it, and h crashes on taking the next two messages
      without ever holding a key. */
  lemma EarlyMessageHappens(y: System, t: nat, q: nat, text: Bytes, t0: nat, t1: nat)
    requires Start(y) && y.srv.running && Admissible(y.srv, y.uname, y.passwd)
    requires SEP !in y.uname && SEP !in y.passwd && Sealable(y)
    requires y.srv.cmds == BUILT_IN && q < |y.srv.clients| && y.srv.clients[q].auth == Done
    requires !TooSoon(y.srv.clients[q], t0) && t0 <= t1
    requires |Split(text, ' ')| <= MAX_WORDS - 2 && Accepted("5" + MessageLine(y.uname, text))
    ensures var shout := Others(Polling(q, Shout(y, text, t0, t1)));
      var moves := Knock(y, t) + [shout, Take, Take];
      && Playable(y, Knock(y, t)) && EarlyMessage(Play(y, Knock(y, t)), shout)
      && Playable(y, moves) && Play(y, moves).cl.crashed && !Play(y, moves).cl.hasHandshook
  {
    hide Start, Admissible, Sealable, Split, Accepted, TooSoon, InStep, Can, Go, EarlyMessage, Play, Playable, Knock;
    Knocked(y, t);
    var z, p := Play(y, Knock(y, t)), |y.srv.clients|;
    var shout := Others(Polling(q, Shout(y, text, t0, t1)));
    ShoutIsEarly(z, q, text, t0, t1, p);
    EarlyMessageBreaks(z, shout);
    assert [shout] + seq(3 - z.got, _ => Take) == [shout, Take, Take];
    PlayConcat(y, Knock(y, t), [shout, Take, Take]);
  }
}
