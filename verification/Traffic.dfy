/** What one client's poll makes the server send on another client's connection. */
module Traffic {
  import opened Bytes
  import opened Credentials
  import opened Crypto
  import opened Session
  import opened Invariants
  import opened Roster

  predicate ServerSealed(m: Message) {
    m.AesSealed? && m.key == SERVER_KEY
  }

  /** b continues a with messages under the server's session key only. */
  predicate SealedOnto(a: seq<Message>, b: seq<Message>) {
    a <= b && forall i :: |a| <= i < |b| ==> ServerSealed(b[i])
  }

  /** Connection k, which is not the actor's, hears sealed frames only, and nothing
      at all unless it is Done. */
  predicate Hush(s: Server, s': Server, k: Socket) {
    && SealedOnto(Sent(s, k), Sent(s', k))
    && (k !in DoneSockets(s.clients) ==> Sent(s', k) == Sent(s, k))
  }

  lemma DisconnectHush(s: Server, p: nat, k: Socket)
    requires p < |s.clients|
    ensures Hush(s, Disconnect(s, p), k)
  {
    hide LeaveFrame, DoneSockets, CStr;
  }

  lemma DisconnectSelf(s: Server, p: nat)
    requires p < |s.clients|
    ensures var s' := Disconnect(s, p);
      s'.clients == Without(s.clients, p) && Sent(s', s.clients[p].sock) == Sent(s, s.clients[p].sock)
      && s'.publicKey == s.publicKey && s'.out.Keys == s.out.Keys
  {
    hide Seal, LeaveFrame, DoneSockets;
  }

  lemma BroadcastHush(s: Server, frame: Bytes, exclude: Socket, k: Socket)
    ensures Hush(s, Broadcast(s, frame, exclude), k)
  {
    hide DoneSockets, CStr;
  }

  /** Changing the polled record does not make other connections Done. */
  lemma RenameHush(s: Server, p: nat, name: Bytes, k: Socket)
    requires p < |s.clients| && k != s.clients[p].sock
    ensures Hush(s, Rename(s, p, name), k)
    ensures k in DoneSockets(Rename(s, p, name).clients) <==> k in DoneSockets(s.clients)
  {
    var clients := s.clients[p := s.clients[p].(id := name)];
    DoneKept(s.clients, clients, p);
    DoneKept(clients, s.clients, p);
    hide JoinFrame, CStr, DoneSockets;
    BroadcastHush(s.(clients := clients), JoinFrame(name, clients), s.clients[p].sock, k);
  }

  lemma NickHush(s: Server, p: nat, name: Bytes, k: Socket)
    requires p < |s.clients| && k != s.clients[p].sock
    ensures Hush(s, Nick(s, p, name), k)
  {
    hide Hush, Rename, Disconnect, DoneSockets;
    RenameHush(s, p, name, k);
    DisconnectHush(s, p, k);
  }

  lemma LoginHush(s: Server, p: nat, credentials: Option<Bytes>, k: Socket)
    requires p < |s.clients| && k != s.clients[p].sock
    ensures Hush(s, Login(s, p, credentials), k)
  {
    hide Disconnect, Rename, DoneSockets, Field, CStr, ValidName, NameFree;
    DisconnectHush(s, p, k);
    if credentials.Some? {
      var uname := Field(credentials.value, 0);
      RenameHush(s, p, uname, k);
      RenameShape(s, p, uname);
      BroadcastHush(Rename(s, p, uname), Welcome(uname), s.clients[p].sock, k);
    }
  }

  lemma TransferHush(s: Server, p: nat, m: Message, k: Socket)
    requires p < |s.clients| && k != s.clients[p].sock
    ensures Hush(s, TransferKey(s, p, m), k)
  {
    hide Disconnect, DoneSockets, RefusesServerKey;
    if Loads(m) {
      DisconnectHush(s.(keys := Insert(s.keys, s.clients[p].sock, m.modulus)), p, k);
    }
  }

  lemma BroadcastShape(s: Server, frame: Bytes, exclude: Socket)
    ensures Broadcast(s, frame, exclude).clients == s.clients
  {
  }

  lemma ChatHush(s: Server, p: nat, text: Bytes, t: nat, k: Socket)
    requires p < |s.clients| && k != s.clients[p].sock
    ensures Hush(s, Chat(s, p, text, t), k)
  {
    hide Disconnect, DoneSockets, ChatFrame, CStr, Blank, Direct, Broadcast;
    DisconnectHush(s, p, k);
    DisconnectHush(SendTo(s, s.clients[p].sock, Direct(BLANK_NOTICE)), p, k);
    BroadcastHush(s, CStr(ChatFrame(text, s.clients[p].id)), s.clients[p].sock, k);
    BroadcastShape(s, CStr(ChatFrame(text, s.clients[p].id)), s.clients[p].sock);
  }

  // ---- Direct messages ----------------------------------------------------

  /** The connection a decrypted frame sends a direct message to, if it does. */
  function MessageTarget(s: Server, p: nat, plain: Option<Bytes>): Option<Socket>
    requires p < |s.clients|
  {
    if plain.None? || !Accepted(plain.value) || !Starts(plain.value, '5') then None
    else
      var args := Args(plain.value[1..]);
      var cmd := FindCommand(s.cmds, args[0]);
      if cmd.None? || cmd.value.body != Msg || args[1] == UNNAMED || args[1] == s.clients[p].id then None
      else
        var i := IndexOf(Ids(s.clients), args[1]);
        if i < 0 then None else Some(s.clients[i].sock)
  }

  /** The poll of p delivers a direct message to connection k. */
  predicate Messages(s: Server, p: nat, inp: Input, k: Socket)
    requires p < |s.clients|
  {
    && inp.Received?
    && (s.clients[p].auth == Failed || (s.clients[p].auth == Done && !TooSoon(s.clients[p], inp.t0)))
    && MessageTarget(s, p, AesOpen(SERVER_KEY, inp.m)) == Some(k)
  }

  lemma DirectSealed(text: Bytes)
    ensures ServerSealed(Direct(text))
  {
  }

  lemma DirectSent(s: Server, to: Socket, text: Bytes, k: Socket)
    requires k in s.out
    ensures var after := Sent(SendTo(s, to, Direct(text)), k);
      SealedOnto(Sent(s, k), after)
      && if to == k then |after| == |Sent(s, k)| + 1 else after == Sent(s, k)
  {
    DirectSealed(text);
    hide Direct;
  }

  lemma ReplyTarget(s: Server, p: nat, body: Body, args: seq<Bytes>, k: Socket)
    requires p < |s.clients| && k != s.clients[p].sock && |args| >= 2
    ensures var reply, i := Reply(s, p, body, args), IndexOf(Ids(s.clients), args[1]);
      (reply.Some? && reply.value.0 == k) <==>
      (body == Msg && args[1] != UNNAMED && args[1] != s.clients[p].id && i >= 0 && s.clients[i].sock == k)
  {
    hide IndexOf, DirectText, CommandList;
  }

  lemma DispatchTraffic(s: Server, p: nat, line: Bytes, k: Socket)
    requires p < |s.clients| && k != s.clients[p].sock && k in s.out
    requires Accepted(['5'] + line)
    ensures var after := Sent(Dispatch(s, p, line), k);
      if MessageTarget(s, p, Some(['5'] + line)) == Some(k)
      then |after| == |Sent(s, k)| + 1 && SealedOnto(Sent(s, k), after)
      else after == Sent(s, k)
  {
    assert (['5'] + line)[1..] == line;
    hide Args, Accepted, Direct, FindCommand, NotFound, Reply, SendTo, SealedOnto, Sent;
    var args := Args(line);
    var cmd := FindCommand(s.cmds, args[0]);
    DirectSent(s, s.clients[p].sock, NotFound(line), k);
    if cmd.Some? {
      ReplyTarget(s, p, cmd.value.body, args, k);
      var reply := Reply(s, p, cmd.value.body, args);
      if reply.Some? { DirectSent(s, reply.value.0, reply.value.1, k); }
    }
  }

  lemma FrameTraffic(s: Server, p: nat, plain: Option<Bytes>, t: nat, k: Socket)
    requires p < |s.clients| && k != s.clients[p].sock && k in s.out
    ensures if MessageTarget(s, p, plain) == Some(k)
      then |Sent(Frame(s, p, plain, t), k)| == |Sent(s, k)| + 1
        && SealedOnto(Sent(s, k), Sent(Frame(s, p, plain, t), k))
      else Hush(s, Frame(s, p, plain, t), k)
  {
    hide Chat, Nick, Dispatch, Disconnect, DoneSockets, Accepted, Direct, CStr, Args, FindCommand;
    DisconnectHush(s, p, k);
    BroadcastHush(s, [], s.clients[p].sock, k);
    if plain.Some? && plain.value != [] {
      assert plain.value == [plain.value[0]] + plain.value[1..];
      ChatHush(s, p, plain.value[1..], t, k);
      NickHush(s, p, Drop(plain.value, 2), k);
      if Accepted(plain.value) && Starts(plain.value, '5') {
        DispatchTraffic(s, p, plain.value[1..], k);
      }
    }
  }

  lemma RestartTraffic(s: Server, p: nat, t: nat, plain: Option<Bytes>, k: Socket)
    requires p < |s.clients| && k != s.clients[p].sock
    ensures MessageTarget(Touch(s, p, t), p, plain) == MessageTarget(s, p, plain)
    ensures k in DoneSockets(Touch(s, p, t).clients) <==> k in DoneSockets(s.clients)
  {
    var s' := Touch(s, p, t);
    assert Ids(s'.clients) == Ids(s.clients);
    DoneKept(s.clients, s'.clients, p);
    DoneKept(s'.clients, s.clients, p);
    hide Args, FindCommand, Accepted, DoneSockets;
  }

  /** One poll: another connection hears nothing unless it is Done or is sent a direct
      message, and all it hears is sealed under the server's session key. */
  lemma PollTraffic(s: Server, p: nat, inp: Input, k: Socket)
    requires p < |s.clients| && k != s.clients[p].sock && k in s.out
    ensures SealedOnto(Sent(s, k), Sent(Poll(s, p, inp), k))
    ensures k !in DoneSockets(s.clients) ==>
      |Sent(Poll(s, p, inp), k)| == |Sent(s, k)| + if Messages(s, p, inp, k) then 1 else 0
  {
    hide Login, TransferKey, Frame, Disconnect, DoneSockets, MessageTarget;
    DisconnectHush(s, p, k);
    if inp.Received? {
      LoginHush(s, p, RsaOpen(s.publicKey, inp.m), k);
      TransferHush(s, p, inp.m, k);
      FrameTraffic(s, p, AesOpen(SERVER_KEY, inp.m), inp.t1, k);
      var restarted := Touch(s, p, inp.t0);
      RestartTraffic(s, p, inp.t0, AesOpen(SERVER_KEY, inp.m), k);
      DisconnectHush(restarted, p, k);
      FrameTraffic(restarted, p, AesOpen(SERVER_KEY, inp.m), inp.t1, k);
    }
  }
}
