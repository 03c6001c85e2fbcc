/** Who gets disconnected, and everything one client's poll makes the server tell the
    others. */
module Announcements {
  import opened Bytes
  import opened Credentials
  import opened Crypto
  import opened Session
  import opened Invariants
  import opened Accounts
  import opened Roster
  import opened Traffic

  // ---- Who gets disconnected ----------------------------------------------

  predicate Blanks(text: Bytes) {
    forall i :: 0 <= i < |text| ==> text[i] == ' ' || '\t' <= text[i] <= '\r'
  }

  /** A decrypted frame the server answers by disconnecting its sender: one with a
      separator before its first NUL, of 4096 bytes or more, or of unknown type; a chat
      of blanks (up to its first NUL); or a request for a name that will not do. */
  predicate Offends(s: Server, data: Bytes) {
    || SEP in CStr(data) || |data| >= 4096
    || data == [] || data[0] !in {'0', '3', '4', '5'}
    || (data[0] == '0' && Blanks(CStr(data[1..])))
    || (data[0] == '3' && (|data| < 2 || !Nameable(s, data[2..])))
  }

  lemma BlankRange(text: Bytes)
    ensures Blank(text) <==> Blanks(text)
  {
  }

  lemma OffendsMeans(s: Server, data: Bytes)
    ensures Offends(s, data) <==>
      || !Accepted(data)
      || data == [] || data[0] !in {'0', '3', '4', '5'}
      || (data[0] == '0' && Blank(CStr(data[1..])))
      || (data[0] == '3' && !(NameFree(s.clients, Drop(data, 2)) && ValidName(Drop(data, 2))))
  {
    hide CStr;
    if data != [] { BlankRange(CStr(data[1..])); }
  }

  /** What gets the polled client disconnected. */
  predicate Kicked(s: Server, p: nat, inp: Input)
    requires p < |s.clients|
  {
    var c := s.clients[p];
    match inp
    case Quiet => false
    case Hangup => true
    case Received(m, t0, t1) =>
      match c.auth
      case Undone => !LogsIn(s, p, inp)
      case KeyReceived => Loads(m) && RefusesServerKey(Insert(s.keys, c.sock, m.modulus)[c.sock])
      case Failed => false
      case Done => t0 - c.clock < 21000 || (m.AesSealed? && m.key == SERVER_KEY && Offends(s, m.payload))
  }

  lemma SendShape(s: Server, to: Socket, m: Message)
    ensures SendTo(s, to, m).clients == s.clients
  {
  }

  lemma NoticeShape(s: Server, p: nat)
    requires p < |s.clients|
    ensures |Disconnect(SendTo(s, s.clients[p].sock, Direct(BLANK_NOTICE)), p).clients| == |s.clients| - 1
  {
    hide Direct, Disconnect;
    DisconnectSteady(SendTo(s, s.clients[p].sock, Direct(BLANK_NOTICE)), p, 0);
  }

  lemma DispatchShape(s: Server, p: nat, line: Bytes)
    requires p < |s.clients|
    ensures Dispatch(s, p, line).clients == s.clients
  {
    hide Args, FindCommand, Reply, Direct, NotFound;
  }

  lemma FrameKicks(s: Server, p: nat, plain: Option<Bytes>, t: nat)
    requires p < |s.clients| && s.clients[p].auth == Done && s.clients[p].id != UNNAMED
    ensures |Frame(s, p, plain, t).clients| == |s.clients| - if plain.Some? && Offends(s, plain.value) then 1 else 0
  {
    if plain.Some? { OffendsMeans(s, plain.value); }
    hide Offends, Direct, Disconnect, Rename, Dispatch, CStr, Blank, Accepted, ValidName, NameFree, Broadcast, SendTo, ChatFrame;
    DisconnectSteady(s, p, 0);
    RenameShape(s, p, if plain.Some? then Drop(plain.value, 2) else []);
    BroadcastShape(s, [], s.clients[p].sock);
    if plain.Some? && plain.value != [] {
      var text := plain.value[1..];
      BroadcastShape(s, CStr(ChatFrame(text, s.clients[p].id)), s.clients[p].sock);
      NoticeShape(s, p);
      DispatchShape(s, p, text);
    }
    assert SendTo(s, s.clients[p].sock, Direct(NOT_SENT_NOTICE)).clients == s.clients by { SendShape(s, s.clients[p].sock, Direct(NOT_SENT_NOTICE)); }
  }

  lemma RestartOffends(s: Server, p: nat, t: nat, m: Message)
    requires p < |s.clients|
    ensures m.AesSealed? ==> (Offends(Touch(s, p, t), m.payload) <==> Offends(s, m.payload))
  {
    assert forall i :: 0 <= i < |s.clients| ==> Touch(s, p, t).clients[i].id == s.clients[i].id;
    hide CStr;
  }

  lemma LoginKicks(s: Server, p: nat, inp: Input)
    requires p < |s.clients| && inp.Received? && s.clients[p].auth == Undone && !LogsIn(s, p, inp)
    ensures |Login(s, p, RsaOpen(s.publicKey, inp.m)).clients| == |s.clients| - 1
  {
    hide Field, NameFree, ValidName, Deliver, DoneSockets, Seal, LeaveFrame, JoinFrame;
  }

  /** A poll removes the polled client exactly in these cases. */
  lemma RemovedExactly(s: Server, p: nat, inp: Input)
    requires Inv(s) && p < |s.clients|
    ensures |Poll(s, p, inp).clients| == |s.clients| - if Kicked(s, p, inp) then 1 else 0
  {
    var c := s.clients[p];
    LoginStores(s, p, inp);
    PollLocal(s, p, inp);
    PollKeys(s, p, inp);
    assert c.auth != Failed && (c.auth == Done ==> c.id != UNNAMED);
    hide Login, Frame, Offends, Inv, LogsIn, NameFree;
    if inp.Received? && c.auth == Done {
      FrameKicks(Touch(s, p, inp.t0), p, AesOpen(SERVER_KEY, inp.m), inp.t1);
      RestartOffends(s, p, inp.t0, inp.m);
    }
    if inp.Received? && c.auth == Undone && !LogsIn(s, p, inp) {
      LoginKicks(s, p, inp);
    }
  }

  // ---- What the others are told -------------------------------------------

  /** What a frame that neither removes nor renames its sender says to connection k:
      its chat text, an empty frame for request 4, or a direct message. */
  function Speech(s: Server, p: nat, plain: Option<Bytes>, k: Socket): seq<Message>
    requires p < |s.clients|
  {
    if plain.None? || !Accepted(plain.value) then []
    else if Starts(plain.value, '0') then [Seal(ChatFrame(plain.value[1..], s.clients[p].id))]
    else if Starts(plain.value, '4') then [Seal([])]
    else if MessageTarget(s, p, plain) == Some(k) then
      var args := Args(plain.value[1..]);
      [Direct(DirectText(args[1], s.clients[p].id, args[2..]))]
    else []
  }

  /** Another Done connection k is told all this and no more: a leave frame when the
      polled client is gone, a join frame when it has a new name, with a welcome after
      it for a new user, and otherwise what it said. */
  predicate ToldRight(s: Server, p: nat, s': Server, k: Socket, welcome: seq<Message>, speech: seq<Message>)
    requires p < |s.clients|
  {
    Sent(s', k) == Sent(s, k) +
      if |s'.clients| < |s.clients| then [Seal(LeaveFrame(s.clients[p].id, s'.clients))]
      else if |s'.clients| == |s.clients| && s'.clients[p].id != s.clients[p].id then
        [Seal(JoinFrame(s'.clients[p].id, s'.clients))] + welcome
      else speech
  }

  lemma DisconnectTold(s: Server, p: nat, k: Socket, welcome: seq<Message>, speech: seq<Message>)
    requires p < |s.clients| && k in s.out && k in DoneSockets(s.clients) - {s.clients[p].sock}
    ensures ToldRight(s, p, Disconnect(s, p), k, welcome, speech)
  {
    hide Seal, LeaveFrame, DoneSockets;
  }

  lemma RenameTold(s: Server, p: nat, name: Bytes, k: Socket)
    requires p < |s.clients| && k in s.out && k in DoneSockets(s.clients) - {s.clients[p].sock}
    ensures var s' := Rename(s, p, name);
      Sent(s', k) == Sent(s, k) + [Seal(JoinFrame(name, s'.clients))]
      && s'.clients == s.clients[p := s.clients[p].(id := name)]
      && k in s'.out && k in DoneSockets(s'.clients) - {s.clients[p].sock}
  {
    DoneKept(s.clients, s.clients[p := s.clients[p].(id := name)], p);
    hide Seal, JoinFrame, DoneSockets;
  }

  lemma NickTold(s: Server, p: nat, name: Bytes, k: Socket, speech: seq<Message>)
    requires p < |s.clients| && k in s.out && k in DoneSockets(s.clients) - {s.clients[p].sock}
    ensures ToldRight(s, p, Nick(s, p, name), k, [], speech)
  {
    RenameTold(s, p, name, k);
    DisconnectTold(s, p, k, [], speech);
    if NameFree(s.clients, name) { assert s.clients[p].id != name; }
    hide Rename, Disconnect, Seal, JoinFrame, LeaveFrame, ValidName, NameFree, DoneSockets, Sent;
  }

  lemma NoticeTold(s: Server, to: Socket, text: Bytes, k: Socket)
    requires k != to
    ensures SendTo(s, to, Direct(text)).clients == s.clients && SendTo(s, to, Direct(text)).out.Keys == s.out.Keys
    ensures Sent(SendTo(s, to, Direct(text)), k) == Sent(s, k)
  {
    hide Direct;
  }

  lemma PublishTold(s: Server, p: nat, data: Bytes, t: nat, k: Socket)
    requires p < |s.clients| && k in s.out && k in DoneSockets(s.clients) - {s.clients[p].sock}
    ensures ToldRight(s, p, Touch(Broadcast(s, data, s.clients[p].sock), p, t), k, [], [Seal(data)])
  {
    hide Seal, DoneSockets;
  }

  lemma ReplySent(s: Server, p: nat, body: Body, args: seq<Bytes>, k: Socket)
    requires p < |s.clients| && |args| >= 2 && k in s.out && k != s.clients[p].sock
    requires Reply(s, p, body, args).Some?
    ensures var reply := Reply(s, p, body, args).value;
      Sent(SendTo(s, reply.0, Direct(reply.1)), k) ==
        Sent(s, k) + if reply.0 == k then [Direct(DirectText(args[1], s.clients[p].id, args[2..]))] else []
  {
    hide Direct, DirectText, CommandList, IndexOf;
  }

  lemma CommandSpeech(s: Server, p: nat, line: Bytes, k: Socket)
    requires p < |s.clients| && Accepted(['5'] + line)
    ensures var args := Args(line);
      Speech(s, p, Some(['5'] + line), k) ==
        if MessageTarget(s, p, Some(['5'] + line)) == Some(k) then [Direct(DirectText(args[1], s.clients[p].id, args[2..]))] else []
  {
    assert (['5'] + line)[1..] == line;
    hide Args, Accepted, MessageTarget, Direct, DirectText;
  }

  lemma CommandTarget(s: Server, p: nat, line: Bytes, k: Socket)
    requires p < |s.clients| && Accepted(['5'] + line) && k != s.clients[p].sock
    ensures var args := Args(line);
      var cmd := FindCommand(s.cmds, args[0]);
      MessageTarget(s, p, Some(['5'] + line)) == Some(k) <==>
        cmd.Some? && var reply := Reply(s, p, cmd.value.body, args); reply.Some? && reply.value.0 == k
  {
    assert (['5'] + line)[1..] == line;
    hide Args, Accepted, FindCommand, Reply, IndexOf;
    var args := Args(line);
    var cmd := FindCommand(s.cmds, args[0]);
    if cmd.Some? { ReplyTarget(s, p, cmd.value.body, args, k); }
  }

  /** Another client hears of a command only the direct message it is sent. */
  lemma DispatchTold(s: Server, p: nat, line: Bytes, k: Socket)
    requires p < |s.clients| && k in s.out && k != s.clients[p].sock && Accepted(['5'] + line)
    ensures ToldRight(s, p, Dispatch(s, p, line), k, [], Speech(s, p, Some(['5'] + line), k))
  {
    CommandSpeech(s, p, line, k);
    CommandTarget(s, p, line, k);
    DispatchShape(s, p, line);
    var args := Args(line);
    var cmd := FindCommand(s.cmds, args[0]);
    NoticeTold(s, s.clients[p].sock, NotFound(line), k);
    if cmd.Some? && Reply(s, p, cmd.value.body, args).Some? { ReplySent(s, p, cmd.value.body, args, k); }
    hide Args, Accepted, FindCommand, NotFound, Reply, Direct, Deliver, DirectText, Speech, MessageTarget, Sent, LeaveFrame, JoinFrame, Seal;
  }

  lemma SealCut(frame: Bytes)
    ensures Seal(CStr(frame)) == Seal(frame)
  {
  }

  /** A blank chat: the notice is for the sender only. */
  lemma NoticedTold(s: Server, p: nat, k: Socket, speech: seq<Message>)
    requires p < |s.clients| && k in s.out && k in DoneSockets(s.clients) - {s.clients[p].sock}
    ensures ToldRight(s, p, Disconnect(SendTo(s, s.clients[p].sock, Direct(BLANK_NOTICE)), p), k, [], speech)
  {
    NoticeTold(s, s.clients[p].sock, BLANK_NOTICE, k);
    DisconnectTold(SendTo(s, s.clients[p].sock, Direct(BLANK_NOTICE)), p, k, [], speech);
    hide Disconnect, SendTo, DoneSockets, LeaveFrame, JoinFrame, Seal, Direct, Sent;
  }

  lemma ChatTold(s: Server, p: nat, text: Bytes, t: nat, k: Socket)
    requires p < |s.clients| && k in s.out && k in DoneSockets(s.clients) - {s.clients[p].sock}
    ensures ToldRight(s, p, Chat(s, p, text, t), k, [], [Seal(ChatFrame(text, s.clients[p].id))])
  {
    hide ToldRight, Disconnect, DoneSockets, CStr, Blank, ChatFrame, Seal, Direct, Touch, Broadcast, SendTo;
    var frame := ChatFrame(text, s.clients[p].id);
    SealCut(frame);
    DisconnectTold(s, p, k, [], [Seal(frame)]);
    NoticedTold(s, p, k, [Seal(frame)]);
    PublishTold(s, p, CStr(frame), t, k);
  }

  lemma OnlyCommandsMessage(s: Server, p: nat, plain: Option<Bytes>)
    requires p < |s.clients|
    ensures plain.None? || !Starts(plain.value, '5') ==> MessageTarget(s, p, plain) == None
  {
    hide Args, FindCommand, Accepted;
  }

  lemma FrameTold(s: Server, p: nat, plain: Option<Bytes>, t: nat, k: Socket)
    requires p < |s.clients| && k in s.out && k in DoneSockets(s.clients) - {s.clients[p].sock}
    ensures ToldRight(s, p, Frame(s, p, plain, t), k, [], Speech(s, p, plain, k))
  {
    hide Disconnect, Chat, Nick, Dispatch, Touch, Broadcast, DoneSockets, Accepted, ChatFrame, Direct, MessageTarget, Args, DirectText, Sent, JoinFrame, LeaveFrame, Seal, SendTo;
    DisconnectTold(s, p, k, [], Speech(s, p, plain, k));
    NoticeTold(s, s.clients[p].sock, NOT_SENT_NOTICE, k);
    PublishTold(s, p, [], t, k);
    OnlyCommandsMessage(s, p, plain);
    if plain.Some? && plain.value != [] {
      NickTold(s, p, Drop(plain.value, 2), k, Speech(s, p, plain, k));
      ChatTold(s, p, plain.value[1..], t, k);
      if Accepted(plain.value) && Starts(plain.value, '5') {
        assert plain.value == ['5'] + plain.value[1..];
        DispatchTold(s, p, plain.value[1..], k);
      }
    }
    hide ToldRight;
  }

  function WelcomeNews(s: Server, inp: Input): seq<Message> {
    var uname := Presented(s, inp).0;
    if uname in s.users then [] else [Seal(Welcome(uname))]
  }

  lemma SameRoster(s: Server, p: nat, name: Bytes)
    requires p < |s.clients|
    ensures var named := s.clients[p := s.clients[p].(id := name)];
      JoinFrame(name, named[p := named[p].(auth := KeyReceived)]) == JoinFrame(name, named)
  {
    var named := s.clients[p := s.clients[p].(id := name)];
    assert Ids(named[p := named[p].(auth := KeyReceived)]) == Ids(named);
  }

  lemma RegisterTold(s: Server, p: nat, uname: Bytes, passwd: Bytes, k: Socket)
    requires p < |s.clients| && k in s.out && k in DoneSockets(s.clients) - {s.clients[p].sock}
    ensures var s' := Register(s, p, uname, passwd);
      s'.clients == s.clients && Sent(s', k) == Sent(s, k) + [Seal(Welcome(uname))]
  {
    hide Seal, DoneSockets, Welcome;
  }

  lemma AskedTold(s: Server, p: nat, k: Socket)
    requires p < |s.clients| && k != s.clients[p].sock
    ensures var s' := SendTo(SetAuth(s, p, KeyReceived), s.clients[p].sock, KeyRequest);
      s'.clients == s.clients[p := s.clients[p].(auth := KeyReceived)] && Sent(s', k) == Sent(s, k)
  {
  }

  lemma AdmitSent(s: Server, p: nat, uname: Bytes, passwd: Bytes, k: Socket)
    requires p < |s.clients| && k in s.out && k in DoneSockets(s.clients) - {s.clients[p].sock}
    ensures var welcome := if uname in s.users then [] else [Seal(Welcome(uname))];
      Sent(Admit(s, p, uname, passwd), k)
        == Sent(s, k) + [Seal(JoinFrame(uname, s.clients[p := s.clients[p].(id := uname)]))] + welcome
  {
    hide Rename, Register, SendTo, SetAuth, DoneSockets, Seal, Welcome, JoinFrame, Sent;
    var named := Rename(s, p, uname);
    RenameTold(s, p, uname, k);
    RegisterTold(named, p, uname, passwd, k);
    AskedTold(named, p, k);
    AskedTold(Register(named, p, uname, passwd), p, k);
  }

  /** A login that succeeds: a join frame, and a welcome for a new user. */
  lemma AdmitTold(s: Server, p: nat, uname: Bytes, passwd: Bytes, k: Socket)
    requires p < |s.clients| && k in s.out && k in DoneSockets(s.clients) - {s.clients[p].sock}
    requires s.clients[p].id != uname
    ensures ToldRight(s, p, Admit(s, p, uname, passwd), k, if uname in s.users then [] else [Seal(Welcome(uname))], [])
  {
    hide Admit, DoneSockets, Seal, Welcome, JoinFrame, LeaveFrame, Sent;
    AdmitShape(s, p, uname, passwd);
    AdmitSent(s, p, uname, passwd, k);
    SameRoster(s, p, uname);
    assert s.clients[p := s.clients[p].(id := uname, auth := KeyReceived)]
      == s.clients[p := s.clients[p].(id := uname)][p := s.clients[p].(id := uname).(auth := KeyReceived)];
  }

  lemma LoginTold(s: Server, p: nat, inp: Input, k: Socket)
    requires p < |s.clients| && inp.Received? && s.clients[p].auth == Undone
    requires k in s.out && k in DoneSockets(s.clients) - {s.clients[p].sock}
    ensures ToldRight(s, p, Login(s, p, RsaOpen(s.publicKey, inp.m)), k, WelcomeNews(s, inp), [])
  {
    var credentials := RsaOpen(s.publicKey, inp.m);
    hide Disconnect, DoneSockets, Seal, Field, Welcome, ToldRight, Admit, ValidName;
    DisconnectTold(s, p, k, WelcomeNews(s, inp), []);
    if credentials.Some? && NameFree(s.clients, Field(credentials.value, 0)) {
      AdmitTold(s, p, Field(credentials.value, 0), Field(credentials.value, 1), k);
    }
  }

  lemma TransferTold(s: Server, p: nat, m: Message, k: Socket)
    requires p < |s.clients| && k in s.out && k in DoneSockets(s.clients) - {s.clients[p].sock}
    ensures ToldRight(s, p, TransferKey(s, p, m), k, [], [])
  {
    hide Disconnect, DoneSockets, LeaveFrame, JoinFrame, Seal, RefusesServerKey;
    if Loads(m) {
      DisconnectTold(s.(keys := Insert(s.keys, s.clients[p].sock, m.modulus)), p, k, [], []);
    }
  }

  lemma RestartSpeech(s: Server, p: nat, t: nat, plain: Option<Bytes>, k: Socket)
    requires p < |s.clients| && k != s.clients[p].sock
    ensures Speech(Touch(s, p, t), p, plain, k) == Speech(s, p, plain, k)
  {
    RestartTraffic(s, p, t, plain, k);
    hide MessageTarget, Args, DirectText, ChatFrame, Seal, Direct, Accepted;
  }

  lemma RestartTold(s: Server, p: nat, t: nat, s': Server, k: Socket, welcome: seq<Message>, speech: seq<Message>)
    requires p < |s.clients| && ToldRight(Touch(s, p, t), p, s', k, welcome, speech)
    ensures ToldRight(s, p, s', k, welcome, speech)
  {
    hide Seal, LeaveFrame, JoinFrame;
  }

  lemma QuietTold(s: Server, p: nat, k: Socket, welcome: seq<Message>)
    requires p < |s.clients|
    ensures ToldRight(s, p, s, k, welcome, [])
  {
  }

  /** A Done client's frame in time, in-time check included. */
  lemma DoneTold(s: Server, p: nat, inp: Input, k: Socket)
    requires p < |s.clients| && s.clients[p].auth == Done && inp.Received?
    requires k in s.out && k in DoneSockets(s.clients) - {s.clients[p].sock}
    ensures ToldRight(s, p, Poll(s, p, inp), k, [], Speech(s, p, AesOpen(SERVER_KEY, inp.m), k))
  {
    var restarted, plain := Touch(s, p, inp.t0), AesOpen(SERVER_KEY, inp.m);
    var speech := Speech(s, p, plain, k);
    DoneKept(s.clients, restarted.clients, p);
    RestartSpeech(s, p, inp.t0, plain, k);
    assert restarted.clients[p].sock == s.clients[p].sock && restarted.out == s.out;
    hide Frame, Disconnect, DoneSockets, Speech, ToldRight, TooSoon, Touch;
    DisconnectTold(restarted, p, k, [], speech);
    FrameTold(restarted, p, plain, inp.t1, k);
    RestartTold(s, p, inp.t0, Poll(s, p, inp), k, [], speech);
  }

  function Told(s: Server, p: nat, inp: Input, k: Socket): seq<Message>
    requires p < |s.clients|
  {
    if inp.Received? && s.clients[p].auth == Done then Speech(s, p, AesOpen(SERVER_KEY, inp.m), k) else []
  }

  /** Every other Done client is told of a departure by one leave frame naming who left
      and who remains, of a new name by one join frame naming it and everyone, followed
      by a welcome when the name is a newly registered user's, and else exactly what
      the polled client said to it. */
  lemma OthersTold(s: Server, p: nat, inp: Input, k: Socket)
    requires Inv(s) && p < |s.clients| && k in DoneSockets(s.clients) - {s.clients[p].sock}
    ensures ToldRight(s, p, Poll(s, p, inp), k,
                      if s.clients[p].auth == Undone then WelcomeNews(s, inp) else [], Told(s, p, inp, k))
  {
    var c := s.clients[p];
    assert k in s.out && c.auth != Failed;
    hide Frame, Login, TransferKey, Disconnect, Inv, DoneSockets, WelcomeNews, TooSoon, Speech, ToldRight;
    if inp.Quiet? {
      QuietTold(s, p, k, if c.auth == Undone then WelcomeNews(s, inp) else []);
    } else if inp.Hangup? {
      DisconnectTold(s, p, k, if c.auth == Undone then WelcomeNews(s, inp) else [], []);
    } else {
      match c.auth
      case Undone => LoginTold(s, p, inp, k);
      case KeyReceived => TransferTold(s, p, inp.m, k);
      case Done => DoneTold(s, p, inp, k);
    }
  }
}
