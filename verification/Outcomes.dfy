/** What a poll does to the polled client itself: its name, its clock, what it hears,
    and whether the server survives it. */
module Outcomes {
  import opened Bytes
  import opened Crypto
  import opened Session
  import opened Invariants
  import opened Accounts
  import opened Traffic
  import opened Announcements
  import opened EndToEnd

  lemma TransferEnds(s: Server, p: nat, m: Message)
    requires p < |s.clients|
    ensures TransferKey(s, p, m).running <==> s.running && Loads(m)
  {
    hide RefusesServerKey, Deliver, Seal, LeaveFrame, DoneSockets;
  }

  /** The process ends exactly when a logged-in client sends, in place of its key, a
      text that is no number or an even one. */
  lemma EndsExactly(s: Server, p: nat, inp: Input)
    requires Inv(s) && p < |s.clients|
    ensures Poll(s, p, inp).running <==>
      s.running && !(inp.Received? && s.clients[p].auth == KeyReceived && (inp.m.KeyText? ==> inp.m.modulus % 2 == 0))
  {
    var c := s.clients[p];
    assert c.auth != Failed;
    hide Frame, Login, Inv, TransferKey, Disconnect;
    DisconnectSteady(s, p, 0);
    if inp.Received? {
      match c.auth
      case Undone => LoginLocal(s, p, RsaOpen(s.publicKey, inp.m));
      case KeyReceived => TransferEnds(s, p, inp.m);
      case Done =>
        DisconnectSteady(Touch(s, p, inp.t0), p, 0);
        FrameSteady(Touch(s, p, inp.t0), p, AesOpen(SERVER_KEY, inp.m), inp.t1);
    }
  }

  // ---- Names and clocks ---------------------------------------------------

  /** What the polled client's message opens to when it is Done, in time and sealed for
      the session. */
  function Said(s: Server, p: nat, inp: Input): Option<Bytes>
    requires p < |s.clients|
  {
    if inp.Received? && s.clients[p].auth == Done && inp.t0 - s.clients[p].clock >= 21000 then AesOpen(SERVER_KEY, inp.m)
    else None
  }

  lemma FrameRecord(s: Server, p: nat, plain: Option<Bytes>, t: nat)
    requires p < |s.clients| && s.clients[p].id != UNNAMED && |Frame(s, p, plain, t).clients| == |s.clients|
    ensures var c, c' := s.clients[p], Frame(s, p, plain, t).clients[p];
      && c'.id == (if plain.Some? && Starts(plain.value, '3') then Drop(plain.value, 2) else c.id)
      && c'.clock == if plain.Some? && (Starts(plain.value, '0') || Starts(plain.value, '4')) then t else c.clock
  {
    hide Direct, Disconnect, Rename, Dispatch, CStr, Blank, Accepted, ValidName, NameFree, Broadcast, SendTo, ChatFrame;
    DisconnectSteady(s, p, 0);
    SendShape(s, s.clients[p].sock, Direct(NOT_SENT_NOTICE));
    BroadcastShape(s, [], s.clients[p].sock);
    if plain.Some? && plain.value != [] {
      RenameShape(s, p, Drop(plain.value, 2));
      BroadcastShape(s, CStr(ChatFrame(plain.value[1..], s.clients[p].id)), s.clients[p].sock);
      NoticeShape(s, p);
      DispatchShape(s, p, plain.value[1..]);
    }
  }

  lemma DoneRecord(s: Server, p: nat, inp: Input)
    requires p < |s.clients| && s.clients[p].auth == Done && s.clients[p].id != UNNAMED && inp.Received?
    requires |Poll(s, p, inp).clients| == |s.clients|
    ensures var c, c', said := s.clients[p], Poll(s, p, inp).clients[p], Said(s, p, inp);
      && c'.id == (if said.Some? && Starts(said.value, '3') then Drop(said.value, 2) else c.id)
      && c'.clock == if said.Some? && (Starts(said.value, '0') || Starts(said.value, '4')) then inp.t1 else inp.t0
  {
    hide Frame, Disconnect, Starts, Drop;
    var restarted := Touch(s, p, inp.t0);
    DisconnectSteady(restarted, p, 0);
    FrameRecord(restarted, p, AesOpen(SERVER_KEY, inp.m), inp.t1) by {
      assert |restarted.clients| == |s.clients|;
    }
  }

  lemma RecordKept(s: Server, p: nat, inp: Input)
    requires Inv(s) && p < |s.clients| && |Poll(s, p, inp).clients| == |s.clients|
    ensures var c, c', said := s.clients[p], Poll(s, p, inp).clients[p], Said(s, p, inp);
      && (c.auth != Undone ==> c'.id == if said.Some? && Starts(said.value, '3') then Drop(said.value, 2) else c.id)
      && c'.clock ==
        if !inp.Received? || c.auth != Done then c.clock
        else if said.Some? && (Starts(said.value, '0') || Starts(said.value, '4')) then inp.t1 else inp.t0
  {
    var c := s.clients[p];
    assert c.auth != Failed && (c.auth == Done ==> c.id != UNNAMED);
    hide Frame, Login, TransferKey, Inv, Disconnect, RefusesServerKey, Insert, Starts, Drop;
    DisconnectSteady(s, p, 0);
    if inp.Received? {
      match c.auth
      case Undone => LoginLocal(s, p, RsaOpen(s.publicKey, inp.m));
      case KeyReceived =>
        TransferClock(s, p, inp.m);
        TransferShape(s, p, inp.m);
      case Done => DoneRecord(s, p, inp);
    }
  }

  /** A client that is logged in and stays takes a new name exactly by asking for one,
      and it is the one asked for. */
  lemma RenamedExactly(s: Server, p: nat, inp: Input)
    requires Inv(s) && p < |s.clients| && s.clients[p].auth != Undone && |Poll(s, p, inp).clients| == |s.clients|
    ensures var said := Said(s, p, inp);
      Poll(s, p, inp).clients[p].id ==
        if said.Some? && |said.value| >= 2 && said.value[0] == '3' then said.value[2..] else s.clients[p].id
  {
    RecordKept(s, p, inp);
    RemovedExactly(s, p, inp);
    hide Poll, Inv, CStr;
  }

  /** A client's clock restarts when its message is read, and again when it is a chat
      or a request that has been passed on. */
  lemma ClockExactly(s: Server, p: nat, inp: Input)
    requires Inv(s) && p < |s.clients| && |Poll(s, p, inp).clients| == |s.clients|
    ensures var c, said := s.clients[p], Said(s, p, inp);
      Poll(s, p, inp).clients[p].clock ==
        if !inp.Received? || c.auth != Done then c.clock
        else if said.Some? && said.value != [] && said.value[0] in {'0', '4'} then inp.t1 else inp.t0
  {
    RecordKept(s, p, inp);
    hide Poll, Inv;
  }

  // ---- What the client itself hears ---------------------------------------

  /** The reply to each of the three commands of a started server. */
  function BodyReply(id: Bytes, body: Body, arg: Bytes): Option<Bytes> {
    match body
    case Help =>
      Some(if arg == [] then "Avail commands: /help /plugins /msg "
           else "Multiple args is not supported by the command: help")
    case Plugins => Some("Plugins (0): ")
    case Msg => if arg == id then Some("You cannot send message to yourself") else None
  }

  /** The reply to a command line. */
  function CommandReply(s: Server, p: nat, line: Bytes): Option<Bytes>
    requires p < |s.clients|
  {
    var id, args := s.clients[p].id, Args(line);
    if args[0] == "help" then BodyReply(id, Help, args[1])
    else if args[0] == "plugins" then BodyReply(id, Plugins, args[1])
    else if args[0] == "msg" then BodyReply(id, Msg, args[1])
    else Some("Command " + line + " was not found. Type /help to get help.")
  }

  function BlankReply(text: Bytes): Option<Bytes> {
    if Blanks(text) then Some("Stop sending empty shit.") else None
  }

  function FrameReply(s: Server, p: nat, data: Bytes): Option<Bytes>
    requires p < |s.clients|
  {
    if SEP in CStr(data) || |data| >= 4096 || data == [] then None
    else if data[0] == '0' then BlankReply(CStr(data[1..]))
    else if data[0] == '5' then CommandReply(s, p, data[1..])
    else None
  }

  /** What the sender of a frame in time is told. */
  function Answer(s: Server, p: nat, plain: Option<Bytes>): Option<Bytes>
    requires p < |s.clients|
  {
    if plain.None? then Some("Your previous message was not sent") else FrameReply(s, p, plain.value)
  }

  function Notice(text: Option<Bytes>): seq<Message> {
    if text.None? then [] else [AesSealed(SERVER_KEY, "6" + [SEP] + CStr(text.value))]
  }

  lemma BroadcastSelf(s: Server, frame: Bytes, k: Socket)
    ensures Sent(Broadcast(s, frame, k), k) == Sent(s, k)
  {
    hide Seal, DoneSockets;
  }

  lemma RenameSelf(s: Server, p: nat, name: Bytes)
    requires p < |s.clients|
    ensures Sent(Rename(s, p, name), s.clients[p].sock) == Sent(s, s.clients[p].sock)
  {
    hide Seal, JoinFrame, DoneSockets;
  }

  lemma DirectSelf(s: Server, k: Socket, text: Bytes)
    requires k in s.out
    ensures Sent(SendTo(s, k, Direct(text)), k) == Sent(s, k) + Notice(Some(text))
    ensures SendTo(s, k, Direct(text)).clients == s.clients
  {
    DirectPayload(text);
    hide Direct, CStr;
  }

  lemma FindBuiltIn(name: Bytes)
    ensures FindCommand(BUILT_IN, name) ==
      if name == "help" then Some(Command("help", Help))
      else if name == "plugins" then Some(Command("plugins", Plugins))
      else if name == "msg" then Some(Command("msg", Msg))
      else None
  {
    assert BUILT_IN[1..] == [Command("plugins", Plugins), Command("msg", Msg)];
    assert BUILT_IN[1..][1..] == [Command("msg", Msg)];
    assert BUILT_IN[1..][1..][1..] == [];
  }

  lemma ListBuiltIn()
    ensures CommandList(BUILT_IN) == "/help /plugins /msg "
  {
    var one, two := BUILT_IN[..1], BUILT_IN[..2];
    assert one[..0] == [] && two[..1] == one;
    assert CommandList(one) == "/help ";
    assert CommandList(two) == "/help " + "/" + "plugins" + " ";
    assert CommandList(BUILT_IN) == CommandList(two) + "/" + "msg" + " ";
  }

  lemma NothingMore(sent: seq<Message>)
    ensures sent + Notice(None) == sent
  {
  }

  lemma MessageSelf(s: Server, p: nat, args: seq<Bytes>)
    requires Inv(s) && p < |s.clients| && s.clients[p].id != UNNAMED && |args| >= 2
    ensures var reply := Reply(s, p, Msg, args);
      if args[1] == s.clients[p].id then reply == Some((s.clients[p].sock, "You cannot send message to yourself"))
      else reply.None? || reply.value.0 != s.clients[p].sock
  {
    var i := IndexOf(Ids(s.clients), args[1]);
    if args[1] != UNNAMED && args[1] != s.clients[p].id && i >= 0 {
      assert s.clients[i].id == args[1] && i != p;
      assert DistinctSockets(s.clients);
    }
    hide IndexOf, DirectText, NamesOk;
  }

  lemma HelpText()
    ensures "Avail commands: " + CommandList(BUILT_IN) == "Avail commands: /help /plugins /msg "
  {
    ListBuiltIn();
    hide CommandList;
  }

  lemma HelpSelf(s: Server, p: nat, args: seq<Bytes>)
    requires s.cmds == BUILT_IN && p < |s.clients| && |args| >= 2
    ensures Reply(s, p, Help, args) == Some((s.clients[p].sock, BodyReply(s.clients[p].id, Help, args[1]).value))
    ensures BodyReply(s.clients[p].id, Help, args[1]).Some?
  {
    HelpText();
    hide CommandList;
  }

  lemma BodySelf(s: Server, p: nat, body: Body, args: seq<Bytes>)
    requires Inv(s) && s.cmds == BUILT_IN && p < |s.clients| && s.clients[p].id != UNNAMED && |args| >= 2
    ensures var k := s.clients[p].sock;
      Sent(RunBody(s, p, body, args), k) == Sent(s, k) + Notice(BodyReply(s.clients[p].id, body, args[1]))
  {
    var k := s.clients[p].sock;
    assert k in s.out;
    hide Inv, Direct, CommandList, Notice, Sent, SendTo;
    match body
    case Help =>
      HelpSelf(s, p, args);
      hide Reply, BodyReply;
      DirectSelf(s, k, Reply(s, p, Help, args).value.1);
    case Plugins =>
      DirectSelf(s, k, "Plugins (0): ");
    case Msg =>
      MessageSelf(s, p, args);
      hide Reply;
      NothingMore(Sent(s, k));
      var reply := Reply(s, p, Msg, args);
      if reply.Some? && reply.value.0 == k { DirectSelf(s, k, reply.value.1); }
      if reply.Some? && reply.value.0 != k { NoticeTold(s, reply.value.0, reply.value.1, k); }
  }

  lemma CommandSelf(s: Server, p: nat, line: Bytes)
    requires Inv(s) && s.cmds == BUILT_IN && p < |s.clients| && s.clients[p].id != UNNAMED
    ensures var k := s.clients[p].sock;
      Sent(Dispatch(s, p, line), k) == Sent(s, k) + Notice(CommandReply(s, p, line))
  {
    var k, args := s.clients[p].sock, Args(line);
    assert k in s.out;
    FindBuiltIn(args[0]);
    DirectSelf(s, k, NotFound(line));
    hide Args, Direct, CommandList, FindCommand, Inv, Notice, Sent, SendTo, BodyReply, RunBody;
    BodySelf(s, p, Help, args);
    BodySelf(s, p, Plugins, args);
    BodySelf(s, p, Msg, args);
  }

  lemma BlankReplyIs(text: Bytes)
    ensures BlankReply(text) == if Blank(text) then Some(BLANK_NOTICE) else None
  {
    BlankRange(text);
    hide Blank;
  }

  lemma NoticedSelf(s: Server, p: nat)
    requires p < |s.clients| && s.clients[p].sock in s.out
    ensures var k := s.clients[p].sock;
      Sent(Disconnect(SendTo(s, k, Direct(BLANK_NOTICE)), p), k) == Sent(s, k) + Notice(Some(BLANK_NOTICE))
  {
    var k := s.clients[p].sock;
    DirectSelf(s, k, BLANK_NOTICE);
    DisconnectSelf(SendTo(s, k, Direct(BLANK_NOTICE)), p);
    hide Disconnect, SendTo, Direct, Notice, Sent;
  }

  lemma PublishSelf(s: Server, p: nat, frame: Bytes, t: nat)
    requires p < |s.clients|
    ensures var k := s.clients[p].sock;
      Sent(Touch(Broadcast(s, frame, k), p, t), k) == Sent(s, k)
  {
    BroadcastSelf(s, frame, s.clients[p].sock);
    hide Seal, DoneSockets;
  }

  lemma ChatSelf(s: Server, p: nat, text: Bytes, t: nat)
    requires p < |s.clients| && s.clients[p].sock in s.out
    ensures var k := s.clients[p].sock;
      Sent(Chat(s, p, text, t), k) == Sent(s, k) + Notice(BlankReply(CStr(text)))
  {
    hide Disconnect, Broadcast, Touch, Direct, ChatFrame, CStr, Blank, BlankReply, Notice, SendTo, Sent;
    BlankReplyIs(CStr(text));
    DisconnectSelf(s, p);
    NoticedSelf(s, p);
    PublishSelf(s, p, CStr(ChatFrame(text, s.clients[p].id)), t);
    NothingMore(Sent(s, s.clients[p].sock));
  }

  lemma NickSelf(s: Server, p: nat, name: Bytes)
    requires p < |s.clients|
    ensures Sent(Nick(s, p, name), s.clients[p].sock) == Sent(s, s.clients[p].sock)
  {
    RenameSelf(s, p, name);
    DisconnectSelf(s, p);
    hide Rename, Disconnect, NameFree, ValidName;
  }

  lemma FrameSelf(s: Server, p: nat, data: Bytes, t: nat)
    requires Inv(s) && s.cmds == BUILT_IN && p < |s.clients| && s.clients[p].id != UNNAMED
    ensures var k := s.clients[p].sock;
      Sent(Frame(s, p, Some(data), t), k) == Sent(s, k) + Notice(FrameReply(s, p, data))
  {
    var k := s.clients[p].sock;
    assert k in s.out;
    hide Inv, Disconnect, Chat, Nick, Dispatch, Touch, Broadcast, Direct, Notice, SendTo, CStr, BlankReply, CommandReply, Sent, Drop;
    NothingMore(Sent(s, k));
    DisconnectSelf(s, p);
    if Accepted(data) && data != [] {
      hide Accepted;
      if data[0] == '0' {
        ChatSelf(s, p, data[1..], t);
      } else if data[0] == '3' {
        NickSelf(s, p, Drop(data, 2));
      } else if data[0] == '4' {
        PublishSelf(s, p, [], t);
      } else if data[0] == '5' {
        CommandSelf(s, p, data[1..]);
      }
    }
  }

  lemma AnswerSent(s: Server, p: nat, plain: Option<Bytes>, t: nat)
    requires Inv(s) && s.cmds == BUILT_IN && p < |s.clients| && s.clients[p].id != UNNAMED
    ensures var k := s.clients[p].sock;
      Sent(Frame(s, p, plain, t), k) == Sent(s, k) + Notice(Answer(s, p, plain))
  {
    assert s.clients[p].sock in s.out;
    if plain.None? {
      DirectSelf(s, s.clients[p].sock, NOT_SENT_NOTICE);
      hide Notice, Direct, SendTo, Sent;
    } else {
      hide FrameReply, Frame, Notice;
      FrameSelf(s, p, plain.value, t);
    }
  }

  lemma RestartAnswer(s: Server, p: nat, t: nat, plain: Option<Bytes>)
    requires p < |s.clients|
    ensures Answer(Touch(s, p, t), p, plain) == Answer(s, p, plain)
  {
    hide Args, CStr, BlankReply, BodyReply;
  }

  lemma RestartInv(s: Server, p: nat, t: nat)
    requires Inv(s) && p < |s.clients|
    ensures Inv(Touch(s, p, t)) && Touch(s, p, t).cmds == s.cmds && |Touch(s, p, t).clients| == |s.clients|
  {
    hide ValidName;
  }

  /** What a client that is past the handshake hears of its own message: that it was not
      sent, that its chat was blank, or the reply to its command, as one direct
      message, and otherwise nothing. */
  lemma AnsweredExactly(s: Server, p: nat, inp: Input)
    requires Inv(s) && s.cmds == BUILT_IN && p < |s.clients| && s.clients[p].auth == Done
    ensures var k := s.clients[p].sock;
      Sent(Poll(s, p, inp), k) == Sent(s, k) +
        Notice(if inp.Received? && inp.t0 - s.clients[p].clock >= 21000 then Answer(s, p, AesOpen(SERVER_KEY, inp.m)) else None)
  {
    var k := s.clients[p].sock;
    assert s.clients[p].id != UNNAMED;
    NothingMore(Sent(s, k));
    DisconnectSelf(s, p);
    if inp.Received? {
      var restarted := Touch(s, p, inp.t0);
      assert restarted.clients[p].sock == k && restarted.out == s.out && restarted.clients[p].id == s.clients[p].id;
      assert Inv(restarted) by { RestartInv(s, p, inp.t0); }
      hide Inv, Frame, Disconnect, Notice, Answer, Touch;
      RestartAnswer(s, p, inp.t0, AesOpen(SERVER_KEY, inp.m));
      DisconnectSelf(restarted, p);
      assert restarted.cmds == s.cmds && p < |restarted.clients|;
      AnswerSent(restarted, p, AesOpen(SERVER_KEY, inp.m), inp.t1);
    }
  }
}
