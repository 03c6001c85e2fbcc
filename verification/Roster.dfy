/** Agreement between the server's list of names and the list each client last
    received, over whole runs. */
module Roster {
  import opened Bytes
  import opened Credentials
  import opened Crypto
  import opened Session
  import opened Invariants

  /** The list of names a sent message carries, as its receiver's lexer finds it:
      fields 2 onward of a join or leave frame. */
  function RosterOf(m: Message): Option<seq<Bytes>> {
    if AesOpen(SERVER_KEY, m).None? then None
    else
      var f := Split(m.payload, SEP);
      if f[0] in {"1", "2"} then Some(if |f| < 2 then [] else f[2..]) else None
  }

  /** The list in the latest join or leave frame among these messages. */
  function LastRoster(sent: seq<Message>): Option<seq<Bytes>> {
    if sent == [] then None
    else
      var r := RosterOf(sent[|sent| - 1]);
      if r.Some? then r else LastRoster(sent[..|sent| - 1])
  }

  lemma {:induction false} LastRosterConcat(a: seq<Message>, b: seq<Message>)
    ensures LastRoster(a + b) == if LastRoster(b).Some? then LastRoster(b) else LastRoster(a)
    decreases |b|
  {
    if b == [] {
      assert a + b == a;
    } else {
      var n := |b| - 1;
      assert (a + b)[..|a + b| - 1] == a + b[..n];
      LastRosterConcat(a, b[..n]);
    }
  }

  // ---- Which frames carry a roster, and what it says ----------------------

  predicate Clean(field: Bytes) {
    SEP !in field && NUL !in field
  }

  lemma ValidNameClean(name: Bytes)
    requires name == UNNAMED || ValidName(name)
    ensures Clean(name)
  {
  }

  lemma {:induction false} NamedClean(ids: seq<Bytes>)
    requires forall i :: 0 <= i < |ids| ==> ids[i] == UNNAMED || ValidName(ids[i])
    ensures forall i :: 0 <= i < |NamedAmong(ids)| ==> Clean(NamedAmong(ids)[i])
  {
    if ids != [] {
      NamedClean(ids[..|ids| - 1]);
      ValidNameClean(ids[|ids| - 1]);
    }
  }

  lemma {:induction false} JoinCleanCStr(fields: seq<Bytes>)
    requires forall i :: 0 <= i < |fields| ==> Clean(fields[i])
    ensures CStr(Join(fields, SEP)) == Join(fields, SEP)
  {
    if |fields| > 1 {
      var n := |fields| - 1;
      JoinCleanCStr(fields[..n]);
      CStrConcat(Join(fields[..n], SEP), [SEP] + fields[n]);
      CStrConcat([SEP], fields[n]);
      assert Join(fields[..n], SEP) + ([SEP] + fields[n]) == Join(fields, SEP);
    }
  }

  /** The positions of the logged-in clients, in order. */
  function Positions(clients: seq<Client>): (at: seq<nat>)
    ensures forall n :: 0 <= n < |at| ==> at[n] < |clients| && clients[at[n]].auth != Undone
    ensures forall m, n :: 0 <= m < n < |at| ==> at[m] < at[n]
  {
    if clients == [] then []
    else
      var last := |clients| - 1;
      Positions(clients[..last]) + if clients[last].auth != Undone then [last] else []
  }

  lemma {:induction false} PositionsAll(clients: seq<Client>, i: nat)
    requires i < |clients| && clients[i].auth != Undone
    ensures i in Positions(clients)
    decreases |clients|
  {
    var last := |clients| - 1;
    if i < last {
      PositionsAll(clients[..last], i);
    } else {
      assert Positions(clients)[|Positions(clients)| - 1] == i;
    }
  }

  lemma {:induction false} NamedAt(clients: seq<Client>)
    requires forall i :: 0 <= i < |clients| ==> (clients[i].id == UNNAMED <==> clients[i].auth == Undone)
    ensures |NamedIds(clients)| == |Positions(clients)|
    ensures forall n :: 0 <= n < |Positions(clients)| ==> NamedIds(clients)[n] == clients[Positions(clients)[n]].id
    decreases |clients|
  {
    if clients != [] {
      var last := |clients| - 1;
      NamedAt(clients[..last]);
      assert Ids(clients)[..last] == Ids(clients[..last]);
    }
  }

  /** The list of names is the ids of exactly the clients that have logged in, in the
      order of their positions, and none is in it twice. */
  lemma NamedExactly(clients: seq<Client>)
    requires NamesOk(clients)
    ensures forall i :: 0 <= i < |clients| ==> (clients[i].auth != Undone <==> i in Positions(clients))
    ensures |NamedIds(clients)| == |Positions(clients)|
    ensures forall n :: 0 <= n < |Positions(clients)| ==> NamedIds(clients)[n] == clients[Positions(clients)[n]].id
    ensures forall m, n :: 0 <= m < n < |NamedIds(clients)| ==> NamedIds(clients)[m] != NamedIds(clients)[n]
  {
    NamedAt(clients);
    hide NamedIds, ValidName;
    forall i | 0 <= i < |clients| && clients[i].auth != Undone
      ensures i in Positions(clients)
    {
      PositionsAll(clients, i);
    }
    hide Positions;
  }

  predicate GoodIds(clients: seq<Client>) {
    forall i :: 0 <= i < |clients| ==> clients[i].id == UNNAMED || ValidName(clients[i].id)
  }

  lemma CleanFields(kind: Bytes, id: Bytes, names: seq<Bytes>)
    requires kind in {"1", "2"} && Clean(id)
    requires forall i :: 0 <= i < |names| ==> Clean(names[i])
    ensures var fields := [kind, id] + names;
      Free(fields, SEP) && forall i :: 0 <= i < |fields| ==> Clean(fields[i])
  {
    var fields := [kind, id] + names;
    assert Clean("1") && Clean("2");
    assert forall i :: 2 <= i < |fields| ==> fields[i] == names[i - 2];
  }

  /** A join or leave frame reaches its receivers as written, and their lexers
      find exactly the server's named ids in it, in array order. */
  lemma FrameRoster(kind: Bytes, id: Bytes, clients: seq<Client>)
    requires kind in {"1", "2"} && (id == UNNAMED || ValidName(id)) && GoodIds(clients)
    ensures var m := Seal(Join([kind, id] + NamedIds(clients), SEP));
      && m.AesSealed?
      && Split(m.payload, SEP) == [kind, id] + NamedIds(clients)
      && RosterOf(m) == Some(NamedIds(clients))
  {
    var fields := [kind, id] + NamedIds(clients);
    CleanFields(kind, id, NamedIds(clients)) by {
      NamedClean(Ids(clients));
      ValidNameClean(id);
    }
    hide CStr, Join, Split, ValidName, NamedIds, GoodIds;
    JoinCleanCStr(fields);
    SplitJoin(fields, SEP);
    assert fields[2..] == NamedIds(clients);
    assert fields[0] == kind;
  }

  lemma TaggedCStr(kind: Bytes, rest: Bytes)
    requires kind in {"0", "6"}
    ensures SEP !in kind && kind !in {"1", "2"}
    ensures CStr(kind + [SEP] + rest) == kind + [SEP] + CStr(rest)
    ensures CStr(CStr(kind + [SEP] + rest)) == kind + [SEP] + CStr(rest)
  {
    var start := kind + [SEP];
    assert NUL !in start by {
      assert start == "0\U{1}" || start == "6\U{1}";
    }
    hide CStr;
    CStrConcat(start, rest);
    CStrConcat(start, CStr(rest));
    assert NUL !in CStr(start + rest);
  }

  /** Chat frames, direct messages and the empty frame carry none. */
  lemma TaggedNoRoster(kind: Bytes, rest: Bytes)
    requires kind in {"0", "6"}
    ensures RosterOf(Seal(kind + [SEP] + rest)) == None
    ensures RosterOf(Seal(CStr(kind + [SEP] + rest))) == None
  {
    TaggedCStr(kind, rest);
    hide CStr, Split;
    SplitFirst(kind, CStr(rest), SEP);
  }

  lemma EmptyNoRoster()
    ensures RosterOf(Seal([])) == None
  {
  }

  // ---- One step -----------------------------------------------------------

  /** What a transition tells connection k: either its latest news is the new list
      of names, or it hears no list and the list stayed the same. */
  ghost predicate Tells(s: Server, s': Server, k: Socket) {
    && Sent(s, k) <= Sent(s', k)
    && match LastRoster(Sent(s', k)[|Sent(s, k)|..])
       case Some(list) => list == NamedIds(s'.clients)
       case None => NamedIds(s'.clients) == NamedIds(s.clients)
  }

  lemma TellsTrans(s: Server, s1: Server, s2: Server, k: Socket)
    requires Tells(s, s1, k) && Tells(s1, s2, k)
    ensures Tells(s, s2, k)
  {
    var n, n1 := |Sent(s, k)|, |Sent(s1, k)|;
    LastRosterConcat(Sent(s1, k)[n..], Sent(s2, k)[n1..]);
    assert Sent(s2, k)[n..] == Sent(s1, k)[n..] + Sent(s2, k)[n1..];
  }

  /** Sending one message without a list, names unchanged. */
  lemma DeliverTells(s: Server, s': Server, to: set<Socket>, m: Message, k: Socket)
    requires k in s.out && s'.out == Deliver(s.out, to, m)
    requires RosterOf(m) == None && NamedIds(s'.clients) == NamedIds(s.clients)
    ensures Tells(s, s', k)
  {
    if k in to {
      assert Sent(s', k)[|Sent(s, k)|..] == [m];
      assert [m][..0] == [];
    } else {
      assert Sent(s', k)[|Sent(s, k)|..] == [];
    }
  }

  /** Sending the new list itself. */
  lemma AnnounceTells(s: Server, s': Server, to: set<Socket>, m: Message, k: Socket)
    requires k in s.out && k in to && s'.out == Deliver(s.out, to, m)
    requires RosterOf(m) == Some(NamedIds(s'.clients))
    ensures Tells(s, s', k)
  {
    assert Sent(s', k)[|Sent(s, k)|..] == [m];
  }

  lemma SameIdsTells(s: Server, s': Server, k: Socket)
    requires k in s.out && s'.out == s.out && Ids(s'.clients) == Ids(s.clients)
    ensures Tells(s, s', k)
  {
    assert Sent(s', k)[|Sent(s, k)|..] == [];
  }

  /** k keeps its ears: it is not the polled client, or it is and was neither removed
      nor renamed by the poll. */
  predicate Listening(s: Server, s': Server, p: nat, k: Socket)
    requires p < |s.clients|
  {
    k != s.clients[p].sock || (|s'.clients| == |s.clients| && s'.clients[p].id == s.clients[p].id)
  }

  lemma DisconnectTells(s: Server, p: nat, k: Socket)
    requires p < |s.clients| && GoodIds(s.clients)
    requires k in s.out && k in DoneSockets(s.clients) && Listening(s, Disconnect(s, p), p, k)
    ensures Tells(s, Disconnect(s, p), k)
  {
    var rest := Without(s.clients, p);
    assert GoodIds(rest);
    FrameRoster("2", s.clients[p].id, rest);
    hide Seal, RosterOf, DoneSockets, Join;
    AnnounceTells(s, Disconnect(s, p), DoneSockets(s.clients) - {s.clients[p].sock},
                  Seal(LeaveFrame(s.clients[p].id, rest)), k);
  }

  /** Other clients stay Done while one record changes. */
  lemma DoneKept(before: seq<Client>, after: seq<Client>, p: nat)
    requires p < |before| && |after| == |before| && after[p].sock == before[p].sock
    requires forall i :: 0 <= i < |before| && i != p ==> after[i] == before[i]
    ensures DoneSockets(before) - {before[p].sock} <= DoneSockets(after) - {before[p].sock}
  {
    forall k | k in DoneSockets(before) - {before[p].sock}
      ensures k in DoneSockets(after)
    {
      var i :| 0 <= i < |before| && before[i].auth == Done && before[i].sock == k;
      assert after[i] in after;
    }
  }

  lemma RenameTells(s: Server, p: nat, name: Bytes, k: Socket)
    requires p < |s.clients| && GoodIds(s.clients) && ValidName(name)
    requires k in s.out && k in DoneSockets(s.clients) - {s.clients[p].sock}
    ensures Tells(s, Rename(s, p, name), k)
  {
    var clients := s.clients[p := s.clients[p].(id := name)];
    FrameRoster("1", name, clients);
    assert k in DoneSockets(clients) by {
      DoneKept(s.clients, clients, p);
    }
    hide Seal, RosterOf, DoneSockets, Join;
    AnnounceTells(s, Rename(s, p, name), DoneSockets(clients) - {s.clients[p].sock},
                  Seal(JoinFrame(name, clients)), k);
  }

  lemma NickTells(s: Server, p: nat, name: Bytes, k: Socket)
    requires p < |s.clients| && GoodIds(s.clients)
    requires k in s.out && k in DoneSockets(s.clients) && Listening(s, Nick(s, p, name), p, k)
    ensures Tells(s, Nick(s, p, name), k)
  {
    hide Tells, GoodIds, DoneSockets, Seal, ValidName, JoinFrame, LeaveFrame;
    if NameFree(s.clients, name) && ValidName(name) {
      RenameTells(s, p, name, k);
    } else {
      DisconnectTells(s, p, k);
    }
  }

  lemma DirectTells(s: Server, to: Socket, text: Bytes, k: Socket)
    requires k in s.out
    ensures Tells(s, SendTo(s, to, Direct(text)), k)
  {
    TaggedNoRoster("6", text);
    hide Seal, RosterOf, Deliver;
    DeliverTells(s, SendTo(s, to, Direct(text)), {to}, Direct(text), k);
  }

  lemma DispatchTells(s: Server, p: nat, line: Bytes, k: Socket)
    requires p < |s.clients| && k in s.out
    ensures Tells(s, Dispatch(s, p, line), k)
  {
    hide Tells, Direct, NotFound, Args, FindCommand, Reply;
    SameIdsTells(s, s, k);
    var args := Args(line);
    var cmd := FindCommand(s.cmds, args[0]);
    if cmd.None? {
      DirectTells(s, s.clients[p].sock, NotFound(line), k);
    } else {
      var reply := Reply(s, p, cmd.value.body, args);
      if reply.Some? {
        DirectTells(s, reply.value.0, reply.value.1, k);
      }
    }
  }

  /** A broadcast without a list and a restarted clock. */
  lemma PublishTells(s: Server, p: nat, data: Bytes, t: nat, k: Socket)
    requires p < |s.clients| && k in s.out && RosterOf(Seal(data)) == None
    ensures Tells(s, Touch(Broadcast(s, data, s.clients[p].sock), p, t), k)
  {
    var s' := Touch(Broadcast(s, data, s.clients[p].sock), p, t);
    assert Ids(s'.clients) == Ids(s.clients);
    hide Seal, RosterOf, Deliver, DoneSockets;
    DeliverTells(s, s', DoneSockets(s.clients) - {s.clients[p].sock}, Seal(data), k);
  }

  /** A notice to the polled client, who is then disconnected. */
  lemma NoticedTells(s: Server, p: nat, text: Bytes, k: Socket)
    requires p < |s.clients| && GoodIds(s.clients)
    requires k in s.out && k in DoneSockets(s.clients)
    requires Listening(s, Disconnect(SendTo(s, s.clients[p].sock, Direct(text)), p), p, k)
    ensures Tells(s, Disconnect(SendTo(s, s.clients[p].sock, Direct(text)), p), k)
  {
    var noticed := SendTo(s, s.clients[p].sock, Direct(text));
    hide Tells, GoodIds, DoneSockets, Direct, Disconnect;
    DirectTells(s, s.clients[p].sock, text, k);
    DisconnectTells(noticed, p, k);
    TellsTrans(s, noticed, Disconnect(noticed, p), k);
  }

  lemma ChatNoRoster(text: Bytes, id: Bytes)
    ensures RosterOf(Seal(CStr(ChatFrame(text, id)))) == None
  {
    TaggedNoRoster("0", text + [SEP] + id);
  }

  lemma ChatTells(s: Server, p: nat, text: Bytes, t: nat, k: Socket)
    requires p < |s.clients| && GoodIds(s.clients)
    requires k in s.out && k in DoneSockets(s.clients) && Listening(s, Chat(s, p, text, t), p, k)
    ensures Tells(s, Chat(s, p, text, t), k)
  {
    var c := s.clients[p];
    hide Tells, GoodIds, DoneSockets, Seal, Direct, Blank, CStr, ChatFrame, RosterOf, Disconnect, Broadcast;
    if Blank(CStr(text)) {
      NoticedTells(s, p, BLANK_NOTICE, k);
    } else if c.id == UNNAMED {
      DisconnectTells(s, p, k);
    } else {
      ChatNoRoster(text, c.id);
      PublishTells(s, p, CStr(ChatFrame(text, c.id)), t, k);
    }
  }

  lemma FrameTells(s: Server, p: nat, plain: Option<Bytes>, t: nat, k: Socket)
    requires p < |s.clients| && GoodIds(s.clients)
    requires k in s.out && k in DoneSockets(s.clients) && Listening(s, Frame(s, p, plain, t), p, k)
    ensures Tells(s, Frame(s, p, plain, t), k)
  {
    hide Tells, GoodIds, DoneSockets, Seal, Direct, Accepted, Chat, Nick, Dispatch, RosterOf, Broadcast;
    if plain.None? {
      DirectTells(s, s.clients[p].sock, NOT_SENT_NOTICE, k);
    } else if !Accepted(plain.value) {
      DisconnectTells(s, p, k);
    } else if Starts(plain.value, '0') {
      ChatTells(s, p, plain.value[1..], t, k);
    } else if Starts(plain.value, '3') {
      NickTells(s, p, Drop(plain.value, 2), k);
    } else if Starts(plain.value, '4') {
      EmptyNoRoster();
      PublishTells(s, p, [], t, k);
    } else if Starts(plain.value, '5') {
      DispatchTells(s, p, plain.value[1..], k);
    } else {
      DisconnectTells(s, p, k);
    }
  }

  lemma KeyRequestNoRoster()
    ensures RosterOf(KeyRequest) == None
  {
  }

  lemma WelcomeTells(s: Server, p: nat, uname: Bytes, passwd: Bytes, k: Socket)
    requires p < |s.clients| && k in s.out
    ensures Tells(s, Register(s, p, uname, passwd), k)
  {
    TaggedNoRoster("6", "Everybody welcome the new user " + uname);
    hide Seal, RosterOf, Deliver, DoneSockets;
    DeliverTells(s, Register(s, p, uname, passwd), DoneSockets(s.clients) - {s.clients[p].sock}, Seal(Welcome(uname)), k);
  }

  lemma AdmitTells(s: Server, p: nat, uname: Bytes, passwd: Bytes, k: Socket)
    requires p < |s.clients| && GoodIds(s.clients) && ValidName(uname)
    requires k in s.out && k in DoneSockets(s.clients) - {s.clients[p].sock}
    ensures Tells(s, Admit(s, p, uname, passwd), k)
  {
    hide Tells, GoodIds, DoneSockets, Seal, RosterOf, ValidName, Deliver;
    var named := Rename(s, p, uname);
    RenameTells(s, p, uname, k);
    WelcomeTells(named, p, uname, passwd, k);
    SameIdsTells(named, named, k);
    var known := if uname in s.users then named else Register(named, p, uname, passwd);
    var s' := Admit(s, p, uname, passwd);
    assert Ids(s'.clients) == Ids(known.clients);
    DeliverTells(known, s', {s.clients[p].sock}, KeyRequest, k) by { KeyRequestNoRoster(); }
    TellsTrans(s, named, known, k);
    TellsTrans(s, known, s', k);
  }

  lemma LoginTells(s: Server, p: nat, credentials: Option<Bytes>, k: Socket)
    requires p < |s.clients| && GoodIds(s.clients)
    requires k in s.out && k in DoneSockets(s.clients) - {s.clients[p].sock}
    ensures Tells(s, Login(s, p, credentials), k)
  {
    hide Tells, GoodIds, DoneSockets, Field, ValidName, Admit, Disconnect;
    DisconnectTells(s, p, k);
    if credentials.Some? {
      var uname, passwd := Field(credentials.value, 0), Field(credentials.value, 1);
      if Admissible(s, uname, passwd) { AdmitTells(s, p, uname, passwd, k); }
    }
  }

  lemma SealedKeyNoRoster(m: Message)
    requires m.RsaSealed?
    ensures RosterOf(m) == None
  {
  }

  lemma TransferTells(s: Server, p: nat, m: Message, k: Socket)
    requires p < |s.clients| && GoodIds(s.clients)
    requires k in s.out && k in DoneSockets(s.clients) - {s.clients[p].sock}
    ensures Tells(s, TransferKey(s, p, m), k)
  {
    var c := s.clients[p];
    hide GoodIds, DoneSockets, RosterOf, Deliver, Disconnect, Tells, RefusesServerKey;
    if !Loads(m) {
      SameIdsTells(s, s.(running := false), k);
    } else if RefusesServerKey(Insert(s.keys, c.sock, m.modulus)[c.sock]) {
      var keyed := s.(keys := Insert(s.keys, c.sock, m.modulus));
      SameIdsTells(s, keyed, k);
      DisconnectTells(keyed, p, k);
      TellsTrans(s, keyed, Disconnect(keyed, p), k);
    } else {
      var sealed := RsaSealed(Insert(s.keys, c.sock, m.modulus)[c.sock], SERVER_KEY);
      var s' := TransferKey(s, p, m);
      assert Ids(s'.clients) == Ids(s.clients);
      SealedKeyNoRoster(sealed);
      DeliverTells(s, s', {c.sock}, sealed, k);
    }
  }

  lemma OnlyDone(s: Server, p: nat, k: Socket)
    requires p < |s.clients| && DistinctSockets(s.clients) && k in DoneSockets(s.clients)
    ensures s.clients[p].auth != Done ==> k != s.clients[p].sock
  {
  }

  lemma RestartTells(s: Server, p: nat, t: nat, k: Socket)
    requires p < |s.clients| && GoodIds(s.clients) && k in s.out && k in DoneSockets(s.clients)
    ensures Tells(s, Touch(s, p, t), k) && GoodIds(Touch(s, p, t).clients)
    ensures k in DoneSockets(Touch(s, p, t).clients)
  {
    var s' := Touch(s, p, t);
    assert Ids(s'.clients) == Ids(s.clients);
    SameIdsTells(s, s', k);
    var i :| 0 <= i < |s.clients| && s.clients[i].auth == Done && s.clients[i].sock == k;
    assert s'.clients[i] in s'.clients;
  }

  /** One poll: every Done client but one that was just removed or renamed knows the
      new list, or hears no list while the list stays the same. */
  lemma PollTells(s: Server, p: nat, inp: Input, k: Socket)
    requires p < |s.clients| && Inv(s)
    requires k in DoneSockets(s.clients) && Listening(s, Poll(s, p, inp), p, k)
    ensures Tells(s, Poll(s, p, inp), k)
  {
    var c := s.clients[p];
    assert k in s.out && GoodIds(s.clients);
    hide Tells, GoodIds, DoneSockets, Frame, Login, TransferKey, TooSoon, Disconnect, Inv;
    match inp
    case Quiet => SameIdsTells(s, s, k);
    case Hangup => DisconnectTells(s, p, k);
    case Received(m, t0, t1) =>
      OnlyDone(s, p, k);
      match c.auth
      case Undone => LoginTells(s, p, RsaOpen(s.publicKey, m), k);
      case KeyReceived => TransferTells(s, p, m, k);
      case Failed => FrameTells(s, p, AesOpen(SERVER_KEY, m), t1, k);
      case Done =>
        var restarted := Touch(s, p, t0);
        RestartTells(s, p, t0, k);
        if TooSoon(c, t0) {
          DisconnectTells(restarted, p, k);
        } else {
          FrameTells(restarted, p, AesOpen(SERVER_KEY, m), t1, k);
        }
        TellsTrans(s, restarted, Poll(s, p, inp), k);
  }

  // ---- Whole runs ---------------------------------------------------------

  /** Where a client's knowledge starts: how much had been sent to it when it last
      became Done or last changed its own name. */
  function MarkStep(s: Server, e: Event, mark: map<Socket, nat>): map<Socket, nat>
    requires Enabled(s, e)
  {
    if e.Accepting? then mark
    else
      var s', p := Step(s, e), e.p;
      if && |s'.clients| == |s.clients| && s'.clients[p].auth == Done
         && (s.clients[p].auth != Done || s'.clients[p].id != s.clients[p].id)
      then mark[s.clients[p].sock := |Sent(s', s.clients[p].sock)|]
      else mark
  }

  function RunMarks(s: Server, run: seq<Event>, mark: map<Socket, nat>): map<Socket, nat>
    requires Legal(s, run)
    decreases |run|
  {
    if run == [] then mark else RunMarks(Step(s, run[0]), run[1..], MarkStep(s, run[0], mark))
  }

  /** The latest list sent to k since its mark, if any, is the server's own list. */
  ghost predicate Knows(s: Server, k: Socket, mark: map<Socket, nat>) {
    && k in mark && mark[k] <= |Sent(s, k)|
    && var list := LastRoster(Sent(s, k)[mark[k]..]);
       list.Some? ==> list.value == NamedIds(s.clients)
  }

  ghost predicate Agreement(s: Server, mark: map<Socket, nat>) {
    forall i :: 0 <= i < |s.clients| && s.clients[i].auth == Done ==> Knows(s, s.clients[i].sock, mark)
  }

  lemma TellsKnows(s: Server, s': Server, k: Socket, mark: map<Socket, nat>)
    requires Knows(s, k, mark) && Tells(s, s', k)
    ensures Knows(s', k, mark)
  {
    var before, news := Sent(s, k)[mark[k]..], Sent(s', k)[|Sent(s, k)|..];
    assert Sent(s', k)[mark[k]..] == before + news;
    LastRosterConcat(before, news);
  }

  lemma MarkedKnows(s: Server, k: Socket, mark: map<Socket, nat>)
    requires k in mark && mark[k] == |Sent(s, k)|
    ensures Knows(s, k, mark)
  {
    assert Sent(s, k)[mark[k]..] == [];
  }

  /** A Done client after a poll was Done before it, or is the polled client. */
  lemma StillDone(s: Server, s': Server, p: nat, i: nat)
    requires p < |s.clients| && ClientsStep(s.clients, s'.clients, p) && DistinctSockets(s.clients)
    requires i < |s'.clients| && s'.clients[i].auth == Done
    ensures var k := s'.clients[i].sock;
      if k == s.clients[p].sock then i == p && |s'.clients| == |s.clients|
      else exists j :: 0 <= j < |s.clients| && s.clients[j].auth == Done && s.clients[j].sock == k
  {
    if |s'.clients| == |s.clients| {
      assert i == p || s'.clients[i] == s.clients[i];
    } else {
      assert s'.clients[i] == s.clients[if i < p then i else i + 1];
    }
  }

  lemma SameMark(s: Server, k: Socket, mark: map<Socket, nat>, mark': map<Socket, nat>)
    requires Knows(s, k, mark) && k in mark' && mark'[k] == mark[k]
    ensures Knows(s, k, mark')
  {
  }

  lemma PollAgreement(s: Server, e: Event, mark: map<Socket, nat>)
    requires Inv(s) && Enabled(s, e) && e.Polling? && Agreement(s, mark)
    ensures Agreement(Step(s, e), MarkStep(s, e, mark))
  {
    var s', p, mark' := Step(s, e), e.p, MarkStep(s, e, mark);
    PollLocal(s, p, e.inp);
    hide Poll, Tells, Knows;
    forall i | 0 <= i < |s'.clients| && s'.clients[i].auth == Done
      ensures Knows(s', s'.clients[i].sock, mark')
    {
      var k := s'.clients[i].sock;
      StillDone(s, s', p, i);
      if k == s.clients[p].sock && (s.clients[p].auth != Done || s'.clients[p].id != s.clients[p].id) {
        MarkedKnows(s', k, mark');
      } else {
        var j :| 0 <= j < |s.clients| && s.clients[j].auth == Done && s.clients[j].sock == k;
        assert Knows(s, k, mark) && s.clients[j] in s.clients;
        PollTells(s, p, e.inp, k);
        TellsKnows(s, s', k, mark);
        SameMark(s', k, mark, mark');
      }
    }
  }

  lemma AcceptAgreement(s: Server, k: Socket, t: nat, mark: map<Socket, nat>)
    requires Inv(s) && !Live(s, k) && Agreement(s, mark)
    ensures Agreement(Accept(s, k, t), mark)
  {
    var s' := Accept(s, k, t);
    assert Ids(s'.clients)[..|s.clients|] == Ids(s.clients);
    assert NamedIds(s'.clients) == NamedIds(s.clients);
    hide LastRoster, NamedIds;
    forall i | 0 <= i < |s'.clients| && s'.clients[i].auth == Done
      ensures Knows(s', s'.clients[i].sock, mark)
    {
      assert i < |s.clients|;
      assert Knows(s, s.clients[i].sock, mark);
    }
  }

  /** Over every run from a server where lists agree (a freshly started one, say):
      each Done client that was sent a list since it became Done and since it last
      renamed itself was last sent the server's own list, in the server's order. */
  lemma {:induction false} RosterAgreement(s: Server, run: seq<Event>, mark: map<Socket, nat>)
    requires Inv(s) && Legal(s, run) && Agreement(s, mark)
    ensures Agreement(Run(s, run), RunMarks(s, run, mark))
    decreases |run|
  {
    hide Poll, Knows, Inv;
    if run != [] {
      var e := run[0];
      StepKeepsInv(s, e);
      if e.Accepting? {
        AcceptAgreement(s, e.sock, e.t, mark);
      } else {
        PollAgreement(s, e, mark);
      }
      RosterAgreement(Step(s, e), run[1..], MarkStep(s, e, mark));
    }
  }
}
