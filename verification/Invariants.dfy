/** What every event keeps, and how little one event changes. */
module Invariants {
  import opened Bytes
  import opened Credentials
  import opened Crypto
  import opened Session

  predicate DistinctSockets(clients: seq<Client>) {
    forall i, j :: 0 <= i < j < |clients| ==> clients[i].sock != clients[j].sock
  }

  /** Ids are the placeholder exactly while the client has not logged in; all others
      are valid names, and no two clients share one. */
  predicate NamesOk(clients: seq<Client>) {
    && (forall i :: 0 <= i < |clients| ==>
      && clients[i].auth != Failed
      && (clients[i].id == UNNAMED <==> clients[i].auth == Undone)
      && (clients[i].id == UNNAMED || ValidName(clients[i].id)))
    && (forall i, j :: 0 <= i < j < |clients| && clients[i].id != UNNAMED ==> clients[i].id != clients[j].id)
  }

  predicate DistinctCommands(cmds: seq<Command>) {
    forall i, j :: 0 <= i < j < |cmds| ==> cmds[i].name != cmds[j].name
  }

  predicate Connected(clients: seq<Client>, out: map<Socket, seq<Message>>) {
    DistinctSockets(clients) && forall i :: 0 <= i < |clients| ==> clients[i].sock in out
  }

  predicate Inv(s: Server) {
    Connected(s.clients, s.out) && NamesOk(s.clients) && DistinctCommands(s.cmds)
  }

  /** How the record of the polled client may change: it keeps its connection and
      rights; it keeps name and status, or takes a free valid name, or logs in
      under one, or completes the key transfer. */
  predicate RecordStep(clients: seq<Client>, c: Client, c': Client) {
    && c'.sock == c.sock && c'.op == c.op
    && (|| (c'.id == c.id && c'.auth == c.auth)
        || (c'.auth == c.auth && c.auth in {Done, Failed} && NameFree(clients, c'.id) && ValidName(c'.id))
        || (c'.auth == KeyReceived && c.auth == Undone && NameFree(clients, c'.id) && ValidName(c'.id))
        || (c'.auth == Done && c.auth == KeyReceived && c'.id == c.id))
  }

  predicate ClientsStep(before: seq<Client>, after: seq<Client>, p: nat)
    requires p < |before|
  {
    || after == Without(before, p)
    || (&& |after| == |before|
        && (forall i :: 0 <= i < |before| && i != p ==> after[i] == before[i])
        && RecordStep(before, before[p], after[p]))
  }

  lemma WithoutPut(clients: seq<Client>, p: nat, c: Client)
    requires p < |clients|
    ensures Without(clients[p := c], p) == Without(clients, p)
  {
  }

  /** A transition that touches at most the client at position p and that leaves
      the server's own key, its commands and its set of outboxes alone. */
  predicate Local(s: Server, s': Server, p: nat)
    requires p < |s.clients|
  {
    && ClientsStep(s.clients, s'.clients, p)
    && s'.publicKey == s.publicKey && s'.cmds == s.cmds && s'.out.Keys == s.out.Keys
  }

  /** The key container loses the key of a Done client that is removed, and no other
      key; a client that stays keeps its status unless it is logging in. */
  predicate KeysFollow(s: Server, s': Server, p: nat)
    requires p < |s.clients|
  {
    var c := s.clients[p];
    if |s'.clients| == |s.clients| then
      s'.keys == s.keys && (s'.clients[p].auth == c.auth || (c.auth == Undone && s'.clients[p].auth == KeyReceived))
    else
      s'.keys == if c.auth == Done then s.keys - {c.sock} else s.keys
  }

  /** What any message of a client past the handshake leaves as it is. */
  predicate Steady(s: Server, s': Server, p: nat, t: nat)
    requires p < |s.clients|
  {
    && Local(s, s', p)
    && s'.users == s.users && s'.running == s.running
    && KeysFollow(s, s', p)
    && (|s'.clients| == |s.clients| ==> s'.clients[p].clock in {s.clients[p].clock, t})
  }

  lemma DispatchSteady(s: Server, p: nat, line: Bytes, t: nat)
    requires p < |s.clients|
    ensures Steady(s, Dispatch(s, p, line), p, t)
  {
    hide Reply, Args, FindCommand, Direct, NotFound;
  }

  lemma DisconnectSteady(s: Server, p: nat, t: nat)
    requires p < |s.clients|
    ensures Steady(s, Disconnect(s, p), p, t) && Disconnect(s, p).clients == Without(s.clients, p)
  {
    hide DoneSockets, LeaveFrame, Seal;
  }

  lemma NickSteady(s: Server, p: nat, name: Bytes, t: nat)
    requires p < |s.clients| && s.clients[p].auth in {Failed, Done}
    ensures Steady(s, Nick(s, p, name), p, t)
  {
    hide DoneSockets, JoinFrame, Seal, Disconnect, ValidName;
    DisconnectSteady(s, p, t);
  }

  lemma ChatSteady(s: Server, p: nat, text: Bytes, t: nat)
    requires p < |s.clients|
    ensures Steady(s, Chat(s, p, text, t), p, t)
  {
    hide DoneSockets, ChatFrame, Seal, Direct, Disconnect, Blank, CStr;
    DisconnectSteady(s, p, t);
    DisconnectSteady(SendTo(s, s.clients[p].sock, Direct(BLANK_NOTICE)), p, t);
  }

  lemma FrameSteady(s: Server, p: nat, plain: Option<Bytes>, t: nat)
    requires p < |s.clients| && s.clients[p].auth in {Failed, Done}
    ensures Steady(s, Frame(s, p, plain, t), p, t)
  {
    hide DoneSockets, Seal, Direct, Accepted, Dispatch, Nick, Chat, Disconnect;
    DisconnectSteady(s, p, t);
    if plain.Some? && plain.value != [] {
      ChatSteady(s, p, plain.value[1..], t);
      NickSteady(s, p, Drop(plain.value, 2), t);
      DispatchSteady(s, p, plain.value[1..], t);
    }
  }

  lemma RenameShape(s: Server, p: nat, name: Bytes)
    requires p < |s.clients|
    ensures Rename(s, p, name).clients == s.clients[p := s.clients[p].(id := name)]
    ensures Rename(s, p, name).users == s.users
  {
  }

  /** What a successful login leaves of the server, apart from what it sends. */
  lemma AdmitShape(s: Server, p: nat, uname: Bytes, passwd: Bytes)
    requires p < |s.clients|
    ensures var s' := Admit(s, p, uname, passwd);
      && s'.clients == s.clients[p := s.clients[p].(id := uname, auth := KeyReceived)]
      && s'.users == (if uname in s.users then s.users else s.users[uname := Some(passwd)])
      && s'.keys == s.keys && s'.publicKey == s.publicKey && s'.cmds == s.cmds
      && s'.running == s.running && s'.out.Keys == s.out.Keys
  {
    hide DoneSockets, JoinFrame, Seal, Welcome;
  }

  lemma LoginLocal(s: Server, p: nat, credentials: Option<Bytes>)
    requires p < |s.clients| && s.clients[p].auth == Undone
    ensures var s' := Login(s, p, credentials);
      Local(s, s', p) && KeysFollow(s, s', p) && s'.running == s.running
      && (|s'.clients| == |s.clients| ==> s'.clients[p].clock == s.clients[p].clock)
  {
    hide Disconnect, Admit, ValidName, NameFree, Field;
    DisconnectSteady(s, p, s.clients[p].clock);
    if credentials.Some? { AdmitShape(s, p, Field(credentials.value, 0), Field(credentials.value, 1)); }
  }

  lemma TransferLocal(s: Server, p: nat, m: Message)
    requires p < |s.clients| && s.clients[p].auth == KeyReceived
    ensures Local(s, TransferKey(s, p, m), p)
  {
    hide Disconnect, RefusesServerKey;
    if Loads(m) {
      DisconnectSteady(s.(keys := Insert(s.keys, s.clients[p].sock, m.modulus)), p, 0);
    }
  }

  /** One poll removes at most the polled client, and otherwise changes at most
      that client's record. */
  lemma PollLocal(s: Server, p: nat, inp: Input)
    requires p < |s.clients|
    ensures Local(s, Poll(s, p, inp), p)
  {
    hide Frame, Login, TransferKey, Disconnect, TooSoon;
    DisconnectSteady(s, p, 0);
    if inp.Received? {
      match s.clients[p].auth
      case Undone => LoginLocal(s, p, RsaOpen(s.publicKey, inp.m));
      case KeyReceived => TransferLocal(s, p, inp.m);
      case Failed => FrameSteady(s, p, AesOpen(SERVER_KEY, inp.m), inp.t1);
      case Done =>
        var t := Touch(s, p, inp.t0);
        WithoutPut(s.clients, p, t.clients[p]);
        DisconnectSteady(t, p, 0);
        FrameSteady(t, p, AesOpen(SERVER_KEY, inp.m), inp.t1);
        assert forall i :: 0 <= i < |s.clients| ==> s.clients[i].id == t.clients[i].id;
    }
  }

  /** One poll leaves the record of every other connection in place. */
  lemma OthersUntouched(before: seq<Client>, after: seq<Client>, p: nat, k: Socket)
    requires p < |before| && before[p].sock != k && ClientsStep(before, after, p)
    ensures forall i :: 0 <= i < |after| && after[i].sock == k ==> after[i] in before
    ensures forall i :: 0 <= i < |before| && before[i].sock == k ==> before[i] in after
  {
    forall i | 0 <= i < |after| && after[i].sock == k
      ensures after[i] in before
    {
      assert after[i] == before[if |after| == |before| || i < p then i else i + 1];
    }
    forall i | 0 <= i < |before| && before[i].sock == k
      ensures before[i] in after
    {
      assert before[i] == after[if |after| == |before| || i < p then i else i - 1];
    }
  }

  /** The change allowed to the clients keeps their names in order. */
  lemma NamesKept(before: seq<Client>, after: seq<Client>, p: nat)
    requires p < |before| && ClientsStep(before, after, p)
    requires DistinctSockets(before) && NamesOk(before)
    ensures DistinctSockets(after) && NamesOk(after)
  {
  }

  lemma PollKeepsInv(s: Server, p: nat, inp: Input)
    requires Inv(s) && p < |s.clients|
    ensures Inv(Poll(s, p, inp))
  {
    hide Poll;
    PollLocal(s, p, inp);
    NamesKept(s.clients, Poll(s, p, inp).clients, p);
  }

  lemma StepKeepsInv(s: Server, e: Event)
    requires Inv(s) && Enabled(s, e)
    ensures Inv(Step(s, e))
  {
    hide Poll;
    if e.Polling? {
      PollKeepsInv(s, e.p, e.inp);
    }
  }

  lemma InitialInv(s: Server)
    requires Initial(s)
    ensures Inv(s)
  {
  }

  // ---- Whole runs ---------------------------------------------------------

  predicate Legal(s: Server, run: seq<Event>)
    decreases |run|
  {
    run == [] || (Enabled(s, run[0]) && Legal(Step(s, run[0]), run[1..]))
  }

  function Run(s: Server, run: seq<Event>): Server
    requires Legal(s, run)
    decreases |run|
  {
    if run == [] then s else Run(Step(s, run[0]), run[1..])
  }

  lemma RunCons(s: Server, e: Event, rest: seq<Event>)
    requires Enabled(s, e) && Legal(Step(s, e), rest)
    ensures Legal(s, [e] + rest) && Run(s, [e] + rest) == Run(Step(s, e), rest)
  {
    hide Enabled, Step;
    assert ([e] + rest)[1..] == rest;
  }

  lemma {:induction false} RunConcat(s: Server, first: seq<Event>, second: seq<Event>)
    requires Legal(s, first) && Legal(Run(s, first), second)
    ensures Legal(s, first + second) && Run(s, first + second) == Run(Run(s, first), second)
    decreases |first|
  {
    hide Enabled, Step;
    if first == [] {
      assert first + second == second;
    } else {
      assert (first + second)[1..] == first[1..] + second;
      RunConcat(Step(s, first[0]), first[1..], second);
    }
  }

  /** Over every run: connections stay distinct, names valid and distinct, and the
      placeholder marks exactly the clients that have not logged in. */
  lemma {:induction false} RunKeepsInv(s: Server, run: seq<Event>)
    requires Inv(s) && Legal(s, run)
    ensures Inv(Run(s, run))
    decreases |run|
  {
    if run != [] {
      StepKeepsInv(s, run[0]);
      RunKeepsInv(Step(s, run[0]), run[1..]);
    }
  }
}
