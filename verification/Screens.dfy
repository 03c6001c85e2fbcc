/** What everybody else's screen shows when a client leaves, arrives or takes a name,
    in both client programs. */
module Screens {
  import opened Bytes
  import opened Crypto
  import opened Session
  import opened Invariants
  import opened Accounts
  import opened Roster
  import opened Announcements
  import opened RustParser
  import opened EndToEnd
  import C = ClientNetwork

  /** The receiver opens this message, and both programs read in it that this client
      left and who remains; the Rust client panics if it had no name. */
  predicate DepartureIn(m: Message, id: Bytes, clients: seq<Client>) {
    var plain := AesOpen(SERVER_KEY, m);
    && plain.Some?
    && (|NamedIds(clients)| <= 98 ==> C.Shows(plain.value) == C.Left(id, Pad(NamedIds(clients), 98)))
    && Meaning(plain.value) == if id == UNNAMED then None else Some(DisconnectPacket(Join([id] + NamedIds(clients), SEP)))
  }

  /** Likewise for a client that took this name. */
  predicate ArrivalIn(m: Message, id: Bytes, clients: seq<Client>) {
    var plain := AesOpen(SERVER_KEY, m);
    && plain.Some?
    && (|NamedIds(clients)| <= 98 ==> C.Shows(plain.value) == C.Joined(id, Pad(NamedIds(clients), 98)))
    && Meaning(plain.value) == Some(JoinPacket(Join([id] + NamedIds(clients), SEP)))
  }

  const GREETING: Bytes := "Everybody welcome the new user "

  predicate WelcomeIn(m: Message, id: Bytes) {
    var plain := AesOpen(SERVER_KEY, m);
    && plain.Some?
    && C.Shows(plain.value) == C.DirectMessage(GREETING + id)
    && Meaning(plain.value) == Some(ServerDmPacket(GREETING + id))
  }

  lemma LeaveSeen(id: Bytes, clients: seq<Client>)
    requires (id == UNNAMED || ValidName(id)) && GoodIds(clients)
    ensures DepartureIn(Seal(LeaveFrame(id, clients)), id, clients)
  {
    hide C.Shows, Meaning, ValidName, NamedIds, Join, CStr, Split, GoodIds;
    FrameRoster("2", id, clients);
    RosterParsed("2", id, clients);
    if |NamedIds(clients)| <= 98 { RosterShown(Seal(LeaveFrame(id, clients)), NamedIds(clients)); }
  }

  lemma JoinSeen(id: Bytes, clients: seq<Client>)
    requires ValidName(id) && GoodIds(clients)
    ensures ArrivalIn(Seal(JoinFrame(id, clients)), id, clients)
  {
    assert id != UNNAMED;
    hide C.Shows, Meaning, ValidName, NamedIds, Join, CStr, Split, GoodIds;
    FrameRoster("1", id, clients);
    RosterParsed("1", id, clients);
    if |NamedIds(clients)| <= 98 { RosterShown(Seal(JoinFrame(id, clients)), NamedIds(clients)); }
  }

  lemma GreetingSeen(greeting: Bytes, id: Bytes)
    requires Ascii(greeting) && Clean(greeting) && ValidName(id)
    ensures var m := Direct(greeting + id);
      C.Shows(m.payload) == C.DirectMessage(greeting + id) && Meaning(m.payload) == Some(ServerDmPacket(greeting + id))
  {
    ValidNameClean(id);
    WordsUtf8(id);
    var text := greeting + id;
    assert Clean(text);
    hide C.Shows, Meaning, Utf8, CStr, ValidName, Ascii, Direct, Split;
    Utf8AfterAscii(greeting, id);
    DirectPayload(text);
    assert CStr(text) == text;
    TwoFieldsSplit("6", text);
    MessageShown(text);
  }

  lemma GreetingPlain()
    ensures Ascii(GREETING) && Clean(GREETING)
  {
  }

  lemma WelcomeDirect(id: Bytes)
    ensures Seal(Welcome(id)) == Direct(GREETING + id)
  {
    hide CStr;
  }

  lemma WelcomeSeen(id: Bytes)
    requires ValidName(id)
    ensures WelcomeIn(Seal(Welcome(id)), id)
  {
    hide C.Shows, Meaning, ValidName, Seal, Welcome, Direct, Ascii, Clean;
    GreetingPlain();
    WelcomeDirect(id);
    GreetingSeen(GREETING, id);
    DirectPayload(GREETING + id);
  }

  /** When a poll removes a client, every other Done client hears one frame, from which
      both programs read that this client left and who remains. */
  lemma DepartureSeen(s: Server, p: nat, inp: Input, k: Socket)
    requires Inv(s) && p < |s.clients| && k in DoneSockets(s.clients) - {s.clients[p].sock}
    requires |Poll(s, p, inp).clients| < |s.clients|
    ensures var s', n := Poll(s, p, inp), |Sent(s, k)|;
      && Sent(s, k) <= Sent(s', k) && |Sent(s', k)| == n + 1
      && DepartureIn(Sent(s', k)[n], s.clients[p].id, s'.clients)
  {
    var s' := Poll(s, p, inp);
    OthersTold(s, p, inp, k);
    PollKeepsInv(s, p, inp);
    assert GoodIds(s.clients) && GoodIds(s'.clients);
    hide Poll, Inv, Seal, LeaveFrame, JoinFrame, ValidName, DepartureIn, Told, WelcomeNews, Sent, DoneSockets;
    LeaveSeen(s.clients[p].id, s'.clients);
  }

  lemma NewName(s: Server, p: nat, inp: Input)
    requires Inv(s) && p < |s.clients|
    requires |Poll(s, p, inp).clients| == |s.clients| && Poll(s, p, inp).clients[p].id != s.clients[p].id
    ensures var s' := Poll(s, p, inp);
      && ValidName(s'.clients[p].id) && GoodIds(s'.clients)
      && (s.clients[p].auth == Undone ==> Presented(s, inp).0 == s'.clients[p].id)
  {
    PollKeepsInv(s, p, inp);
    PollLocal(s, p, inp);
    LoginStores(s, p, inp);
    hide Poll, LogsIn, Presented, ValidName, NameFree;
  }

  /** When a poll gives a client a new name, every other Done client hears one frame,
      from which both programs read that this name joined and who is there, and after
      it, if it is a new user's, a welcome. */
  lemma NamingSeen(s: Server, p: nat, inp: Input, k: Socket)
    requires Inv(s) && p < |s.clients| && k in DoneSockets(s.clients) - {s.clients[p].sock}
    requires |Poll(s, p, inp).clients| == |s.clients| && Poll(s, p, inp).clients[p].id != s.clients[p].id
    ensures var s', n := Poll(s, p, inp), |Sent(s, k)|;
      var name := s'.clients[p].id;
      var registers := s.clients[p].auth == Undone && name !in s.users;
      && Sent(s, k) <= Sent(s', k) && |Sent(s', k)| == n + (if registers then 2 else 1)
      && ArrivalIn(Sent(s', k)[n], name, s'.clients)
      && (registers ==> WelcomeIn(Sent(s', k)[n + 1], name))
  {
    var s' := Poll(s, p, inp);
    OthersTold(s, p, inp, k);
    NewName(s, p, inp);
    hide Poll, Inv, Seal, LeaveFrame, JoinFrame, ValidName, ArrivalIn, WelcomeIn, Told, Sent, DoneSockets, Welcome, Presented;
    JoinSeen(s'.clients[p].id, s'.clients);
    WelcomeSeen(s'.clients[p].id);
  }
}
