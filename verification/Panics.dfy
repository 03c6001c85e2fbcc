/** Which polls make the server send a Done client a frame on which the Rust client
    panics. */
module Panics {
  import opened Bytes
  import opened Credentials
  import opened Crypto
  import opened Session
  import opened Invariants
  import opened Accounts
  import opened Roster
  import opened Traffic
  import opened Announcements
  import opened RustParser
  import opened EndToEnd
  import opened Outcomes
  import opened Screens
  import C = ClientNetwork

  /** The Rust client opens this message and its parser panics on it. */
  predicate Fatal(m: Message) {
    var plain := AesOpen(SERVER_KEY, m);
    plain.Some? && Meaning(plain.value) == None
  }

  predicate SomeFatal(news: seq<Message>) {
    exists i :: 0 <= i < |news| && Fatal(news[i])
  }

  /** The polled client's frame is fatal to k: a request, a chat text with a NUL or not
      in UTF-8, or a direct message whose words are not, up to their first NUL. */
  predicate SaysFatal(s: Server, p: nat, plain: Option<Bytes>, k: Socket)
    requires p < |s.clients|
  {
    && plain.Some? && Accepted(plain.value)
    && (|| Starts(plain.value, '4')
        || (Starts(plain.value, '0') && (NUL in plain.value[1..] || !Utf8(plain.value[1..])))
        || (MessageTarget(s, p, plain) == Some(k) && !Utf8(CStr(Spaced(Args(plain.value[1..])[2..])))))
  }

  /** What a caller can test before the poll. */
  predicate Derails(s: Server, p: nat, inp: Input, k: Socket)
    requires p < |s.clients|
  {
    if Kicked(s, p, inp) then s.clients[p].id == UNNAMED
    else inp.Received? && s.clients[p].auth == Done && SaysFatal(s, p, AesOpen(SERVER_KEY, inp.m), k)
  }

  // ---- One message --------------------------------------------------------

  lemma OneFatal(m: Message)
    ensures SomeFatal([m]) <==> Fatal(m)
  {
    assert [m][0] == m;
    hide Fatal;
  }

  lemma JoinHarmless(name: Bytes, clients: seq<Client>)
    requires ValidName(name) && GoodIds(clients)
    ensures !Fatal(Seal(JoinFrame(name, clients)))
  {
    JoinSeen(name, clients);
    hide Meaning, ValidName, Seal, JoinFrame, C.Shows;
  }

  lemma DirectFatal(text: Bytes)
    ensures Fatal(Direct(text)) <==> !Utf8(CStr(text))
  {
    DirectPayload(text);
    SuffixMeaning("6", CStr(text));
    hide Meaning, Utf8, CStr, Direct;
  }

  lemma WelcomeHarmless(uname: Bytes)
    requires ValidName(uname)
    ensures !Fatal(Seal(Welcome(uname)))
  {
    WelcomeSeen(uname);
    hide Meaning, ValidName, Seal, Welcome, C.Shows;
  }

  lemma RequestFatal()
    ensures Fatal(Seal([]))
  {
    assert Split([], SEP) == [[]];
  }

  lemma ChatFatal(text: Bytes, id: Bytes)
    requires Accepted("0" + text) && ValidName(id)
    ensures Fatal(Seal(ChatFrame(text, id))) <==> NUL in text || !Utf8(text)
  {
    hide Meaning, ValidName, CStr, ChatFrame, Utf8, Accepted;
    ChatTyped(text);
    ChatParsed(text, id);
  }

  lemma MessageFatal(target: Bytes, sender: Bytes, words: seq<Bytes>)
    requires ValidName(target) && ValidName(sender)
    ensures Fatal(Direct(DirectText(target, sender, words))) <==> !Utf8(CStr(Spaced(words)))
  {
    hide Fatal, Utf8, CStr, Spaced, MessageHeader, Direct, ValidName;
    var header := MessageHeader(target, sender);
    HeaderPlain(target, sender);
    CStrConcat(header, Spaced(words));
    Utf8AfterAscii(header, CStr(Spaced(words)));
    DirectFatal(DirectText(target, sender, words));
  }

  // ---- What a poll says ---------------------------------------------------

  lemma TargetNamed(s: Server, p: nat, plain: Option<Bytes>, k: Socket)
    requires Inv(s) && p < |s.clients| && MessageTarget(s, p, plain) == Some(k)
    ensures Accepted(plain.value) && Starts(plain.value, '5') && ValidName(Args(plain.value[1..])[1])
  {
    hide Args, FindCommand, Accepted, ValidName;
    var name := Args(plain.value[1..])[1];
    var i := IndexOf(Ids(s.clients), name);
    assert s.clients[i].id == name;
  }

  lemma NoneFatal()
    ensures !SomeFatal([])
  {
  }

  lemma SpeechFatal(s: Server, p: nat, plain: Option<Bytes>, k: Socket)
    requires Inv(s) && p < |s.clients| && ValidName(s.clients[p].id)
    ensures SomeFatal(Speech(s, p, plain, k)) <==> SaysFatal(s, p, plain, k)
  {
    var news := Speech(s, p, plain, k);
    OnlyCommandsMessage(s, p, plain);
    RequestFatal();
    hide Fatal, Accepted, Args, Utf8, CStr, Spaced, Seal, Direct, DirectText, ChatFrame, ValidName, MessageTarget, Inv, SomeFatal;
    if news == [] {
      assert !SomeFatal([]) by { NoneFatal(); }
    } else {
      OneFatal(news[0]);
      assert news == [news[0]];
      if Starts(plain.value, '0') {
        assert plain.value == "0" + plain.value[1..];
        ChatFatal(plain.value[1..], s.clients[p].id);
      } else if !Starts(plain.value, '4') {
        TargetNamed(s, p, plain, k);
        var args := Args(plain.value[1..]);
        MessageFatal(args[1], s.clients[p].id, args[2..]);
      }
    }
  }

  lemma RenamedSaysNothing(s: Server, p: nat, inp: Input, k: Socket)
    requires Inv(s) && p < |s.clients| && |Poll(s, p, inp).clients| == |s.clients|
    requires Poll(s, p, inp).clients[p].id != s.clients[p].id && inp.Received? && s.clients[p].auth == Done
    ensures !SaysFatal(s, p, AesOpen(SERVER_KEY, inp.m), k)
  {
    RenamedExactly(s, p, inp);
    OnlyCommandsMessage(s, p, AesOpen(SERVER_KEY, inp.m));
    hide Poll, Inv, Utf8, CStr, Spaced, Args, Accepted, MessageTarget;
  }

  lemma BothHarmless(a: Message, rest: seq<Message>)
    requires !Fatal(a) && !SomeFatal(rest)
    ensures !SomeFatal([a] + rest)
  {
    hide Fatal;
    assert forall i :: 1 <= i < |[a] + rest| ==> ([a] + rest)[i] == rest[i - 1];
  }

  lemma WelcomeNewsHarmless(s: Server, p: nat, inp: Input)
    requires p < |s.clients| && LogsIn(s, p, inp)
    ensures !SomeFatal(WelcomeNews(s, inp))
  {
    hide Fatal, Seal, Welcome, ValidName, NameFree, Field;
    var uname := Presented(s, inp).0;
    WelcomeHarmless(uname);
    OneFatal(Seal(Welcome(uname)));
  }

  /** A new name comes with valid frames only. */
  lemma RenameHarmless(s: Server, p: nat, inp: Input)
    requires Inv(s) && p < |s.clients|
    requires |Poll(s, p, inp).clients| == |s.clients| && Poll(s, p, inp).clients[p].id != s.clients[p].id
    ensures var s' := Poll(s, p, inp);
      var welcome := if s.clients[p].auth == Undone then WelcomeNews(s, inp) else [];
      !SomeFatal([Seal(JoinFrame(s'.clients[p].id, s'.clients))] + welcome)
  {
    var s' := Poll(s, p, inp);
    var welcome := if s.clients[p].auth == Undone then WelcomeNews(s, inp) else [];
    PollLocal(s, p, inp);
    LoginStores(s, p, inp);
    PollKeepsInv(s, p, inp);
    hide Poll, Fatal, Seal, JoinFrame, WelcomeNews, ValidName, LogsIn, SomeFatal;
    assert GoodIds(s'.clients);
    JoinHarmless(s'.clients[p].id, s'.clients);
    if s.clients[p].auth == Undone {
      WelcomeNewsHarmless(s, p, inp);
    } else {
      NoneFatal();
    }
    BothHarmless(Seal(JoinFrame(s'.clients[p].id, s'.clients)), welcome);
  }

  /** The frame that tells of a departure is fatal exactly when nobody was named. */
  lemma RemovedFatal(s: Server, p: nat, inp: Input, k: Socket)
    requires Inv(s) && p < |s.clients| && k in DoneSockets(s.clients) - {s.clients[p].sock}
    requires |Poll(s, p, inp).clients| < |s.clients|
    ensures var before, after := Sent(s, k), Sent(Poll(s, p, inp), k);
      before <= after && (SomeFatal(after[|before|..]) <==> s.clients[p].id == UNNAMED)
  {
    DepartureSeen(s, p, inp, k);
    hide Poll, Inv, Sent, SomeFatal, Meaning, C.Shows, DoneSockets;
    var before, after := Sent(s, k), Sent(Poll(s, p, inp), k);
    assert after[|before|..] == [after[|before|]];
    OneFatal(after[|before|]);
  }

  lemma NamedHarmless(s: Server, p: nat, inp: Input, k: Socket)
    requires Inv(s) && p < |s.clients| && k in DoneSockets(s.clients) - {s.clients[p].sock}
    requires |Poll(s, p, inp).clients| == |s.clients| && Poll(s, p, inp).clients[p].id != s.clients[p].id
    ensures var before, after := Sent(s, k), Sent(Poll(s, p, inp), k);
      before <= after && !SomeFatal(after[|before|..])
  {
    OthersTold(s, p, inp, k);
    RenameHarmless(s, p, inp);
    hide Poll, Inv, Sent, SomeFatal, DoneSockets, Seal, LeaveFrame, JoinFrame, WelcomeNews, Told;
    var s', before, after := Poll(s, p, inp), Sent(s, k), Sent(Poll(s, p, inp), k);
    var welcome := if s.clients[p].auth == Undone then WelcomeNews(s, inp) else [];
    assert after[|before|..] == [Seal(JoinFrame(s'.clients[p].id, s'.clients))] + welcome;
  }

  lemma SaidFatal(s: Server, p: nat, inp: Input, k: Socket)
    requires Inv(s) && p < |s.clients| && k in DoneSockets(s.clients) - {s.clients[p].sock}
    requires |Poll(s, p, inp).clients| == |s.clients| && Poll(s, p, inp).clients[p].id == s.clients[p].id
    ensures var before, after := Sent(s, k), Sent(Poll(s, p, inp), k);
      && before <= after
      && (SomeFatal(after[|before|..]) <==>
          inp.Received? && s.clients[p].auth == Done && SaysFatal(s, p, AesOpen(SERVER_KEY, inp.m), k))
  {
    OthersTold(s, p, inp, k);
    NoneFatal();
    if s.clients[p].auth == Done {
      DoneNamed(s, p);
      if inp.Received? { SpeechFatal(s, p, AesOpen(SERVER_KEY, inp.m), k); }
    }
    hide Poll, Inv, Sent, SomeFatal, DoneSockets, Seal, LeaveFrame, JoinFrame, WelcomeNews, Speech, SaysFatal;
    var before, after := Sent(s, k), Sent(Poll(s, p, inp), k);
    assert after[|before|..] == Told(s, p, inp, k);
  }

  /** A poll sends another Done client something its Rust parser panics on exactly
      when it removes a client that never logged in, or when the polled client's frame
      is a request, a chat text with a NUL or not in UTF-8, or a direct message to that
      client whose words are not. */
  lemma PanicsExactly(s: Server, p: nat, inp: Input, k: Socket)
    requires Inv(s) && p < |s.clients| && FitsBuffers(s, p, inp) && k in DoneSockets(s.clients) - {s.clients[p].sock}
    ensures var before, after := Sent(s, k), Sent(Poll(s, p, inp), k);
      before <= after && (SomeFatal(after[|before|..]) <==> Derails(s, p, inp, k))
  {
    var s' := Poll(s, p, inp);
    RemovedExactly(s, p, inp);
    PollLocal(s, p, inp);
    hide Poll, Inv, Kicked, SaysFatal, SomeFatal, Sent, FitsBuffers, DoneSockets, RecordStep;
    if |s'.clients| < |s.clients| {
      RemovedFatal(s, p, inp, k);
    } else if s'.clients[p].id != s.clients[p].id {
      NamedHarmless(s, p, inp, k);
      if inp.Received? && s.clients[p].auth == Done { RenamedSaysNothing(s, p, inp, k); }
    } else {
      SaidFatal(s, p, inp, k);
    }
  }
}
