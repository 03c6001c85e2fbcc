/** From one client's keyboard to another client's screen: what the server relays
    and what both client programs recover from it. */
module EndToEnd {
  import opened Bytes
  import opened Crypto
  import opened Session
  import opened Invariants
  import opened Accounts
  import opened Roster
  import opened RustParser
  import C = ClientNetwork

  /** This message reaches exactly these connections, once each. */
  predicate OnlyTo(s: Server, s': Server, to: set<Socket>, m: Message) {
    && s'.out.Keys == s.out.Keys
    && forall k :: k in s.out ==> s'.out[k] == s.out[k] + if k in to then [m] else []
  }

  /** Nothing about any client changes but that client p's clock was restarted at t. */
  predicate OnlyClock(before: seq<Client>, after: seq<Client>, p: nat, t: nat)
    requires p < |before|
  {
    after == before[p := before[p].(clock := t)]
  }

  /** A message from p's client, in time and acceptable. */
  predicate Heard(s: Server, p: nat, inp: Input, data: Bytes) {
    && p < |s.clients| && s.clients[p].auth == Done
    && inp.Received? && !TooSoon(s.clients[p], inp.t0)
    && inp.m == AesSealed(SERVER_KEY, data) && Accepted(data)
  }

  // ---- Chat ---------------------------------------------------------------

  lemma SameDone(s: Server, p: nat, t: nat)
    requires p < |s.clients|
    ensures DoneSockets(Touch(s, p, t).clients) == DoneSockets(s.clients)
  {
    var s' := Touch(s, p, t);
    forall k
      ensures k in DoneSockets(s'.clients) <==> k in DoneSockets(s.clients)
    {
      if k in DoneSockets(s.clients) {
        var i :| 0 <= i < |s.clients| && s.clients[i].auth == Done && s.clients[i].sock == k;
        assert s'.clients[i] in s'.clients;
      }
      if k in DoneSockets(s'.clients) {
        var i :| 0 <= i < |s.clients| && s'.clients[i].auth == Done && s'.clients[i].sock == k;
        assert s.clients[i] in s.clients;
      }
    }
  }

  lemma SameOut(s: Server, s1: Server, s': Server, to: set<Socket>, m: Message)
    requires s1.out == s.out && OnlyTo(s1, s', to, m)
    ensures OnlyTo(s, s', to, m)
  {
  }

  lemma DoneNamed(s: Server, p: nat)
    requires Inv(s) && p < |s.clients| && s.clients[p].auth == Done
    ensures s.clients[p].id != UNNAMED && ValidName(s.clients[p].id)
  {
  }

  lemma HeardFrame(s: Server, p: nat, inp: Input, data: Bytes)
    requires Heard(s, p, inp, data)
    ensures Poll(s, p, inp) == Frame(Touch(s, p, inp.t0), p, Some(data), inp.t1)
  {
    hide Frame, Accepted;
  }

  lemma ChatFrameHandled(s: Server, p: nat, text: Bytes, t: nat)
    requires p < |s.clients| && Accepted("0" + text)
    ensures Frame(s, p, Some("0" + text), t) == Chat(s, p, text, t)
  {
    assert ("0" + text)[1..] == text;
    hide Chat, Accepted;
  }

  lemma ChatPublished(s: Server, p: nat, text: Bytes, t: nat)
    requires p < |s.clients| && !Blank(CStr(text)) && s.clients[p].id != UNNAMED
    ensures var c, s' := s.clients[p], Chat(s, p, text, t);
      && OnlyTo(s, s', DoneSockets(s.clients) - {c.sock}, AesSealed(SERVER_KEY, CStr(ChatFrame(text, c.id))))
      && OnlyClock(s.clients, s'.clients, p, t)
  {
    var frame := ChatFrame(text, s.clients[p].id);
    assert CStr(CStr(frame)) == CStr(frame);
    hide ChatFrame, CStr, Blank, DoneSockets, Disconnect;
  }

  /** A chat text goes to every other Done client and to nobody else, one frame each;
      the sender's clock runs from the end of its handling. */
  lemma ChatRelayed(s: Server, p: nat, inp: Input, text: Bytes)
    requires Inv(s) && Heard(s, p, inp, "0" + text) && !Blank(CStr(text)) && FitsBuffers(s, p, inp)
    ensures var c, s' := s.clients[p], Poll(s, p, inp);
      && OnlyTo(s, s', DoneSockets(s.clients) - {c.sock}, AesSealed(SERVER_KEY, CStr(ChatFrame(text, c.id))))
      && OnlyClock(s.clients, s'.clients, p, inp.t1)
  {
    hide Poll, Frame, Chat, ChatFrame, CStr, Blank, DoneSockets, Inv, ValidName, Accepted, FitsBuffers, TooSoon, OnlyTo;
    SameDone(s, p, inp.t0);
    DoneNamed(s, p);
    HeardFrame(s, p, inp, "0" + text);
    hide Heard;
    var restarted := Touch(s, p, inp.t0);
    ChatFrameHandled(restarted, p, text, inp.t1);
    ChatPublished(restarted, p, text, inp.t1);
    SameOut(s, restarted, Poll(s, p, inp), DoneSockets(s.clients) - {s.clients[p].sock},
            AesSealed(SERVER_KEY, CStr(ChatFrame(text, s.clients[p].id))));
  }

  lemma {:induction false} CutText(text: Bytes, rest: Bytes)
    ensures CStr(text + rest) == if NUL in text then CStr(text) else text + CStr(rest)
  {
    if text == [] {
      assert text + rest == rest;
    } else {
      assert (text + rest)[1..] == text[1..] + rest;
      CutText(text[1..], rest);
    }
  }

  lemma NamedCut(text: Bytes, id: Bytes)
    requires ValidName(id)
    ensures CStr(text + [SEP] + id) == if NUL !in text then text + [SEP] + id else CStr(text)
  {
    ValidNameClean(id);
    CutText(text, [SEP] + id);
    CStrConcat([SEP], id);
    assert CStr(id) == id;
    hide ValidName, CStr;
    assert text + ([SEP] + id) == text + [SEP] + id;
  }

  /** Sending a frame as a C string cuts it off inside the text when that has a NUL. */
  lemma ChatCut(text: Bytes, id: Bytes)
    requires ValidName(id)
    ensures CStr(ChatFrame(text, id)) ==
      "0" + [SEP] + if NUL !in text then text + [SEP] + id else CStr(text)
  {
    TaggedCStr("0", text + [SEP] + id);
    NamedCut(text, id);
    hide CStr, ValidName;
  }

  lemma TwoFieldsSplit(a: Bytes, b: Bytes)
    requires SEP !in a && SEP !in b
    ensures Split(a + [SEP] + b, SEP) == [a, b]
  {
    hide Split;
    SplitWhole(b, SEP);
    SplitFirst(a, b, SEP);
  }

  lemma ThreeFields(a: Bytes, b: Bytes, c: Bytes)
    requires SEP !in a && SEP !in b && SEP !in c
    ensures Split(a + [SEP] + (b + [SEP] + c), SEP) == [a, b, c]
  {
    hide Split;
    TwoFieldsSplit(b, c);
    SplitFirst(a, b + [SEP] + c, SEP);
  }

  /** The fields the other clients find: type, text and name when the text has no NUL,
      type and cut text when it has one. */
  lemma ChatFields(text: Bytes, id: Bytes)
    requires SEP !in CStr(text) && ValidName(id)
    ensures Split(CStr(ChatFrame(text, id)), SEP) == if NUL !in text then ["0", text, id] else ["0", CStr(text)]
  {
    ChatCut(text, id);
    ValidNameClean(id);
    hide ValidName, ChatFrame, Split;
    if NUL !in text {
      assert CStr(text) == text;
      ThreeFields("0", text, id);
    } else {
      TwoFieldsSplit("0", CStr(text));
    }
  }

  /** A chat that is accepted has no separator before its first NUL. */
  lemma ChatTyped(text: Bytes)
    requires Accepted("0" + text)
    ensures SEP !in CStr(text)
  {
    CStrConcat("0", text);
    hide CStr;
  }

  /** The C++ client shows exactly the sender's name and text just when the text has
      no NUL. */
  lemma ChatShown(text: Bytes, id: Bytes)
    requires SEP !in CStr(text) && ValidName(id)
    ensures C.Shows(CStr(ChatFrame(text, id))) == C.Chat(id, text) <==> NUL !in text
  {
    ChatFields(text, id);
    hide CStr, Split, ChatFrame;
  }

  lemma WordsUtf8(name: Bytes)
    requires WordChars(name)
    ensures Ascii(name) && Utf8(name)
  {
    assert forall i :: 0 <= i < |name| ==> WordChar(name[i]);
    AsciiUtf8(name);
  }

  lemma ThreeMeaning(frame: Bytes, text: Bytes, id: Bytes)
    requires Split(frame, SEP) == ["0", text, id] && ValidName(id)
    ensures Meaning(frame) == if Utf8(text) then Some(MessagePacket(id, text)) else None
  {
    JoinSplit(frame, SEP);
    WordsUtf8(id);
    assert Utf8("0") by { AsciiUtf8("0"); }
    hide Split, Utf8, ValidName;
    Utf8Join(["0", text, id]);
    assert ["0", text, id][2..] == [id];
  }

  lemma TwoMeaning(frame: Bytes, text: Bytes)
    requires Split(frame, SEP) == ["0", text]
    ensures Meaning(frame) == None
  {
    hide Split, Utf8;
  }

  /** The Rust client recovers the same pair just when, besides, the text is UTF-8;
      else it panics. */
  lemma ChatParsed(text: Bytes, id: Bytes)
    requires SEP !in CStr(text) && ValidName(id)
    ensures Meaning(CStr(ChatFrame(text, id))) == if NUL !in text && Utf8(text) then Some(MessagePacket(id, text)) else None
  {
    var frame := CStr(ChatFrame(text, id));
    ChatFields(text, id);
    hide CStr, Split, ChatFrame, Meaning;
    if NUL !in text {
      ThreeMeaning(frame, text, id);
    } else {
      TwoMeaning(frame, CStr(text));
    }
  }

  /** From keyboard to screen: every other Done client gets one frame, from which the
      C++ client shows the sender's name and text if and only if the text has no NUL,
      and the Rust client if and only if it is UTF-8 besides. */
  lemma ChatRoundTrip(s: Server, p: nat, inp: Input, text: Bytes, k: Socket)
    requires Inv(s) && Heard(s, p, inp, "0" + text) && !Blank(CStr(text)) && FitsBuffers(s, p, inp)
    requires k in DoneSockets(s.clients) - {s.clients[p].sock}
    ensures var id, s' := s.clients[p].id, Poll(s, p, inp);
      && |Sent(s', k)| == |Sent(s, k)| + 1 && Sent(s, k) <= Sent(s', k)
      && var m := Sent(s', k)[|Sent(s, k)|];
         && AesOpen(SERVER_KEY, m).Some?
         && (C.Shows(m.payload) == C.Chat(id, text) <==> NUL !in text)
         && (Meaning(m.payload) == Some(MessagePacket(id, text)) <==> NUL !in text && Utf8(text))
  {
    var id := s.clients[p].id;
    DoneNamed(s, p);
    ChatRelayed(s, p, inp, text);
    assert k in s.out;
    ChatTyped(text);
    ChatShown(text, id);
    ChatParsed(text, id);
    hide Poll, Inv, Blank, Accepted, CStr, DoneSockets, Meaning, C.Shows, ChatFrame, Utf8, ValidName;
  }

  // ---- Direct messages ----------------------------------------------------

  function Spaces(n: nat): Bytes {
    seq(n, _ => ' ')
  }

  lemma {:induction false} SpacedWords(words: seq<Bytes>)
    requires words != []
    ensures Spaced(words) == Join(words, ' ') + " "
  {
    var n := |words| - 1;
    if n > 0 {
      SpacedWords(words[..n]);
    } else {
      assert Spaced(words[..0]) == [];
    }
  }

  /** Empty argument slots only add blanks. */
  lemma {:induction false} SpacedPadding(words: seq<Bytes>, n: nat)
    requires words != []
    ensures Spaced(words + seq(n, _ => [])) == Join(words, ' ') + Spaces(n + 1)
    decreases n
  {
    var all := words + seq(n, _ => []);
    if n == 0 {
      assert all == words;
      SpacedWords(words);
    } else {
      SpacedPadding(words, n - 1);
      assert all[..|all| - 1] == words + seq(n - 1, _ => []);
      assert all[|all| - 1] == [];
      assert Spaces(n + 1) == Spaces(n) + " ";
    }
  }

  function MessageLine(target: Bytes, text: Bytes): Bytes {
    "msg" + [' '] + (target + [' '] + text)
  }

  /** The words of a `msg` line and what is rebuilt from its 512 argument slots: the
      text as it was typed, runs of blanks included, then blanks. */
  lemma MessageRebuilt(target: Bytes, text: Bytes)
    requires ' ' !in target && |Split(text, ' ')| <= MAX_WORDS - 2
    ensures var args := Args(MessageLine(target, text));
      && args[0] == "msg" && args[1] == target
      && Spaced(args[2..]) == text + Spaces(511 - |Split(text, ' ')|)
  {
    hide Split, Spaced, Join;
    var words := Split(text, ' ');
    SplitFirst(target, text, ' ');
    SplitFirst("msg", target + [' '] + text, ' ');
    JoinSplit(text, ' ');
    var args := Args(MessageLine(target, text));
    assert args[2..] == words + seq(510 - |words|, _ => []);
    SpacedPadding(words, 510 - |words|);
  }

  lemma NameNoBlank(name: Bytes)
    requires ValidName(name)
    ensures ' ' !in name
  {
  }

  lemma OnlyClient(s: Server, q: nat)
    requires Inv(s) && q < |s.clients| && s.clients[q].id != UNNAMED
    ensures IndexOf(Ids(s.clients), s.clients[q].id) == q
  {
    var i := IndexOf(Ids(s.clients), s.clients[q].id);
    assert Ids(s.clients)[q] == s.clients[q].id;
  }

  lemma DispatchHandled(s: Server, p: nat, line: Bytes, t: nat)
    requires p < |s.clients| && Accepted("5" + line)
    ensures Frame(s, p, Some("5" + line), t) == Dispatch(s, p, line)
  {
    assert ("5" + line)[1..] == line;
    hide Dispatch, Accepted;
  }

  lemma ValidTarget(s: Server, q: nat)
    requires Inv(s) && q < |s.clients| && s.clients[q].id != UNNAMED
    ensures ValidName(s.clients[q].id)
  {
  }

  lemma DifferentIds(s: Server, p: nat, q: nat)
    requires Inv(s) && p < |s.clients| && q < |s.clients| && p != q && s.clients[q].id != UNNAMED
    ensures s.clients[p].id != s.clients[q].id
  {
  }

  lemma FindMsg()
    ensures FindCommand(BUILT_IN, "msg") == Some(Command("msg", Msg))
  {
    assert BUILT_IN[1..][0].name == "plugins" && BUILT_IN[1..][1..][0].name == "msg";
  }

  lemma MessageDispatched(s: Server, p: nat, q: nat, text: Bytes)
    requires p < |s.clients| && q < |s.clients| && s.cmds == BUILT_IN
    requires var to := s.clients[q].id;
      to != UNNAMED && to != s.clients[p].id && ' ' !in to && IndexOf(Ids(s.clients), to) == q
    requires |Split(text, ' ')| <= MAX_WORDS - 2
    ensures Dispatch(s, p, MessageLine(s.clients[q].id, text)) ==
      SendTo(s, s.clients[q].sock,
             Direct(MessageHeader(s.clients[q].id, s.clients[p].id) + (text + Spaces(511 - |Split(text, ' ')|))))
  {
    FindMsg();
    MessageRebuilt(s.clients[q].id, text);
    hide Args, FindCommand, Direct, MessageHeader, Spaces, Spaced, Split, IndexOf, CommandList, MessageLine, Ids;
  }

  lemma SendOnlyTo(s: Server, p: nat, t: nat, k: Socket, m: Message)
    requires p < |s.clients|
    ensures var s' := SendTo(Touch(s, p, t), k, m);
      OnlyTo(s, s', {k}, m) && OnlyClock(s.clients, s'.clients, p, t)
  {
  }

  lemma MessageSent(s: Server, p: nat, inp: Input, q: nat, text: Bytes)
    requires Inv(s) && s.cmds == BUILT_IN && q < |s.clients| && q != p && s.clients[q].id != UNNAMED
    requires Heard(s, p, inp, "5" + MessageLine(s.clients[q].id, text)) && |Split(text, ' ')| <= MAX_WORDS - 2
    ensures var c, to, s' := s.clients[p], s.clients[q], Poll(s, p, inp);
      && OnlyTo(s, s', {to.sock},
                Direct(MessageHeader(to.id, c.id) + (text + Spaces(511 - |Split(text, ' ')|))))
      && OnlyClock(s.clients, s'.clients, p, inp.t0)
  {
    hide Poll, Frame, Direct, Inv, ValidName, Dispatch, MessageHeader, MessageLine, Spaces, Split, IndexOf, OnlyTo, OnlyClock, NameFree;
    var to, restarted := s.clients[q], Touch(s, p, inp.t0);
    HeardFrame(s, p, inp, "5" + MessageLine(to.id, text));
    DispatchHandled(restarted, p, MessageLine(to.id, text), inp.t1);
    hide Heard, Accepted;
    ValidTarget(s, q);
    NameNoBlank(to.id);
    OnlyClient(s, q);
    DifferentIds(s, p, q);
    assert Ids(restarted.clients) == Ids(s.clients);
    MessageDispatched(restarted, p, q, text);
    SendOnlyTo(s, p, inp.t0, to.sock,
               Direct(MessageHeader(to.id, s.clients[p].id) + (text + Spaces(511 - |Split(text, ' ')|))));
  }

  /** `msg` to another online client puts exactly one frame on that client's
      connection and none on any other: target, sender and the text as typed. */
  lemma MessageRelayed(s: Server, p: nat, inp: Input, q: nat, text: Bytes)
    requires Inv(s) && s.cmds == BUILT_IN && q < |s.clients| && q != p && s.clients[q].id != UNNAMED
    requires Heard(s, p, inp, "5" + MessageLine(s.clients[q].id, text)) && |Split(text, ' ')| <= MAX_WORDS - 2
    ensures var c, to, s' := s.clients[p], s.clients[q], Poll(s, p, inp);
      && OnlyTo(s, s', {to.sock},
                Direct("[" + to.id + " -> " + c.id + "]: " + (text + Spaces(511 - |Split(text, ' ')|))))
      && OnlyClock(s.clients, s'.clients, p, inp.t0)
  {
    MessageSent(s, p, inp, q, text);
    hide Poll, Inv, Heard, OnlyTo, OnlyClock, Direct, MessageLine, Spaces, Split;
  }

  lemma DirectPayload(text: Bytes)
    ensures Direct(text) == AesSealed(SERVER_KEY, "6" + [SEP] + CStr(text))
  {
    TaggedCStr("6", text);
    hide CStr;
  }

  lemma SixShown(rest: Bytes)
    ensures C.Shows("6" + [SEP] + rest) == C.DirectMessage(Split(rest, SEP)[0])
  {
    hide Split, Pad;
    SplitFirst("6", rest, SEP);
    var f := Split("6" + [SEP] + rest, SEP);
    assert f == ["6"] + Split(rest, SEP);
    assert f <= Pad(f, C.ARGS);
  }

  lemma SuffixMeaning(kind: Bytes, rest: Bytes)
    requires kind in SUFFIX_TYPES
    ensures Meaning(kind + [SEP] + rest) == if Utf8(rest) then Some(SuffixPacket(kind, rest)) else None
  {
    assert |kind| == 1 && kind[0] as int < 0x80 && SEP !in kind;
    AsciiUtf8(kind);
    Utf8AtAscii(kind, SEP, rest);
    SplitFirst(kind, rest, SEP);
    hide Split, Utf8, SuffixPacket;
  }

  lemma FirstWhole(text: Bytes)
    ensures Split(CStr(text), SEP)[0] == text <==> Clean(text)
  {
    var cut := CStr(text);
    hide CStr, Split;
    SplitHead(cut, SEP);
    JoinSplit(cut, SEP);
    if SEP !in cut { SplitWhole(cut, SEP); }
  }

  /** The C++ client shows a direct message whole just when it is free of separator
      and NUL, the Rust client just when it is free of NUL and UTF-8. */
  lemma MessageShown(text: Bytes)
    requires |Split(Direct(text).payload, SEP)| <= C.ARGS
    ensures C.Shows(Direct(text).payload) == C.DirectMessage(text) <==> Clean(text)
    ensures Meaning(Direct(text).payload) == Some(ServerDmPacket(text)) <==> NUL !in text && Utf8(text)
  {
    var cut := CStr(text);
    DirectPayload(text);
    SixShown(cut);
    hide Direct, C.Shows, Meaning, Utf8, CStr, Split;
    SuffixMeaning("6", cut);
    FirstWhole(text);
  }

  lemma HeaderPlain(target: Bytes, sender: Bytes)
    requires ValidName(target) && ValidName(sender)
    ensures Ascii(MessageHeader(target, sender)) && Clean(MessageHeader(target, sender))
  {
    assert forall i :: 0 <= i < |target| ==> WordChar(target[i]);
    assert forall i :: 0 <= i < |sender| ==> WordChar(sender[i]);
    hide ValidName;
    var header := MessageHeader(target, sender);
    forall i | 0 <= i < |header|
      ensures header[i] as int < 0x80 && header[i] != SEP && header[i] != NUL
    {
    }
  }

  lemma SpacesPlain(n: nat)
    ensures Ascii(Spaces(n)) && Clean(Spaces(n))
  {
  }

  /** A header before and blanks behind a text make no difference to UTF-8. */
  lemma FramedUtf8(header: Bytes, text: Bytes, n: nat)
    requires Ascii(header) && n > 0
    ensures Utf8(header + (text + Spaces(n))) <==> Utf8(text)
  {
    SpacesPlain(n - 1);
    AsciiUtf8(Spaces(n - 1));
    Utf8AfterAscii(header, text + Spaces(n));
    Utf8AtAscii(text, ' ', Spaces(n - 1));
    assert text + Spaces(n) == text + [' '] + Spaces(n - 1);
    hide Utf8;
  }

  lemma ShownFields(header: Bytes, text: Bytes, n: nat)
    requires Clean(header) && SEP !in CStr(text)
    ensures |Split(Direct(header + (text + Spaces(n))).payload, SEP)| == 2
  {
    var cut := CStr(header + (text + Spaces(n)));
    DirectPayload(header + (text + Spaces(n)));
    CStrConcat(header, text + Spaces(n));
    CutText(text, Spaces(n));
    SpacesPlain(n);
    hide Direct, Split, CStr, Spaces;
    assert CStr(Spaces(n)) == Spaces(n);
    TwoFieldsSplit("6", cut);
  }

  /** A command line that is accepted has no separator before its first NUL. */
  lemma TypedClean(target: Bytes, text: Bytes)
    requires Accepted("5" + MessageLine(target, text)) && NUL !in target
    ensures SEP !in CStr(text)
  {
    var start := "5msg " + target + " ";
    assert "5" + MessageLine(target, text) == start + text;
    assert NUL !in "5msg ";
    CStrConcat(start, text);
  }

  /** Behind a plain header and before blanks a text is shown whole under the same
      conditions. */
  lemma FramedSeen(header: Bytes, text: Bytes, n: nat)
    requires Ascii(header) && Clean(header) && SEP !in CStr(text) && n > 0
    ensures var shown := header + (text + Spaces(n));
      && Direct(shown).AesSealed? && Direct(shown).key == SERVER_KEY
      && (C.Shows(Direct(shown).payload) == C.DirectMessage(shown) <==> NUL !in text)
      && (Meaning(Direct(shown).payload) == Some(ServerDmPacket(shown)) <==> NUL !in text && Utf8(text))
  {
    hide C.Shows, Meaning, Utf8, CStr, Spaces, Split, Direct;
    var shown := header + (text + Spaces(n));
    SpacesPlain(n);
    FramedUtf8(header, text, n);
    ShownFields(header, text, n);
    MessageShown(shown);
    DirectPayload(shown);
    assert NUL in shown <==> NUL in text;
    assert NUL !in text ==> CStr(text) == text && SEP !in shown;
  }

  lemma HeardNamed(s: Server, p: nat, inp: Input, target: Bytes, text: Bytes)
    requires Inv(s) && Heard(s, p, inp, "5" + MessageLine(target, text)) && ValidName(target)
    ensures ValidName(s.clients[p].id) && SEP !in CStr(text)
  {
    DoneNamed(s, p);
    ValidNameClean(target);
    hide Accepted, MessageLine, CStr, Inv, ValidName;
    TypedClean(target, text);
  }

  lemma InOut(s: Server, q: nat)
    requires Inv(s) && q < |s.clients|
    ensures s.clients[q].sock in s.out
  {
  }

  /** From keyboard to screen: a `msg` line puts one frame on the target's connection,
      from which the C++ client shows header, text and padding if and only if the text
      has no NUL, and the Rust client if and only if it is UTF-8 besides. */
  lemma MessageRoundTrip(s: Server, p: nat, inp: Input, q: nat, text: Bytes)
    requires Inv(s) && s.cmds == BUILT_IN && q < |s.clients| && q != p && s.clients[q].id != UNNAMED
    requires Heard(s, p, inp, "5" + MessageLine(s.clients[q].id, text)) && |Split(text, ' ')| <= MAX_WORDS - 2
    ensures var to, s' := s.clients[q], Poll(s, p, inp);
      var shown := "[" + to.id + " -> " + s.clients[p].id + "]: " + (text + Spaces(511 - |Split(text, ' ')|));
      && |Sent(s', to.sock)| == |Sent(s, to.sock)| + 1 && Sent(s, to.sock) <= Sent(s', to.sock)
      && var m := Sent(s', to.sock)[|Sent(s, to.sock)|];
         && AesOpen(SERVER_KEY, m).Some?
         && (C.Shows(m.payload) == C.DirectMessage(shown) <==> NUL !in text)
         && (Meaning(m.payload) == Some(ServerDmPacket(shown)) <==> NUL !in text && Utf8(text))
  {
    var to, c := s.clients[q], s.clients[p];
    hide Poll, Inv, Accepted, Heard, CStr, Meaning, C.Shows, Utf8, ValidName, MessageLine, Spaces, Split, Direct, OnlyClock, Ascii, Clean;
    ValidTarget(s, q);
    HeardNamed(s, p, inp, to.id, text);
    MessageRelayed(s, p, inp, q, text);
    InOut(s, q);
    assert MessageHeader(to.id, c.id) == "[" + to.id + " -> " + c.id + "]: ";
    HeaderPlain(to.id, c.id);
    hide MessageHeader;
    FramedSeen("[" + to.id + " -> " + c.id + "]: ", text, 511 - |Split(text, ' ')|);
  }

  // ---- Rosters ------------------------------------------------------------

  /** A roster message is shown by the C++ client as somebody's joining or leaving, by
      its type, with its list padded with the empty strings of unused argument slots. */
  lemma RosterShown(m: Message, list: seq<Bytes>)
    requires RosterOf(m) == Some(list) && |list| <= C.ARGS - 2
    ensures var f := Split(m.payload, SEP);
      var who := if |f| > 1 then f[1] else [];
      C.Shows(m.payload) ==
        if f[0] == "1" then C.Joined(who, Pad(list, C.ARGS - 2)) else C.Left(who, Pad(list, C.ARGS - 2))
  {
    hide Split;
    var f := Split(m.payload, SEP);
    var args := Pad(f, C.ARGS);
    assert args[0] == f[0] && args[1] == if |f| > 1 then f[1] else [];
    assert args[2..] == Pad(list, C.ARGS - 2);
  }

  /** The remaining types: a command reply is shown as one, anything unknown not at
      all. */
  lemma OthersShown(kind: Bytes, text: Bytes)
    requires SEP !in kind && SEP !in text && kind !in {"0", "1", "2", "6"}
    ensures C.Shows(kind + [SEP] + text) == if kind == "5" then C.Command(text) else C.Nothing
  {
    TwoFieldsSplit(kind, text);
    hide Split, Pad;
    assert [kind, text] <= Pad([kind, text], C.ARGS);
  }

  /** The latest join or leave frame among these messages. */
  function LatestFrame(sent: seq<Message>): Option<Message> {
    if sent == [] then None
    else if RosterOf(sent[|sent| - 1]).Some? then Some(sent[|sent| - 1])
    else LatestFrame(sent[..|sent| - 1])
  }

  lemma {:induction false} LatestList(sent: seq<Message>)
    ensures LastRoster(sent) == if LatestFrame(sent).Some? then RosterOf(LatestFrame(sent).value) else None
    ensures LatestFrame(sent).Some? ==> RosterOf(LatestFrame(sent).value).Some?
  {
    if sent != [] { LatestList(sent[..|sent| - 1]); }
  }

  /** For the latest roster frame sent to k since its mark, if any, the C++ client
      prints the server's own list. */
  ghost predicate OnScreen(s: Server, k: Socket, mark: map<Socket, nat>) {
    && k in mark && mark[k] <= |Sent(s, k)|
    && var frame := LatestFrame(Sent(s, k)[mark[k]..]);
       frame.Some? ==>
         && AesOpen(SERVER_KEY, frame.value).Some?
         && var shown := C.Shows(frame.value.payload);
            (shown.Joined? || shown.Left?) && shown.list == Pad(NamedIds(s.clients), C.ARGS - 2)
  }

  /** Over every run, while at most 98 clients are named, the last list the screen of a
      Done client showed since it became Done and last renamed itself is the server's. */
  lemma RosterOnScreen(s: Server, run: seq<Event>, mark: map<Socket, nat>, i: nat)
    requires Inv(s) && Legal(s, run) && Agreement(s, mark)
    requires i < |Run(s, run).clients| && Run(s, run).clients[i].auth == Done
    requires |NamedIds(Run(s, run).clients)| <= C.ARGS - 2
    ensures OnScreen(Run(s, run), Run(s, run).clients[i].sock, RunMarks(s, run, mark))
  {
    hide Run, RunMarks, Legal, Inv, C.Shows, Split;
    RosterAgreement(s, run, mark);
    var z, marks := Run(s, run), RunMarks(s, run, mark);
    var k := z.clients[i].sock;
    assert Knows(z, k, marks);
    LatestList(Sent(z, k)[marks[k]..]);
    var frame := LatestFrame(Sent(z, k)[marks[k]..]);
    if frame.Some? { RosterShown(frame.value, NamedIds(z.clients)); }
  }

  lemma {:induction false} NamesUtf8(ids: seq<Bytes>)
    requires forall i :: 0 <= i < |ids| ==> ids[i] == UNNAMED || ValidName(ids[i])
    ensures forall i :: 0 <= i < |NamedAmong(ids)| ==> Utf8(NamedAmong(ids)[i])
    decreases |ids|
  {
    if ids != [] {
      NamesUtf8(ids[..|ids| - 1]);
      if ids[|ids| - 1] != UNNAMED { WordsUtf8(ids[|ids| - 1]); }
    }
  }

  lemma IdUtf8(id: Bytes)
    requires id == UNNAMED || ValidName(id)
    ensures Utf8(id) <==> id != UNNAMED
  {
    if id != UNNAMED {
      WordsUtf8(id);
    }
  }

  lemma AsWritten(kind: Bytes, id: Bytes, clients: seq<Client>)
    requires kind in {"1", "2"} && (id == UNNAMED || ValidName(id)) && GoodIds(clients)
    ensures Seal(Join([kind, id] + NamedIds(clients), SEP)).payload == Join([kind, id] + NamedIds(clients), SEP)
  {
    FrameRoster(kind, id, clients);
    JoinSplit(Seal(Join([kind, id] + NamedIds(clients), SEP)).payload, SEP);
    hide CStr, Split, Join, ValidName, NamedIds;
  }

  /** The Rust client understands every join frame, and a leave frame exactly when the
      client that left had a name: the placeholder is not UTF-8. */
  lemma RosterParsed(kind: Bytes, id: Bytes, clients: seq<Client>)
    requires kind in {"1", "2"} && (id == UNNAMED || ValidName(id)) && GoodIds(clients)
    ensures var rest := Join([id] + NamedIds(clients), SEP);
      Meaning(Seal(Join([kind, id] + NamedIds(clients), SEP)).payload) ==
        if id == UNNAMED then None else if kind == "1" then Some(JoinPacket(rest)) else Some(DisconnectPacket(rest))
  {
    var names := [id] + NamedIds(clients);
    var rest := Join(names, SEP);
    assert kind in SUFFIX_TYPES && SuffixPacket(kind, rest) == if kind == "1" then JoinPacket(rest) else DisconnectPacket(rest);
    assert [kind] + names == [kind, id] + NamedIds(clients);
    JoinConcat([kind], names, SEP);
    NamesUtf8(Ids(clients));
    IdUtf8(id);
    hide CStr, Split, Utf8, ValidName, SuffixPacket, Meaning, NamedIds;
    SuffixMeaning(kind, rest);
    Utf8Join(names);
    assert Utf8(rest) <==> id != UNNAMED by {
      assert names[0] == id;
      assert forall i :: 1 <= i < |names| ==> names[i] == NamedIds(clients)[i - 1];
    }
    AsWritten(kind, id, clients);
  }

  // ---- A freshly started server -------------------------------------------

  /** Everything that holds of every server reached from a started one, whatever its
      clients send and however polls and accepts interleave. */
  lemma EveryReachableServer(s: Server, run: seq<Event>)
    requires Initial(s) && Legal(s, run)
    ensures var z := Run(s, run);
      && Inv(z)
      && Agreement(z, RunMarks(s, run, map[]))
      && Extends(s.users, z.users) && Authenticated(z, RunLogins(s, run, map[]))
      && KeysAccounted(z, RunKeys(s, run, KeyBook({}, map[])))
  {
    InitialInv(s);
    assert KeysAccounted(s, KeyBook({}, map[]));
    hide Legal, Run, RunMarks, RunLogins, RunKeys, Inv;
    RunKeepsInv(s, run);
    RosterAgreement(s, run, map[]);
    PasswordsOverRun(s, run, map[]);
    KeyAccounting(s, run, KeyBook({}, map[]));
  }
}
