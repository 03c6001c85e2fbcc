/** The Rust client's one-pass packet parser and the byte ranges it accepts. */
module RustParser {
  import opened Bytes

  predicate Within(s: Bytes, i: nat, lo: int, hi: int) {
    i < |s| && lo <= s[i] as int <= hi
  }

  predicate Continuation(s: Bytes, i: nat) {
    Within(s, i, 0x80, 0xBF)
  }

  /** Length of the well-formed UTF-8 sequence s starts with, 0 when there is none
      (Table 3-7 of the Unicode Standard). */
  function SequenceLength(s: Bytes): (n: nat)
    ensures n <= |s|
  {
    if Within(s, 0, 0x00, 0x7F) then 1
    else if Within(s, 0, 0xC2, 0xDF) && Continuation(s, 1) then 2
    else if && (|| (Within(s, 0, 0xE0, 0xE0) && Within(s, 1, 0xA0, 0xBF))
                || (Within(s, 0, 0xE1, 0xEC) && Continuation(s, 1))
                || (Within(s, 0, 0xED, 0xED) && Within(s, 1, 0x80, 0x9F))
                || (Within(s, 0, 0xEE, 0xEF) && Continuation(s, 1)))
            && Continuation(s, 2) then 3
    else if && (|| (Within(s, 0, 0xF0, 0xF0) && Within(s, 1, 0x90, 0xBF))
                || (Within(s, 0, 0xF1, 0xF3) && Continuation(s, 1))
                || (Within(s, 0, 0xF4, 0xF4) && Within(s, 1, 0x80, 0x8F)))
            && Continuation(s, 2) && Continuation(s, 3) then 4
    else 0
  }

  predicate Utf8(s: Bytes)
    decreases |s|
  {
    s == [] || (SequenceLength(s) > 0 && Utf8(s[SequenceLength(s)..]))
  }

  /** An ASCII byte, the separator for one, is always a character of its own. */
  lemma {:induction false} Utf8AtAscii(a: Bytes, c: char, b: Bytes)
    requires c as int < 0x80
    ensures Utf8(a + [c] + b) <==> Utf8(a) && Utf8(b)
    decreases |a|
  {
    var s := a + [c] + b;
    if a == [] {
      assert s[1..] == b;
    } else {
      var n := SequenceLength(a);
      assert forall i :: 0 <= i < |a| ==> s[i] == a[i];
      assert s[|a|] == c;
      assert SequenceLength(s) == n;
      if n > 0 {
        Utf8AtAscii(a[n..], c, b);
        assert s[n..] == a[n..] + [c] + b;
      }
    }
  }

  predicate Ascii(s: Bytes) {
    forall i :: 0 <= i < |s| ==> s[i] as int < 0x80
  }

  lemma {:induction false} Utf8AfterAscii(a: Bytes, b: Bytes)
    requires Ascii(a)
    ensures Utf8(a + b) <==> Utf8(b)
    decreases |a|
  {
    if a == [] {
      assert a + b == b;
    } else {
      assert a + b == [] + [a[0]] + (a[1..] + b);
      Utf8AtAscii([], a[0], a[1..] + b);
      Utf8AfterAscii(a[1..], b);
    }
  }

  lemma AsciiUtf8(s: Bytes)
    requires Ascii(s)
    ensures Utf8(s)
  {
    assert s == s + [];
    Utf8AfterAscii(s, []);
  }

  lemma {:induction false} Utf8Join(fields: seq<Bytes>)
    requires fields != []
    ensures Utf8(Join(fields, SEP)) <==> forall i :: 0 <= i < |fields| ==> Utf8(fields[i])
  {
    var n := |fields| - 1;
    if n > 0 {
      Utf8Join(fields[..n]);
      Utf8AtAscii(Join(fields[..n], SEP), SEP, fields[n]);
      assert fields == fields[..n] + [fields[n]];
    }
  }

  datatype Packet =
    | MessagePacket(username: Bytes, message: Bytes)
    | JoinPacket(notice: Bytes)
    | DisconnectPacket(notice: Bytes)
    | CommandReplyPacket(reply: Bytes)
    | ServerDmPacket(dm: Bytes)

  const SUFFIX_TYPES: set<Bytes> := {"1", "2", "5", "6"}

  function SuffixPacket(kind: Bytes, rest: Bytes): Packet
    requires kind in SUFFIX_TYPES
  {
    if kind == "1" then JoinPacket(rest)
    else if kind == "2" then DisconnectPacket(rest)
    else if kind == "5" then CommandReplyPacket(rest)
    else ServerDmPacket(rest)
  }

  function Illegal(kind: Bytes): Packet {
    MessagePacket("illegal packet reply starter (" + kind + ")", "???")
  }

  /** What a frame means to the Rust client, in terms of the fields between
      separators; None when the parser panics. */
  function Meaning(buf: Bytes): Option<Packet> {
    var f := Split(buf, SEP);
    if |f| == 1 then None
    else if f[0] in SUFFIX_TYPES then
      if Utf8(buf) then Some(SuffixPacket(f[0], Join(f[1..], SEP))) else None
    else if f[0] == "0" then
      if |f| > 2 && Utf8(buf) then Some(MessagePacket(Join(f[2..], SEP), f[1])) else None
    else
      if Utf8(Join(f[..|f| - 1], SEP)) then Some(Illegal(f[0])) else None
  }

  /** The text after the k-th separator. */
  lemma SuffixAfter(s: Bytes, n: nat, rest: Bytes, whole: Bytes)
    requires n < |whole| && whole[..n] == s && whole[n] == SEP && whole[n + 1..] == rest
    ensures Split(whole, SEP) == Split(s, SEP) + Split(rest, SEP)
    ensures Join(Split(whole, SEP)[|Split(s, SEP)|..], SEP) == rest
    ensures Utf8(whole) <==> Utf8(s) && Utf8(rest)
  {
    hide Split, Utf8;
    assert whole == s + [SEP] + rest;
    SplitConcat(s, rest, SEP);
    JoinSplit(rest, SEP);
    Utf8AtAscii(s, SEP, rest);
    assert Split(whole, SEP)[|Split(s, SEP)|..] == Split(rest, SEP);
  }

  /** State of the scan after i bytes: the closed fields so far are all UTF-8, and
      the early pushes have put the final payload where later pushes leave it. */
  ghost predicate Scanned(buf: Bytes, i: nat, lastPoint: nat, ifPasses: nat, strvec: seq<Bytes>)
    requires i <= |buf|
  {
    var seen, all := Split(buf[..i], SEP), Split(buf, SEP);
    && ifPasses == |seen| - 1
    && lastPoint <= i && buf[lastPoint..i] == seen[ifPasses]
    && (forall j :: 0 <= j < ifPasses ==> Utf8(seen[j]))
    && |strvec| >= ifPasses && (ifPasses == 0 ==> strvec == [])
    && (ifPasses > 0 ==>
      && strvec[0] == all[0]
      && (strvec[0] in SUFFIX_TYPES ==> |strvec| > 1 && Utf8(buf) && strvec[1] == Join(all[1..], SEP))
      && (strvec[0] == "0" ==>
        if ifPasses == 1 then |strvec| == 1
        else |strvec| > 2 && |all| > 2 && Utf8(buf) && strvec[1] == all[1] && strvec[2] == Join(all[2..], SEP)))
  }

  lemma BadJoin(seen: seq<Bytes>, more: seq<Bytes>)
    requires seen != [] && !Utf8(Join(seen, SEP))
    ensures !Utf8(Join(seen + more, SEP))
  {
    hide Utf8, Join;
    if more == [] {
      assert seen + more == seen;
    } else {
      JoinConcat(seen, more, SEP);
      Utf8AtAscii(Join(seen, SEP), SEP, Join(more, SEP));
    }
  }

  /** A field before some separator that is not UTF-8 makes the parser panic,
      whatever the packet type. */
  lemma PanicsOnBadField(buf: Bytes, seen: seq<Bytes>, i: nat)
    requires i < |buf| && buf[i] == SEP && seen == Split(buf[..i], SEP)
    requires !Utf8(buf[..i])
    ensures Meaning(buf) == None
  {
    hide Utf8, Split, SuffixPacket, Illegal, Join;
    var f, rest := Split(buf, SEP), Split(buf[i + 1..], SEP);
    SuffixAfter(buf[..i], i, buf[i + 1..], buf);
    JoinSplit(buf[..i], SEP);
    BadJoin(seen, rest[..|rest| - 1]);
    assert f[..|f| - 1] == seen + rest[..|rest| - 1];
  }

  /** Everything known at a separator: which fields are final, what follows, and
      that a bad closed field or bad suffix dooms the packet. */
  lemma ClosedField(buf: Bytes, i: nat)
    requires i < |buf| && buf[i] == SEP
    ensures var seen, all := Split(buf[..i], SEP), Split(buf, SEP);
      && Split(buf[..i + 1], SEP) == seen + [[]]
      && |all| > |seen| && all[..|seen|] == seen
      && Join(all[|seen|..], SEP) == buf[i + 1..]
      && (Utf8(buf) <==> Utf8(buf[..i]) && Utf8(buf[i + 1..]))
      && (Utf8(buf[..i]) <==> forall j :: 0 <= j < |seen| ==> Utf8(seen[j]))
      && (!Utf8(buf[..i]) ==> Meaning(buf) == None)
  {
    hide Meaning, Utf8;
    SplitNext(buf, i, SEP);
    JoinSplit(buf[..i], SEP);
    hide Split;
    SuffixAfter(buf[..i], i, buf[i + 1..], buf);
    Utf8Join(Split(buf[..i], SEP));
    if !Utf8(buf[..i]) {
      PanicsOnBadField(buf, Split(buf[..i], SEP), i);
    }
  }

  predicate PushesSuffix(kind: Bytes, ifPasses: nat) {
    (kind == "0" && ifPasses == 2) || (kind in SUFFIX_TYPES && ifPasses == 1)
  }

  lemma ScanStart(buf: Bytes)
    ensures Scanned(buf, 0, 0, 0, [])
  {}

  lemma OpenStep(buf: Bytes, i: nat, lastPoint: nat, ifPasses: nat, strvec: seq<Bytes>)
    requires i < |buf| && buf[i] != SEP && Scanned(buf, i, lastPoint, ifPasses, strvec)
    ensures Scanned(buf, i + 1, lastPoint, ifPasses, strvec)
  {
    SplitNext(buf, i, SEP);
    assert buf[lastPoint..i + 1] == buf[lastPoint..i] + [buf[i]];
  }

  lemma SeparatorStep(buf: Bytes, i: nat, lastPoint: nat, ifPasses: nat, strvec: seq<Bytes>)
    requires i < |buf| && buf[i] == SEP && Scanned(buf, i, lastPoint, ifPasses, strvec)
    ensures !Utf8(buf[lastPoint..i]) ==> Meaning(buf) == None
    ensures Utf8(buf[lastPoint..i]) ==>
      var pushed := strvec + [buf[lastPoint..i]];
      if !PushesSuffix(pushed[0], ifPasses + 1) then Scanned(buf, i + 1, i + 1, ifPasses + 1, pushed)
      else if Utf8(buf[i + 1..]) then Scanned(buf, i + 1, i + 1, ifPasses + 1, pushed + [buf[i + 1..]])
      else Meaning(buf) == None
  {
    ClosedField(buf, i);
    var seen, all := Split(buf[..i], SEP), Split(buf, SEP);
    assert all[0] == all[..|seen|][0];
    assert seen == seen[..ifPasses] + [buf[lastPoint..i]];
  }

  /** At the end of the packet the vector of strings determines the result. */
  lemma ScannedAll(buf: Bytes, lastPoint: nat, ifPasses: nat, strvec: seq<Bytes>)
    requires Scanned(buf, |buf|, lastPoint, ifPasses, strvec)
    ensures Meaning(buf) ==
      if strvec == [] then None
      else if strvec[0] == "0" then
        if |strvec| < 3 then None else Some(MessagePacket(strvec[2], strvec[1]))
      else if strvec[0] in SUFFIX_TYPES && |strvec| > 1 then Some(SuffixPacket(strvec[0], strvec[1]))
      else Some(Illegal(strvec[0]))
    ensures strvec != [] && strvec[0] in SUFFIX_TYPES ==> |strvec| > 1
  {
    assert buf[..|buf|] == buf;
    if ifPasses > 0 && strvec[0] != "0" && strvec[0] !in SUFFIX_TYPES {
      Utf8Join(Split(buf, SEP)[..ifPasses]);
    }
  }

  method ParsePacket(buf: Bytes) returns (r: Option<Packet>)
    ensures r == Meaning(buf)
  {
    hide Scanned, Meaning, Split, Utf8;
    var lastPoint, ifPasses := 0, 0;
    ScanStart(buf);
    var strvec: seq<Bytes> := [];
    for i := 0 to |buf|
      invariant lastPoint <= i && Scanned(buf, i, lastPoint, ifPasses, strvec)
    {
      if buf[i] == SEP {
        SeparatorStep(buf, i, lastPoint, ifPasses, strvec);
        var piece := buf[lastPoint..i];
        if !Utf8(piece) {
          return None;
        }
        strvec := strvec + [piece];
        lastPoint := i + 1;
        ifPasses := ifPasses + 1;
        if PushesSuffix(strvec[0], ifPasses) {
          var suffix := buf[lastPoint..];
          if !Utf8(suffix) {
            return None;
          }
          strvec := strvec + [suffix];
        }
      } else {
        OpenStep(buf, i, lastPoint, ifPasses, strvec);
      }
    }
    assert buf[..|buf|] == buf;
    ScannedAll(buf, lastPoint, ifPasses, strvec);
    if |strvec| == 0 {
      return None;
    }
    if strvec[0] == "0" {
      if |strvec| < 3 {
        return None;
      }
      return Some(MessagePacket(strvec[2], strvec[1]));
    } else if strvec[0] in SUFFIX_TYPES {
      return Some(SuffixPacket(strvec[0], strvec[1]));
    }
    return Some(Illegal(strvec[0]));
  }

  /** On the packet types whose payload is one text, the Rust client shows the
      fields the C++ lexer finds after the type, rejoined, as a packet of that type. */
  lemma AgreesWithLexer(buf: Bytes)
    requires Split(buf, SEP)[0] in SUFFIX_TYPES && SEP in buf
    ensures Meaning(buf).Some? <==> Utf8(buf)
    ensures var kind, rest := Split(buf, SEP)[0], Join(Split(buf, SEP)[1..], SEP);
      Utf8(buf) ==>
        && (kind == "1" ==> Meaning(buf) == Some(JoinPacket(rest)))
        && (kind == "2" ==> Meaning(buf) == Some(DisconnectPacket(rest)))
        && (kind == "5" ==> Meaning(buf) == Some(CommandReplyPacket(rest)))
        && (kind == "6" ==> Meaning(buf) == Some(ServerDmPacket(rest)))
    ensures buf == Split(buf, SEP)[0] + [SEP] + Join(Split(buf, SEP)[1..], SEP)
  {
    SplitHead(buf, SEP);
  }

  /** A chat needs its text and a name, which may itself contain separators. */
  lemma ChatStarter(rest: Bytes)
    ensures var f := Split(rest, SEP);
      Meaning("0" + [SEP] + rest) ==
        if |f| >= 2 && Utf8(rest) then Some(MessagePacket(Join(f[1..], SEP), f[0])) else None
  {
    hide Split, Utf8, Join, Illegal, SuffixPacket;
    var f := Split(rest, SEP);
    SplitFirst("0", rest, SEP);
    assert Utf8("0" + [SEP] + rest) <==> Utf8(rest) by {
      Utf8AtAscii("0", SEP, rest);
      AsciiUtf8("0");
    }
    assert |f| >= 2 ==> (["0"] + f)[2..] == f[1..];
  }

  /** Any unknown starter is reported by a made-up chat, for which only the last field
      may be something else than UTF-8. */
  lemma UnknownStarter(kind: Bytes, rest: Bytes)
    requires SEP !in kind && kind != "0" && kind !in SUFFIX_TYPES
    ensures var f := Split(rest, SEP);
      Meaning(kind + [SEP] + rest) ==
        if Utf8(Join([kind] + f[..|f| - 1], SEP)) then Some(MessagePacket("illegal packet reply starter (" + kind + ")", "???"))
        else None
  {
    hide Split, Utf8, Join, SuffixPacket;
    var f := Split(rest, SEP);
    SplitFirst(kind, rest, SEP);
    assert ([kind] + f)[..|f|] == [kind] + f[..|f| - 1];
  }
}
