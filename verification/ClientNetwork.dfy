/** The C++ client: its side of the handshake and what it shows for a frame. */
module ClientNetwork {
  import opened Bytes
  import opened Crypto
  import Lexer

  datatype HandshakeStatus = HasntBegun | ReceivedPubKey | SentCredentials | SentPubKey | ReceivedAESKey

  /** `sent` is everything the client has put on its socket; `crashed` stands for an
      exception nobody catches. */
  datatype ClientState = ClientState(
    own: Key,
    status: HandshakeStatus,
    serverKey: Option<Key>,
    aesKey: Bytes,
    hasHandshook: bool,
    crashed: bool,
    sent: seq<Message>)

  function CredentialText(uname: Bytes, passwd: Bytes): Bytes {
    uname + [SEP] + passwd
  }

  function Fresh(own: Key): ClientState {
    ClientState(own, HasntBegun, None, [], false, false, [])
  }

  /** The client's answer to a message that arrives during the handshake. */
  function HandshakeStep(c: ClientState, m: Message, uname: Bytes, passwd: Bytes): ClientState {
    if c.crashed then c
    else match c.status
      case HasntBegun =>
        if !m.KeyText? then c.(crashed := true)
        else
          var known, text := c.(serverKey := Some(m.modulus)), CredentialText(uname, passwd);
          if !Loads(m) then known.(crashed := true)
          else if Refuses(m.modulus, |text|) then known.(status := ReceivedPubKey, crashed := true)
          else known.(status := SentCredentials, sent := c.sent + [RsaSealed(m.modulus, text)])
      case SentCredentials => c.(sent := c.sent + [KeyText(c.own)], status := SentPubKey)
      case SentPubKey =>
        var key := RsaOpen(c.own, m);
        if key.None? then c.(status := ReceivedAESKey, crashed := true)
        else c.(status := ReceivedAESKey, aesKey := key.value, hasHandshook := true)
      case _ => c
  }

  /** The client after these messages, in order. */
  function Taken(own: Key, msgs: seq<Message>, uname: Bytes, passwd: Bytes): ClientState {
    if msgs == [] then Fresh(own)
    else HandshakeStep(Taken(own, msgs[..|msgs| - 1], uname, passwd), msgs[|msgs| - 1], uname, passwd)
  }

  /** A first message the client can answer: a key it can load and seal its
      credentials for. */
  predicate Greets(m: Message, uname: Bytes, passwd: Bytes) {
    Loads(m) && !Refuses(m.modulus, |CredentialText(uname, passwd)|)
  }

  /** What the handshake comes to, whatever messages arrive. The client finishes
      exactly when the first is such a key and the third opens under its own key, and
      then holds what that opened to; the second may be anything. All it ever sends
      is its sealed credentials and its own key, after the first and second message.
      It crashes exactly when the first or the third is not as said. */
  lemma {:induction false} HandshakeOutcome(own: Key, msgs: seq<Message>, uname: Bytes, passwd: Bytes)
    ensures var c, n := Taken(own, msgs, uname, passwd), |msgs|;
      var greeted := n >= 1 && Greets(msgs[0], uname, passwd);
      && c.own == own
      && c.serverKey == (if n >= 1 && msgs[0].KeyText? then Some(msgs[0].modulus) else None)
      && (c.hasHandshook <==> greeted && n >= 3 && RsaOpen(own, msgs[2]).Some?)
      && c.aesKey == (if c.hasHandshook then RsaOpen(own, msgs[2]).value else [])
      && c.sent == (if !greeted then []
                    else [RsaSealed(msgs[0].modulus, CredentialText(uname, passwd)), KeyText(own)][..if n == 1 then 1 else 2])
      && (c.crashed <==> n >= 1 && (!greeted || (n >= 3 && RsaOpen(own, msgs[2]).None?)))
      && (greeted ==> c.status == if n == 1 then SentCredentials else if n == 2 then SentPubKey else ReceivedAESKey)
      && (n == 0 ==> c.status == HasntBegun)
    decreases |msgs|
  {
    hide Refuses, CredentialText;
    if msgs != [] {
      HandshakeOutcome(own, msgs[..|msgs| - 1], uname, passwd);
    }
  }

  datatype Shown =
    | Chat(name: Bytes, text: Bytes)
    | Joined(name: Bytes, list: seq<Bytes>)
    | Left(name: Bytes, list: seq<Bytes>)
    | Command(text: Bytes)
    | DirectMessage(text: Bytes)
    | Nothing

  const ARGS: nat := 100

  /** What the client prints for a decrypted frame, in terms of its fields. */
  function Shows(frame: Bytes): Shown {
    var f := Pad(Split(frame, SEP), ARGS);
    if f[0] == "0" then Chat(f[2], f[1])
    else if f[0] == "1" then Joined(f[1], f[2..])
    else if f[0] == "2" then Left(f[1], f[2..])
    else if f[0] == "5" then Command(f[1])
    else if f[0] == "6" then DirectMessage(f[1])
    else Nothing
  }

  class ClientNetwork {
    const own: Key
    var status: HandshakeStatus
    var serverKey: Option<Key>
    var aesKey: Bytes
    var hasHandshook: bool
    var crashed: bool
    var sent: seq<Message>

    ghost function View(): ClientState
      reads this
    {
      ClientState(own, status, serverKey, aesKey, hasHandshook, crashed, sent)
    }

    constructor (own: Key)
      ensures View() == Fresh(own)
    {
      this.own := own;
      status, serverKey, aesKey, hasHandshook, crashed, sent := HasntBegun, None, [], false, false, [];
    }

    method Handshake(data: Message, uname: Bytes, passwd: Bytes)
      requires !crashed
      modifies this
      ensures View() == HandshakeStep(old(View()), data, uname, passwd)
    {
      hide Refuses;
      if status == HasntBegun {
        if !data.KeyText? {
          crashed := true;
          return;
        }
        serverKey := Some(data.modulus);
        if !Loads(data) {
          crashed := true;
          return;
        }
        status := ReceivedPubKey;
        var credits := uname + [SEP] + passwd;
        if Refuses(data.modulus, |credits|) {
          crashed := true;
          return;
        }
        sent := sent + [RsaSealed(serverKey.value, credits)];
        status := SentCredentials;
      } else if status == SentCredentials {
        sent := sent + [KeyText(own)];
        status := SentPubKey;
      } else if status == SentPubKey {
        status := ReceivedAESKey;
        var v := RsaOpen(own, data);
        if v.None? {
          crashed := true;
          return;
        }
        aesKey := v.value;
        hasHandshook := true;
      }
    }

    /** Splits a decrypted frame into the argument array and shows it. */
    static method Display(pt: Bytes) returns (shown: Shown)
      requires |Split(pt, SEP)| <= ARGS
      ensures shown == Shows(pt)
    {
      var args := new Bytes[ARGS](_ => []);
      assert args[..] == Pad([], ARGS);
      Lexer.Lex(pt, args, SEP);
      Lexer.LexedFresh(pt, SEP, ARGS);
      hide Split;
      ghost var fields := Pad(Split(pt, SEP), ARGS);
      assert args[..] == fields && |fields| == ARGS;
      if args[0] == "0" {
        return Chat(args[2], args[1]);
      } else if args[0] == "1" || args[0] == "2" {
        var list: seq<Bytes> := [];
        for i := 2 to ARGS
          invariant list == args[..][2..i]
        {
          list := list + [args[i]];
        }
        assert args[..][2..ARGS] == args[..][2..];
        return if args[0] == "1" then Joined(args[1], list) else Left(args[1], list);
      } else if args[0] == "5" {
        return Command(args[1]);
      } else if args[0] == "6" {
        return DirectMessage(args[1]);
      }
      return Nothing;
    }
  }
}
