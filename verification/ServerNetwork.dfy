/** The server as the program keeps it: five parallel vectors, a key container, a
    user file and the sockets, refined method by method to the session machine. */
module ServerNetwork {
  import opened Bytes
  import opened Credentials
  import opened Crypto
  import opened Session
  import opened Invariants
  import E = Executor
  import Lexer
  import Schedule

  /** The record spread over position i of the five vectors. */
  function Zip(socks: seq<Socket>, ids: seq<Bytes>, ops: seq<bool>, auths: seq<AuthStatus>, clocks: seq<nat>)
    : (clients: seq<Client>)
    requires |socks| == |ids| == |ops| == |auths| == |clocks|
    ensures |clients| == |socks|
  {
    seq(|socks|, i requires 0 <= i < |socks| => Client(socks[i], ids[i], ops[i], auths[i], clocks[i]))
  }

  predicate Distinct(socks: seq<Socket>) {
    forall i, j :: 0 <= i < j < |socks| ==> socks[i] != socks[j]
  }

  predicate AllIn(socks: seq<Socket>, known: set<Socket>) {
    forall i :: 0 <= i < |socks| ==> socks[i] in known
  }

  lemma EraseDistinct(socks: seq<Socket>, p: nat)
    requires p < |socks|
    ensures Distinct(socks) ==> Distinct(Without(socks, p)) && socks[p] !in Without(socks, p)
    ensures forall known :: AllIn(socks, known) ==> AllIn(Without(socks, p), known)
  {
  }

  function DoneAt(socks: seq<Socket>, auths: seq<AuthStatus>): set<Socket>
    requires |socks| == |auths|
  {
    set i | 0 <= i < |socks| && auths[i] == Done :: socks[i]
  }

  lemma ZipErase(socks: seq<Socket>, ids: seq<Bytes>, ops: seq<bool>, auths: seq<AuthStatus>, clocks: seq<nat>, p: nat)
    requires |socks| == |ids| == |ops| == |auths| == |clocks| && p < |socks|
    ensures Zip(Without(socks, p), Without(ids, p), Without(ops, p), Without(auths, p), Without(clocks, p))
         == Without(Zip(socks, ids, ops, auths, clocks), p)
  {
  }

  lemma ZipDone(socks: seq<Socket>, ids: seq<Bytes>, ops: seq<bool>, auths: seq<AuthStatus>, clocks: seq<nat>)
    requires |socks| == |ids| == |ops| == |auths| == |clocks|
    ensures DoneSockets(Zip(socks, ids, ops, auths, clocks)) == DoneAt(socks, auths)
  {
    var clients := Zip(socks, ids, ops, auths, clocks);
    forall k | k in DoneAt(socks, auths)
      ensures k in DoneSockets(clients)
    {
      var i :| 0 <= i < |socks| && auths[i] == Done && socks[i] == k;
      assert clients[i] in clients;
    }
  }

  class ServerNetwork {
    var clientArray: seq<Socket>
    var clientIds: seq<Bytes>
    var clientOps: seq<bool>
    var clientIntervals: seq<nat>
    var clientAuths: seq<AuthStatus>
    var users: map<Bytes, Option<Bytes>>
    var outbox: map<Socket, seq<Message>>
    var running: bool
    const crypt: Cryptography
    const executor: E.Executor

    ghost predicate Aligned()
      reads this
    {
      |clientArray| == |clientIds| == |clientOps| == |clientAuths| == |clientIntervals|
    }

    ghost function Clients(): seq<Client>
      requires Aligned()
      reads this
    {
      Zip(clientArray, clientIds, clientOps, clientAuths, clientIntervals)
    }

    ghost function View(): Server
      requires Aligned()
      reads this, crypt, executor
    {
      Server(crypt.publicKey, executor.cmds, Clients(), crypt.keys, users, outbox, running)
    }

    /** The vectors line up, and live connections are distinct and have an outbox. */
    ghost predicate Rep()
      reads this
    {
      Aligned() && Distinct(clientArray) && AllIn(clientArray, outbox.Keys)
    }

    ghost predicate Valid()
      reads this, crypt, executor
    {
      Rep() && Inv(View())
    }

    /** A started server with its three commands registered. */
    constructor (publicKey: Key, users: map<Bytes, Option<Bytes>>)
      ensures Valid() && fresh(crypt) && fresh(executor)
      ensures Initial(View()) && View().publicKey == publicKey && View().users == users
    {
      clientArray, clientIds, clientOps, clientAuths, clientIntervals := [], [], [], [], [];
      this.users, outbox, running := users, map[], true;
      var keys := new Cryptography(publicKey);
      var commands := new E.Executor();
      commands.PushNewCommand(Command("help", Help));
      commands.PushNewCommand(Command("plugins", Plugins));
      commands.PushNewCommand(Command("msg", Msg));
      crypt, executor := keys, commands;
    }

    method Send(data: Bytes, to: Socket)
      modifies this`outbox
      ensures outbox == Deliver(old(outbox), {to}, Seal(data))
    {
      if to in outbox {
        outbox := outbox[to := outbox[to] + [Seal(data)]];
      }
    }

    method SendUnencrypted(m: Message, to: Socket)
      modifies this`outbox
      ensures outbox == Deliver(old(outbox), {to}, m)
    {
      if to in outbox {
        outbox := outbox[to := outbox[to] + [m]];
      }
    }

    method SendString(str: Bytes, client: Socket)
      modifies this`outbox
      ensures outbox == Deliver(old(outbox), {client}, Direct(str))
    {
      Send("6" + [SEP] + str, client);
    }

    static lemma DoneNext(socks: seq<Socket>, auths: seq<AuthStatus>, n: nat)
      requires |socks| == |auths| && n < |socks| && Distinct(socks)
      ensures DoneAt(socks[..n + 1], auths[..n + 1])
           == DoneAt(socks[..n], auths[..n]) + if auths[n] == Done then {socks[n]} else {}
      ensures socks[n] !in DoneAt(socks[..n], auths[..n])
    {
      forall k | k in DoneAt(socks[..n + 1], auths[..n + 1])
        ensures k in DoneAt(socks[..n], auths[..n]) || (auths[n] == Done && k == socks[n])
      {
        var i :| 0 <= i < n + 1 && auths[..n + 1][i] == Done && socks[..n + 1][i] == k;
        if i < n {
          assert auths[..n][i] == Done && socks[..n][i] == k;
        }
      }
      forall k | k in DoneAt(socks[..n], auths[..n])
        ensures k in DoneAt(socks[..n + 1], auths[..n + 1])
      {
        var i :| 0 <= i < n && auths[..n][i] == Done && socks[..n][i] == k;
        assert auths[..n + 1][i] == Done && socks[..n + 1][i] == k;
      }
      if auths[n] == Done {
        assert auths[..n + 1][n] == Done && socks[..n + 1][n] == socks[n];
      }
    }

    method Broadcast(data: Bytes, exclude: Socket)
      requires |clientArray| == |clientAuths| && Distinct(clientArray)
      modifies this`outbox
      ensures outbox == Deliver(old(outbox), DoneAt(clientArray, clientAuths) - {exclude}, Seal(data))
    {
      for index := 0 to |clientArray|
        invariant outbox == Deliver(old(outbox), DoneAt(clientArray[..index], clientAuths[..index]) - {exclude}, Seal(data))
      {
        var client := clientArray[index];
        DoneNext(clientArray, clientAuths, index);
        if client != exclude {
          if clientAuths[index] == Done {
            Send(data, client);
          }
        }
      }
      assert clientArray[..|clientArray|] == clientArray && clientAuths[..|clientArray|] == clientAuths;
    }

    method BroadcastString(str: Bytes, exclude: Socket)
      requires Rep()
      modifies this`outbox
      ensures Rep() && View() == Session.Broadcast(old(View()), "6" + [SEP] + str, exclude)
    {
      hide Seal, DoneSockets, DoneAt, Distinct, AllIn;
      ZipDone(clientArray, clientIds, clientOps, clientAuths, clientIntervals);
      Broadcast("6" + [SEP] + str, exclude);
    }

    /** One accepted connection. */
    method ConnectClient(newClient: Socket, t: nat)
      requires Rep() && newClient !in clientArray
      modifies this
      ensures Rep() && View() == Accept(old(View()), newClient, t)
    {
      clientArray := clientArray + [newClient];
      clientIds := clientIds + [UNNAMED];
      clientOps := clientOps + [false];
      clientAuths := clientAuths + [Undone];
      clientIntervals := clientIntervals + [t];
      outbox := outbox[newClient := []];
      SendUnencrypted(KeyText(crypt.publicKey), newClient);
      assert Clients() == old(Clients()) + [Client(newClient, UNNAMED, false, Undone, t)];
      assert [] + [KeyText(crypt.publicKey)] == [KeyText(crypt.publicKey)];
      assert outbox == old(outbox)[newClient := [KeyText(crypt.publicKey)]];
    }

    static lemma RosterStart(fields: seq<Bytes>, ids: seq<Bytes>)
      ensures fields + NamedAmong(ids[..0]) == fields
    {
    }

    static lemma RosterNext(fields: seq<Bytes>, ids: seq<Bytes>, j: nat)
      requires fields != [] && j < |ids|
      ensures Join(fields + NamedAmong(ids[..j + 1]), SEP)
           == Join(fields + NamedAmong(ids[..j]), SEP) + if ids[j] == UNNAMED then [] else [SEP] + ids[j]
    {
      assert ids[..j + 1][..j] == ids[..j];
      var before := fields + NamedAmong(ids[..j]);
      if ids[j] == UNNAMED {
        assert fields + NamedAmong(ids[..j + 1]) == before;
      } else {
        JoinConcat(before, [ids[j]], SEP);
        assert fields + NamedAmong(ids[..j + 1]) == before + [ids[j]];
      }
    }

    /** Builds `start`, then each logged-in id behind a separator. */
    method AppendRoster(start: Bytes, ghost fields: seq<Bytes>) returns (frame: Bytes)
      requires fields != [] && start == Join(fields, SEP)
      ensures frame == Join(fields + NamedAmong(clientIds), SEP)
    {
      hide Join, NamedAmong;
      frame := start;
      RosterStart(fields, clientIds);
      for j := 0 to |clientIds|
        invariant frame == Join(fields + NamedAmong(clientIds[..j]), SEP)
      {
        var x := clientIds[j];
        RosterNext(fields, clientIds, j);
        if x != UNNAMED {
          frame := frame + [SEP] + x;
        }
      }
      assert clientIds[..|clientIds|] == clientIds;
    }

    static lemma TwoFields(a: Bytes, b: Bytes)
      ensures a + [SEP] + b == Join([a, b], SEP)
    {
      JoinConcat([a], [b], SEP);
      assert [a] + [b] == [a, b];
    }

    /** Takes the id out of its vector and tells the others who is left. */
    method AnnounceLeave(socket: Socket, position: nat)
      requires Rep() && position < |clientArray| && socket == clientArray[position]
      modifies this`clientIds, this`outbox
      ensures clientIds == Without(old(clientIds), position)
      ensures outbox == Deliver(old(outbox), DoneSockets(old(Clients())) - {socket},
                                Seal(LeaveFrame(old(clientIds[position]), Without(old(Clients()), position))))
    {
      hide Seal, Join, DoneSockets, DoneAt, Distinct, AllIn, Without;
      ghost var start, id := Clients(), clientIds[position];
      ZipDone(clientArray, clientIds, clientOps, clientAuths, clientIntervals);
      ZipErase(clientArray, clientIds, clientOps, clientAuths, clientIntervals, position);
      var broadcastMsg := "2" + [SEP] + clientIds[position];
      TwoFields("2", id);
      clientIds := Without(clientIds, position);
      assert Ids(Without(start, position)) == clientIds;
      broadcastMsg := AppendRoster(broadcastMsg, ["2", id]);
      Broadcast(broadcastMsg, socket);
    }

    method DisconnectClient(socket: Socket, position: nat)
      requires Rep() && position < |clientArray| && socket == clientArray[position]
      modifies this, crypt
      ensures Rep() && View() == Disconnect(old(View()), position)
      ensures socket !in clientArray
    {
      hide Seal, LeaveFrame, DoneSockets, Distinct, AllIn, Without;
      ZipErase(clientArray, clientIds, clientOps, clientAuths, clientIntervals, position);
      EraseDistinct(clientArray, position);
      AnnounceLeave(socket, position);
      if clientAuths[position] == Done {
        crypt.RemoveClientKey(socket);
      }
      clientArray := Without(clientArray, position);
      clientOps := Without(clientOps, position);
      clientAuths := Without(clientAuths, position);
      clientIntervals := Without(clientIntervals, position);
    }

    static lemma NameNotBlank(name: Bytes)
      requires ValidName(name)
      ensures !Blank(name)
    {
      assert WordChar(name[0]);
    }

    method TakeName(name: Bytes, client: Socket, index: nat)
      requires Rep() && index < |clientArray| && client == clientArray[index]
      modifies this`clientIds, this`outbox
      ensures Rep() && View() == Rename(old(View()), index, name)
    {
      hide Seal, Join, DoneSockets, DoneAt, Distinct, AllIn;
      clientIds := clientIds[index := name];
      assert Clients() == old(Clients())[index := old(Clients())[index].(id := name)];
      ZipDone(clientArray, clientIds, clientOps, clientAuths, clientIntervals);
      TwoFields("1", name);
      var joinMessage := AppendRoster("1" + [SEP] + name, ["1", name]);
      Broadcast(joinMessage, client);
      assert Clients() == old(Clients())[index := old(Clients())[index].(id := name)];
      assert Ids(Clients()) == clientIds;
    }

    /** Gives the client a name, or disconnects it. */
    method Nick(receivedData: Bytes, client: Socket, index: nat) returns (ok: bool)
      requires Rep() && index < |clientArray| && client == clientArray[index]
      modifies this, crypt
      ensures Rep() && View() == Session.Nick(old(View()), index, receivedData)
      ensures ok <==> NameFree(old(Clients()), receivedData) && ValidName(receivedData)
      ensures ok <==> client in clientArray
      ensures ok ==> clientArray == old(clientArray)
    {
      for i := 0 to |clientIds|
        invariant unchanged(this) && unchanged(crypt)
        invariant forall j :: 0 <= j < i ==> clientIds[j] != receivedData
      {
        if receivedData == clientIds[i] {
          assert Clients()[i].id == receivedData;
          DisconnectClient(client, index);
          return false;
        }
      }
      assert NameFree(Clients(), receivedData);
      if |receivedData| < 3 || |receivedData| > 16 || !WordChars(receivedData) {
        DisconnectClient(client, index);
        return false;
      }
      // The program also tests for a blank name here; none passes the tests above.
      NameNotBlank(receivedData);
      if Blank(receivedData) {
        assert false;
      }
      TakeName(receivedData, client, index);
      return true;
    }

    /** Stores the password and tells the others. */
    method RegisterUser(uname: Bytes, passwd: Bytes, client: Socket, index: nat)
      requires Rep() && index < |clientArray| && client == clientArray[index]
      modifies this`users, this`outbox
      ensures Rep() && View() == Register(old(View()), index, uname, passwd)
    {
      users := users[uname := Some(passwd)];
      BroadcastString("Everybody welcome the new user " + uname, client);
    }

    method AskForKey(client: Socket, index: nat)
      requires Rep() && index < |clientArray| && client == clientArray[index]
      modifies this`clientAuths, this`outbox
      ensures Rep() && View() == SendTo(SetAuth(old(View()), index, KeyReceived), client, KeyRequest)
    {
      clientAuths := clientAuths[index := KeyReceived];
      assert Clients() == old(Clients())[index := old(Clients())[index].(auth := KeyReceived)];
      SendUnencrypted(KeyRequest, client);
    }

    /** A client that has not logged in sends sealed credentials. */
    method Authenticate(client: Socket, index: nat, m: Message)
      requires Rep() && index < |clientArray| && client == clientArray[index]
      modifies this, crypt
      ensures Rep() && View() == Login(old(View()), index, RsaOpen(crypt.publicKey, m))
    {
      hide Rename, Disconnect, Distinct, AllIn, NameFree, ValidName, Seal, DoneSockets;
      var v := RsaOpen(crypt.publicKey, m);
      if v.None? {
        DisconnectClient(client, index);
        return;
      }
      var uname, passwd := ScanCredentials(v.value);
      if uname == [] || passwd == [] {
        DisconnectClient(client, index);
        return;
      }
      if uname in users && users[uname] != Some(passwd) {
        DisconnectClient(client, index);
        return;
      }
      var ok := Nick(uname, client, index);
      if !ok {
        return;
      }
      RenameShape(old(View()), index, uname);
      if uname !in users {
        RegisterUser(uname, passwd, client, index);
      }
      AskForKey(client, index);
    }

    /** A client that has logged in sends its public key. */
    method ReceiveKey(client: Socket, index: nat, m: Message)
      requires Rep() && index < |clientArray| && client == clientArray[index]
      modifies this, crypt
      ensures Rep() && View() == TransferKey(old(View()), index, m)
    {
      hide Disconnect, Distinct, AllIn, Refuses;
      if !Loads(m) {
        running := false;
        return;
      }
      crypt.PushNewClientKey(client, m.modulus);
      var serverKey := crypt.RsaEncrypt(client, SERVER_KEY);
      if serverKey.None? {
        DisconnectClient(client, index);
        return;
      }
      assert serverKey.value == RsaSealed(crypt.keys[client], SERVER_KEY) by {
        assert RsaOpen(crypt.keys[client], serverKey.value) == Some(SERVER_KEY);
      }
      SendUnencrypted(serverKey.value, client);
      clientAuths := clientAuths[index := Done];
      assert Clients() == old(Clients())[index := old(Clients())[index].(auth := Done)];
    }

    method GetIndex(k: Bytes) returns (index: int)
      ensures index == IndexOf(clientIds, k)
    {
      for i := 0 to |clientIds|
        invariant k !in clientIds[..i]
      {
        if clientIds[i] == k {
          return i;
        }
        assert clientIds[..i + 1] == clientIds[..i] + [clientIds[i]];
      }
      assert clientIds[..|clientIds|] == clientIds;
      return -1;
    }

    static lemma SpacedNext(args: seq<Bytes>, i: nat)
      requires i < |args|
      ensures i > 1 ==> Spaced(args[2..i + 1]) == Spaced(args[2..i]) + args[i] + " "
      ensures i == 1 ==> Spaced(args[2..2]) == []
    {
      if i > 1 {
        assert args[2..i + 1][..i - 2] == args[2..i];
      }
    }

    static method AppendWords(header: Bytes, args: seq<Bytes>) returns (toSend: Bytes)
      requires |args| >= 2
      ensures toSend == header + Spaced(args[2..])
    {
      hide Spaced;
      toSend := header;
      for i := 0 to |args|
        invariant toSend == header + if i < 2 then [] else Spaced(args[2..i])
      {
        SpacedNext(args, i);
        if i > 1 {
          toSend := toSend + args[i] + " ";
        }
      }
      assert args[2..|args|] == args[2..];
    }

    /** The `msg` command. */
    method SendMessage(sock: Socket, index: nat, args: seq<Bytes>)
      requires Rep() && index < |clientArray| && sock == clientArray[index] && |args| >= 2
      requires NamesOk(Clients())
      modifies this`outbox
      ensures Rep() && View() == RunBody(old(View()), index, Msg, args)
    {
      hide Direct, Distinct, AllIn;
      assert Ids(Clients()) == clientIds;
      if args[1] == UNNAMED {
        return;
      }
      if args[1] == clientIds[index] {
        SendString("You cannot send message to yourself", sock);
        return;
      }
      for i := 0 to |clientIds|
        invariant outbox == (if args[1] !in clientIds[..i] then old(outbox)
                             else Deliver(old(outbox), {clientArray[IndexOf(clientIds, args[1])]},
                                          Direct(DirectText(args[1], clientIds[index], args[2..]))))
      {
        var x := clientIds[i];
        assert clientIds[..i + 1] == clientIds[..i] + [x];
        if args[1] == x {
          assert forall j :: 0 <= j < i ==> Clients()[j].id != Clients()[i].id;
          var toSend := "[" + x + " -> " + clientIds[index] + "]: ";
          toSend := AppendWords(toSend, args);
          var at := GetIndex(x);
          SendString(toSend, clientArray[at]);
        }
      }
      assert clientIds[..|clientIds|] == clientIds;
    }

    /** The bodies of the registered commands. */
    method Execute(body: Body, sock: Socket, index: nat, args: seq<Bytes>)
      requires Rep() && index < |clientArray| && sock == clientArray[index] && |args| >= 2
      requires NamesOk(Clients())
      modifies this`outbox
      ensures Rep() && View() == RunBody(old(View()), index, body, args)
    {
      hide Direct, Distinct, AllIn;
      assert Ids(Clients()) == clientIds;
      match body
      case Help =>
        var toSend: Bytes;
        if args[1] == [] {
          toSend := "Avail commands: ";
          for i := 0 to |executor.cmds|
            invariant toSend == "Avail commands: " + CommandList(executor.cmds[..i])
            invariant unchanged(this)
          {
            assert executor.cmds[..i + 1][..i] == executor.cmds[..i];
            toSend := toSend + "/" + executor.cmds[i].name + " ";
          }
          assert executor.cmds[..|executor.cmds|] == executor.cmds;
        } else {
          toSend := "Multiple args is not supported by the command: help";
        }
        SendString(toSend, sock);
      case Plugins =>
        SendString("Plugins (0): ", sock);
      case Msg =>
        SendMessage(sock, index, args);
    }

    /** The argument vector of a command line. */
    static method LexWords(e: Bytes) returns (v: seq<Bytes>)
      requires |Split(e, ' ')| <= MAX_WORDS
      ensures v == Args(e) && |v| == MAX_WORDS
    {
      var command := new Bytes[MAX_WORDS](_ => []);
      assert command[..] == Pad([], MAX_WORDS);
      Lexer.Lex(e, command, ' ');
      Lexer.LexedFresh(e, ' ', MAX_WORDS);
      v := command[..];
    }

    /** With distinct names at most one registered command answers to a word. */
    static lemma UniqueCommand(cmds: seq<Command>, i: nat)
      requires DistinctCommands(cmds) && i < |cmds|
      ensures FindCommand(cmds, cmds[i].name) == Some(cmds[i])
      ensures forall j :: 0 <= j < |cmds| && j != i ==> cmds[j].name != cmds[i].name
    {
    }

    /** Runs the command a line names. */
    method Iterate(e: Bytes, sock: Socket, index: nat)
      requires Rep() && index < |clientArray| && sock == clientArray[index]
      requires NamesOk(Clients()) && DistinctCommands(executor.cmds)
      requires |Split(e, ' ')| <= MAX_WORDS
      modifies this`outbox
      ensures Rep() && View() == Dispatch(old(View()), index, e)
    {
      hide Args, FindCommand, RunBody, Direct, Distinct, AllIn, NamesOk, DistinctCommands;
      var executed := false;
      var v := LexWords(e);
      var cmds := executor.cmds;
      for i := 0 to |cmds|
        invariant Rep()
        invariant !executed ==> outbox == old(outbox) && forall j :: 0 <= j < i ==> cmds[j].name != v[0]
        invariant executed ==> View() == Dispatch(old(View()), index, e)
        invariant executed ==> exists j :: 0 <= j < i && cmds[j].name == v[0]
      {
        if v[0] == cmds[i].name {
          UniqueCommand(cmds, i);
          assert !executed;
          Execute(cmds[i].body, sock, index, v);
          executed := true;
        }
      }
      if !executed {
        SendString("Command " + e + " was not found. Type /help to get help.", sock);
      }
    }

    /** Prepares a chat frame, or disconnects the sender. */
    method HandleSend(receivedData: Bytes, client: Socket, index: nat) returns (ok: bool, sending: Bytes)
      requires Rep() && index < |clientArray| && client == clientArray[index]
      modifies this, crypt
      ensures Rep()
      ensures ok <==> !Blank(CStr(receivedData)) && old(clientIds[index]) != UNNAMED
      ensures ok ==> unchanged(this) && unchanged(crypt) && sending == ChatFrame(receivedData, clientIds[index])
      ensures !ok ==> forall t :: View() == Chat(old(View()), index, receivedData, t)
    {
      hide Disconnect, Direct, Distinct, AllIn, Blank;
      if Blank(CStr(receivedData)) {
        SendString(BLANK_NOTICE, client);
        DisconnectClient(client, index);
        return false, [];
      }
      if clientIds[index] != UNNAMED {
        sending := "0" + [SEP] + (receivedData + [SEP] + clientIds[index]);
      } else {
        DisconnectClient(client, index);
        return false, [];
      }
      return true, sending;
    }

    method RestartClock(index: nat, t: nat)
      requires Rep() && index < |clientArray|
      modifies this`clientIntervals
      ensures Rep() && View() == Touch(old(View()), index, t)
    {
      clientIntervals := clientIntervals[index := t];
      assert Clients() == old(Clients())[index := old(Clients())[index].(clock := t)];
    }

    /** Tells everyone else and restarts the sender's clock. */
    method Publish(data: Bytes, client: Socket, index: nat, t: nat)
      requires Rep() && index < |clientArray| && client == clientArray[index]
      modifies this`outbox, this`clientIntervals
      ensures Rep() && View() == Touch(Session.Broadcast(old(View()), data, client), index, t)
    {
      hide Seal, DoneSockets, DoneAt, Distinct, AllIn;
      ZipDone(clientArray, clientIds, clientOps, clientAuths, clientIntervals);
      Broadcast(data, client);
      RestartClock(index, t);
    }

    /** A message from a client whose session key is in place. */
    method ReceiveFrame(client: Socket, index: nat, m: Message, t: nat)
      requires Rep() && index < |clientArray| && client == clientArray[index]
      requires NamesOk(Clients()) && DistinctCommands(executor.cmds)
      requires FrameFits(clientIds[index], AesOpen(SERVER_KEY, m))
      modifies this, crypt
      ensures Rep() && View() == Frame(old(View()), index, AesOpen(SERVER_KEY, m), t)
    {
      hide Disconnect, Direct, Distinct, AllIn, NamesOk, Session.Nick, Dispatch, Session.Broadcast;
      var x := AesOpen(SERVER_KEY, m);
      if x.None? {
        SendString(NOT_SENT_NOTICE, client);
        return;
      }
      var sentData := x.value;
      if SEP in CStr(sentData) {
        DisconnectClient(client, index);
        return;
      }
      if |sentData| >= MAX_RAW_DATA {
        DisconnectClient(client, index);
        return;
      }
      var sendingString: Bytes := [];
      if Starts(sentData, '0') {
        var ok;
        ok, sendingString := HandleSend(sentData[1..], client, index);
        if !ok {
          return;
        }
      } else if Starts(sentData, '3') {
        var _ := Nick(Drop(sentData, 2), client, index);
        return;
      } else if Starts(sentData, '4') {
        // a denied request falls through to the broadcast below
      } else if Starts(sentData, '5') {
        Iterate(sentData[1..], client, index);
        return;
      } else {
        DisconnectClient(client, index);
        return;
      }
      var charArray := CStr(sendingString);
      assert |charArray| < 256;
      Publish(charArray, client, index, t);
    }

    /** One poll of the socket at this position. */
    method Receive(client: Socket, index: nat, inp: Input)
      requires Valid() && index < |clientArray| && client == clientArray[index]
      requires FitsBuffers(View(), index, inp)
      modifies this, crypt
      ensures Valid() && View() == Poll(old(View()), index, inp)
    {
      hide Disconnect, Frame, Login, TransferKey, Distinct, AllIn, FrameFits;
      PollKeepsInv(View(), index, inp);
      match inp
      case Hangup =>
        DisconnectClient(client, index);
      case Quiet =>
      case Received(m, t0, t1) =>
        if clientAuths[index] == Done {
          var elapsed := t0 - clientIntervals[index];
          RestartClock(index, t0);
          if elapsed / 1000 <= 20 {
            DisconnectClient(client, index);
            return;
          }
        }
        if clientAuths[index] == Undone {
          Authenticate(client, index, m);
          return;
        } else if clientAuths[index] == KeyReceived {
          ReceiveKey(client, index, m);
          return;
        }
        ReceiveFrame(client, index, m, t1);
    }

    /** One pass over the clients; inputs[n] is what the n-th poll finds. */
    method ManagePass(inputs: seq<Input>)
      requires Valid() && |clientArray| <= |inputs| && Schedule.PassFits(View(), 0, inputs)
      modifies this, crypt
      ensures Valid() && View() == Schedule.Pass(old(View()), 0, inputs)
      ensures var events := Schedule.Polls(0, |Schedule.Visits(old(View()), 0, inputs)|, inputs);
        && Legal(old(View()), events) && View() == Run(old(View()), events)
        && (running ==> |events| >= |clientArray|)
    {
      hide Poll, FitsBuffers, Inv;
      Schedule.PassIsRun(View(), 0, inputs);
      var index := 0;
      while index < |clientArray| && running
        invariant Valid() && |clientArray| <= |inputs|
        invariant Schedule.PassFits(View(), index, inputs)
        invariant Schedule.Pass(View(), index, inputs) == Schedule.Pass(old(View()), 0, inputs)
        decreases |clientArray| - index
      {
        PollLocal(View(), index, inputs[index]);
        Receive(clientArray[index], index, inputs[index]);
        index := index + 1;
      }
    }
  }
}
