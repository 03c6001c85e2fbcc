/** The server's session machine on values: one record per connected client, and
    what each event makes of the whole server. */
module Session {
  import opened Bytes
  import opened Crypto
  import opened Credentials

  datatype AuthStatus = KeyReceived | Done | Failed | Undone

  // The id of a client that has not logged in yet.
  const UNNAMED: Bytes := "\U{96}"

  datatype Client = Client(sock: Socket, id: Bytes, op: bool, auth: AuthStatus, clock: nat)

  datatype Body = Help | Plugins | Msg
  datatype Command = Command(name: Bytes, body: Body)

  /** `out` is everything sent on each connection since it was accepted; a user
      without a stored password is an entry of the user file that lacks one. */
  datatype Server = Server(
    publicKey: Key,
    cmds: seq<Command>,
    clients: seq<Client>,
    keys: map<Socket, Key>,
    users: map<Bytes, Option<Bytes>>,
    out: map<Socket, seq<Message>>,
    running: bool)

  /** What one poll of a socket finds: nothing, a closed connection, or one message
      with the times (in microseconds) at which it is read and its handling ends. */
  datatype Input =
    | Quiet
    | Hangup
    | Received(m: Message, t0: nat, t1: nat)

  // ---- Frames -------------------------------------------------------------

  function Named(id: Bytes): seq<Bytes> {
    if id == UNNAMED then [] else [id]
  }

  function NamedAmong(ids: seq<Bytes>): seq<Bytes> {
    if ids == [] then [] else NamedAmong(ids[..|ids| - 1]) + Named(ids[|ids| - 1])
  }

  function Ids(clients: seq<Client>): (ids: seq<Bytes>)
    ensures |ids| == |clients|
  {
    seq(|clients|, i requires 0 <= i < |clients| => clients[i].id)
  }

  /** The ids of the logged-in clients, in array order. */
  function NamedIds(clients: seq<Client>): seq<Bytes> {
    NamedAmong(Ids(clients))
  }

  function JoinFrame(name: Bytes, clients: seq<Client>): Bytes {
    Join(["1", name] + NamedIds(clients), SEP)
  }

  function LeaveFrame(id: Bytes, clients: seq<Client>): Bytes {
    Join(["2", id] + NamedIds(clients), SEP)
  }

  function ChatFrame(text: Bytes, id: Bytes): Bytes {
    "0" + [SEP] + (text + [SEP] + id)
  }

  /** What the server puts on the wire for a frame: it sends C strings. */
  function Seal(frame: Bytes): Message {
    AesSealed(SERVER_KEY, CStr(frame))
  }

  function Direct(text: Bytes): Message {
    Seal("6" + [SEP] + text)
  }

  const BLANK_NOTICE: Bytes := "Stop sending empty shit."
  const NOT_SENT_NOTICE: Bytes := "Your previous message was not sent"

  // ---- Sending ------------------------------------------------------------

  function Deliver(out: map<Socket, seq<Message>>, to: set<Socket>, m: Message): (r: map<Socket, seq<Message>>)
    ensures r.Keys == out.Keys
  {
    map k | k in out :: if k in to then out[k] + [m] else out[k]
  }

  function Sent(s: Server, k: Socket): seq<Message> {
    if k in s.out then s.out[k] else []
  }

  function DoneSockets(clients: seq<Client>): set<Socket> {
    set c | c in clients && c.auth == Done :: c.sock
  }

  function SendTo(s: Server, k: Socket, m: Message): Server {
    s.(out := Deliver(s.out, {k}, m))
  }

  function Broadcast(s: Server, frame: Bytes, exclude: Socket): Server {
    s.(out := Deliver(s.out, DoneSockets(s.clients) - {exclude}, Seal(frame)))
  }

  // ---- Clients coming, leaving and being named ----------------------------

  function Accept(s: Server, k: Socket, t: nat): Server {
    s.(clients := s.clients + [Client(k, UNNAMED, false, Undone, t)],
       out := s.out[k := [KeyText(s.publicKey)]])
  }

  /** A vector with the element at position p erased. */
  function Without<T>(s: seq<T>, p: nat): (r: seq<T>)
    requires p < |s|
    ensures |r| == |s| - 1
  {
    s[..p] + s[p + 1..]
  }

  function Disconnect(s: Server, p: nat): Server
    requires p < |s.clients|
  {
    var c, rest := s.clients[p], Without(s.clients, p);
    Broadcast(s, LeaveFrame(c.id, rest), c.sock).(
      clients := rest,
      keys := if c.auth == Done then s.keys - {c.sock} else s.keys)
  }

  predicate WordChar(c: char) {
    'a' <= c <= 'z' || 'A' <= c <= 'Z' || '0' <= c <= '9' || c == '_'
  }

  predicate WordChars(name: Bytes) {
    forall i :: 0 <= i < |name| ==> WordChar(name[i])
  }

  predicate ValidName(name: Bytes) {
    3 <= |name| <= 16 && WordChars(name)
  }

  predicate NameFree(clients: seq<Client>, name: Bytes) {
    forall i :: 0 <= i < |clients| ==> clients[i].id != name
  }

  function Rename(s: Server, p: nat, name: Bytes): Server
    requires p < |s.clients|
  {
    var clients := s.clients[p := s.clients[p].(id := name)];
    Broadcast(s.(clients := clients), JoinFrame(name, clients), s.clients[p].sock)
  }

  function Nick(s: Server, p: nat, name: Bytes): Server
    requires p < |s.clients|
  {
    if NameFree(s.clients, name) && ValidName(name) then Rename(s, p, name) else Disconnect(s, p)
  }

  // ---- Login and key transfer ---------------------------------------------

  function SetAuth(s: Server, p: nat, auth: AuthStatus): Server
    requires p < |s.clients|
  {
    s.(clients := s.clients[p := s.clients[p].(auth := auth)])
  }

  /** Credentials are good when both parts are there, a known user presents the
      stored password, and the name can be taken. */
  predicate Admissible(s: Server, uname: Bytes, passwd: Bytes) {
    && uname != [] && passwd != []
    && (uname in s.users ==> s.users[uname] == Some(passwd))
    && NameFree(s.clients, uname) && ValidName(uname)
  }

  function Welcome(uname: Bytes): Bytes {
    "6" + [SEP] + ("Everybody welcome the new user " + uname)
  }

  function Register(s: Server, p: nat, uname: Bytes, passwd: Bytes): Server
    requires p < |s.clients|
  {
    Broadcast(s.(users := s.users[uname := Some(passwd)]), Welcome(uname), s.clients[p].sock)
  }

  function Admit(s: Server, p: nat, uname: Bytes, passwd: Bytes): Server
    requires p < |s.clients|
  {
    var named := Rename(s, p, uname);
    var known := if uname in s.users then named else Register(named, p, uname, passwd);
    SendTo(SetAuth(known, p, KeyReceived), s.clients[p].sock, KeyRequest)
  }

  function Login(s: Server, p: nat, credentials: Option<Bytes>): Server
    requires p < |s.clients|
  {
    if credentials.None? then Disconnect(s, p)
    else
      var uname, passwd := Field(credentials.value, 0), Field(credentials.value, 1);
      if Admissible(s, uname, passwd) then Admit(s, p, uname, passwd) else Disconnect(s, p)
  }

  /** A text that is no loadable key ends the process: nobody catches that exception.
      A stored key too small to seal for gets its client kicked. */
  function TransferKey(s: Server, p: nat, m: Message): Server
    requires p < |s.clients|
  {
    var k := s.clients[p].sock;
    if !Loads(m) then s.(running := false)
    else
      var keyed := s.(keys := Insert(s.keys, k, m.modulus));
      if RefusesServerKey(keyed.keys[k]) then Disconnect(keyed, p)
      else SetAuth(SendTo(keyed, k, RsaSealed(keyed.keys[k], SERVER_KEY)), p, Done)
  }

  // ---- Commands -----------------------------------------------------------

  const MAX_WORDS: nat := 512

  /** The argument vector of a command line: always 512 entries. */
  function Args(line: Bytes): (args: seq<Bytes>)
    ensures |args| >= MAX_WORDS
  {
    Pad(Split(line, ' '), MAX_WORDS)
  }

  function FindCommand(cmds: seq<Command>, name: Bytes): (r: Option<Command>)
    ensures r.Some? ==> r.value in cmds && r.value.name == name
    ensures r.None? ==> forall i :: 0 <= i < |cmds| ==> cmds[i].name != name
  {
    if cmds == [] then None
    else if cmds[0].name == name then Some(cmds[0])
    else FindCommand(cmds[1..], name)
  }

  /** Position of the first occurrence of this id, -1 when there is none. */
  function IndexOf(ids: seq<Bytes>, id: Bytes): (i: int)
    ensures -1 <= i < |ids|
    ensures i >= 0 ==> ids[i] == id
    ensures i < 0 <==> id !in ids
    ensures forall j :: 0 <= j < i ==> ids[j] != id
  {
    if ids == [] then -1
    else if ids[0] == id then 0
    else var i := IndexOf(ids[1..], id); if i < 0 then -1 else i + 1
  }

  /** Each word followed by a blank. */
  function Spaced(words: seq<Bytes>): Bytes {
    if words == [] then [] else Spaced(words[..|words| - 1]) + words[|words| - 1] + " "
  }

  function CommandList(cmds: seq<Command>): Bytes {
    if cmds == [] then []
    else CommandList(cmds[..|cmds| - 1]) + "/" + cmds[|cmds| - 1].name + " "
  }

  function MessageHeader(target: Bytes, sender: Bytes): Bytes {
    "[" + target + " -> " + sender + "]: "
  }

  function DirectText(target: Bytes, sender: Bytes, words: seq<Bytes>): Bytes {
    MessageHeader(target, sender) + Spaced(words)
  }

  /** What a command sends, and to whom; None when it sends nothing. */
  function Reply(s: Server, p: nat, body: Body, args: seq<Bytes>): Option<(Socket, Bytes)>
    requires p < |s.clients| && |args| >= 2
  {
    var c := s.clients[p];
    match body
    case Help =>
      Some((c.sock, if args[1] == [] then "Avail commands: " + CommandList(s.cmds)
                    else "Multiple args is not supported by the command: help"))
    case Plugins => Some((c.sock, "Plugins (0): "))
    case Msg =>
      if args[1] == UNNAMED then None
      else if args[1] == c.id then Some((c.sock, "You cannot send message to yourself"))
      else
        var i := IndexOf(Ids(s.clients), args[1]);
        if i < 0 then None
        else Some((s.clients[i].sock, DirectText(args[1], c.id, args[2..])))
  }

  function RunBody(s: Server, p: nat, body: Body, args: seq<Bytes>): Server
    requires p < |s.clients| && |args| >= 2
  {
    var reply := Reply(s, p, body, args);
    if reply.None? then s else SendTo(s, reply.value.0, Direct(reply.value.1))
  }

  function NotFound(line: Bytes): Bytes {
    "Command " + line + " was not found. Type /help to get help."
  }

  function Dispatch(s: Server, p: nat, line: Bytes): Server
    requires p < |s.clients|
  {
    var args := Args(line);
    var cmd := FindCommand(s.cmds, args[0]);
    if cmd.None? then SendTo(s, s.clients[p].sock, Direct(NotFound(line)))
    else RunBody(s, p, cmd.value.body, args)
  }

  // ---- Frames from a client that is Done ----------------------------------

  function Touch(s: Server, p: nat, t: nat): Server
    requires p < |s.clients|
  {
    s.(clients := s.clients[p := s.clients[p].(clock := t)])
  }

  predicate Blank(text: Bytes) {
    forall i :: 0 <= i < |text| ==> text[i] in " \t\n\U{B}\U{C}\r"
  }

  function Drop(s: Bytes, n: nat): Bytes {
    if n <= |s| then s[n..] else []
  }

  function Chat(s: Server, p: nat, text: Bytes, t: nat): Server
    requires p < |s.clients|
  {
    var c := s.clients[p];
    if Blank(CStr(text)) then Disconnect(SendTo(s, c.sock, Direct(BLANK_NOTICE)), p)
    else if c.id == UNNAMED then Disconnect(s, p)
    else Touch(Broadcast(s, CStr(ChatFrame(text, c.id)), c.sock), p, t)
  }

  const MAX_RAW_DATA: nat := 4096

  /** No separator before the first NUL, and not too long. */
  predicate Accepted(data: Bytes) {
    SEP !in CStr(data) && |data| < MAX_RAW_DATA
  }

  predicate Starts(data: Bytes, c: char) {
    data != [] && data[0] == c
  }

  function Frame(s: Server, p: nat, plain: Option<Bytes>, t: nat): Server
    requires p < |s.clients|
  {
    var c := s.clients[p];
    if plain.None? then SendTo(s, c.sock, Direct(NOT_SENT_NOTICE))
    else
      var data := plain.value;
      if !Accepted(data) then Disconnect(s, p)
      else if Starts(data, '0') then Chat(s, p, data[1..], t)
      else if Starts(data, '3') then Nick(s, p, Drop(data, 2))
      else if Starts(data, '4') then Touch(Broadcast(s, [], c.sock), p, t)
      else if Starts(data, '5') then Dispatch(s, p, data[1..])
      else Disconnect(s, p)
  }

  // ---- One poll -----------------------------------------------------------

  /** The spam test: at most 20 whole milliseconds since the clock was restarted. */
  predicate TooSoon(c: Client, t: nat) {
    (t - c.clock) / 1000 <= 20
  }

  function Poll(s: Server, p: nat, inp: Input): Server
    requires p < |s.clients|
  {
    var c := s.clients[p];
    match inp
    case Quiet => s
    case Hangup => Disconnect(s, p)
    case Received(m, t0, t1) =>
      match c.auth
      case Undone => Login(s, p, RsaOpen(s.publicKey, m))
      case KeyReceived => TransferKey(s, p, m)
      case Failed => Frame(s, p, AesOpen(SERVER_KEY, m), t1)
      case Done =>
        var restarted := Touch(s, p, t0);
        if TooSoon(c, t0) then Disconnect(restarted, p)
        else Frame(restarted, p, AesOpen(SERVER_KEY, m), t1)
  }

  /** The fixed-size buffers hold what a decrypted frame makes the server put in
      them: a chat frame and its terminator fit 256 bytes, a command line has at
      most 512 words. */
  predicate FrameFits(id: Bytes, plain: Option<Bytes>) {
    plain.Some? && Accepted(plain.value) ==>
      && (Starts(plain.value, '0') && !Blank(CStr(plain.value[1..])) && id != UNNAMED ==>
        |CStr(ChatFrame(plain.value[1..], id))| < 256)
      && (Starts(plain.value, '5') ==> |Split(plain.value[1..], ' ')| <= MAX_WORDS)
  }

  predicate FitsBuffers(s: Server, p: nat, inp: Input)
    requires p < |s.clients|
  {
    var c := s.clients[p];
    inp.Received? && (c.auth == Failed || (c.auth == Done && !TooSoon(c, inp.t0))) ==>
      FrameFits(c.id, AesOpen(SERVER_KEY, inp.m))
  }

  // ---- Runs ---------------------------------------------------------------

  /** The connection thread accepts, or the managing thread polls one position. */
  datatype Event = Accepting(sock: Socket, t: nat) | Polling(p: nat, inp: Input)

  predicate Live(s: Server, k: Socket) {
    exists i :: 0 <= i < |s.clients| && s.clients[i].sock == k
  }

  predicate Enabled(s: Server, e: Event) {
    && s.running
    && match e
       case Accepting(k, t) => !Live(s, k)
       case Polling(p, inp) =>
         && p < |s.clients|
         && (inp.Received? ==> inp.t0 <= inp.t1)
         && FitsBuffers(s, p, inp)
  }

  function Step(s: Server, e: Event): Server
    requires Enabled(s, e)
  {
    match e
    case Accepting(k, t) => Accept(s, k, t)
    case Polling(p, inp) => Poll(s, p, inp)
  }

  const BUILT_IN: seq<Command> := [Command("help", Help), Command("plugins", Plugins), Command("msg", Msg)]

  /** A started server: no clients, no keys, whatever the user file holds. */
  predicate Initial(s: Server) {
    s.cmds == BUILT_IN && s.clients == [] && s.keys == map[] && s.out == map[] && s.running
  }
}
