/** Passwords, public keys and the rate limit over whole runs. */
module Accounts {
  import opened Bytes
  import opened Credentials
  import opened Crypto
  import opened Session
  import opened Invariants

  // ---- Password store -----------------------------------------------------

  /** Client p stays on and becomes KeyReceived under the name and password its
      message opened to. */
  predicate LogsIn(s: Server, p: nat, inp: Input)
    requires p < |s.clients|
  {
    && inp.Received? && s.clients[p].auth == Undone
    && var text := RsaOpen(s.publicKey, inp.m);
       text.Some? && Admissible(s, Field(text.value, 0), Field(text.value, 1))
  }

  function Presented(s: Server, inp: Input): (Bytes, Bytes) {
    if !inp.Received? then ([], [])
    else
      var text := RsaOpen(s.publicKey, inp.m);
      if text.None? then ([], []) else (Field(text.value, 0), Field(text.value, 1))
  }

  lemma LoginStores(s: Server, p: nat, inp: Input)
    requires p < |s.clients|
    ensures var s', login := Poll(s, p, inp), Presented(s, inp);
      if LogsIn(s, p, inp) then
        && |s'.clients| == |s.clients| && s'.clients[p].auth == KeyReceived && s'.clients[p].id == login.0
        && s'.users == s.users[login.0 := Some(login.1)]
        && (login.0 in s.users ==> s.users[login.0] == Some(login.1))
        && ValidName(login.0) && NameFree(s.clients, login.0) && login.1 != []
      else
        && s'.users == s.users
        && (s.clients[p].auth == Undone && |s'.clients| == |s.clients| ==> s'.clients[p].auth == Undone)
        && (s.clients[p].auth == Undone && inp.Received? ==> s'.clients == Without(s.clients, p))
  {
    hide Field, ValidName, NameFree, Disconnect, Frame, TooSoon, Admit;
    DisconnectSteady(s, p, 0);
    AdmitShape(s, p, Presented(s, inp).0, Presented(s, inp).1);
    if s.clients[p].auth == Done && inp.Received? { DisconnectSteady(Touch(s, p, inp.t0), p, 0); }
    if inp.Received? && s.clients[p].auth == KeyReceived && Loads(inp.m) {
      DisconnectSteady(s.(keys := Insert(s.keys, s.clients[p].sock, inp.m.modulus)), p, 0);
    }
    if inp.Received? && s.clients[p].auth in {Done, Failed} {
      FrameSteady(if s.clients[p].auth == Done then Touch(s, p, inp.t0) else s, p, AesOpen(SERVER_KEY, inp.m), inp.t1);
    }
    if LogsIn(s, p, inp) {
      var u := Presented(s, inp).0;
      assert u in s.users ==> s.users[u := s.users[u]] == s.users;
    }
  }

  /** A name nobody online has, of 3 to 16 letters, digits and underscores. */
  predicate Nameable(s: Server, name: Bytes) {
    && (forall i :: 0 <= i < |s.clients| ==> s.clients[i].id != name)
    && 3 <= |name| <= 16
    && forall i :: 0 <= i < |name| ==>
      'a' <= name[i] <= 'z' || 'A' <= name[i] <= 'Z' || '0' <= name[i] <= '9' || name[i] == '_'
  }

  /** A client that has not logged in leaves that state exactly by presenting a name that
      will do and a password, neither empty, the password being the one on file if the
      name is on file; it is then on file. Any other message gets the client removed,
      and no other poll stores anything. */
  lemma PollUsers(s: Server, p: nat, inp: Input)
    requires p < |s.clients|
    ensures var s', c, uname, passwd := Poll(s, p, inp), s.clients[p], Presented(s, inp).0, Presented(s, inp).1;
      if && c.auth == Undone && uname != [] && passwd != []
         && (uname in s.users ==> s.users[uname] == Some(passwd))
         && Nameable(s, uname)
      then
        && |s'.clients| == |s.clients| && s'.clients[p].auth == KeyReceived && s'.clients[p].id == uname
        && s'.users == s.users[uname := Some(passwd)]
      else
        && s'.users == s.users
        && (c.auth == Undone && inp.Received? ==> s'.clients == Without(s.clients, p))
        && (c.auth == Undone && inp.Quiet? ==> s' == s)
  {
    LoginStores(s, p, inp);
    hide Field, Login, Frame, TransferKey, Disconnect;
  }

  /** Who each logged-in connection said it was. */
  function LoginStep(s: Server, e: Event, login: map<Socket, (Bytes, Bytes)>): map<Socket, (Bytes, Bytes)>
    requires Enabled(s, e)
  {
    if e.Polling? && LogsIn(s, e.p, e.inp) then login[s.clients[e.p].sock := Presented(s, e.inp)] else login
  }

  function RunLogins(s: Server, run: seq<Event>, login: map<Socket, (Bytes, Bytes)>): map<Socket, (Bytes, Bytes)>
    requires Legal(s, run)
    decreases |run|
  {
    if run == [] then login else RunLogins(Step(s, run[0]), run[1..], LoginStep(s, run[0], login))
  }

  /** Every client past Undone presented a name with the password stored for it. */
  predicate Authenticated(s: Server, login: map<Socket, (Bytes, Bytes)>) {
    forall i :: 0 <= i < |s.clients| && s.clients[i].auth != Undone ==>
      var k := s.clients[i].sock;
      k in login && login[k].0 in s.users && s.users[login[k].0] == Some(login[k].1)
  }

  /** Stored passwords never change, and every name added is a valid name with a
      password that is not empty. */
  predicate Extends(users: map<Bytes, Option<Bytes>>, users': map<Bytes, Option<Bytes>>) {
    && (forall u :: u in users ==> u in users' && users'[u] == users[u])
    && (forall u :: u in users' && u !in users ==> ValidName(u) && users'[u].Some? && users'[u] != Some([]))
  }

  lemma StepUsers(s: Server, e: Event, login: map<Socket, (Bytes, Bytes)>)
    requires Inv(s) && Enabled(s, e) && Authenticated(s, login)
    ensures Extends(s.users, Step(s, e).users)
    ensures Authenticated(Step(s, e), LoginStep(s, e, login))
  {
    hide Poll, ValidName, LogsIn, Presented, NamesOk, NameFree;
    if e.Polling? {
      var s', login' := Step(s, e), LoginStep(s, e, login);
      PollLocal(s, e.p, e.inp);
      LoginStores(s, e.p, e.inp);
      forall i | 0 <= i < |s'.clients| && s'.clients[i].auth != Undone
        ensures var k := s'.clients[i].sock;
          k in login' && login'[k].0 in s'.users && s'.users[login'[k].0] == Some(login'[k].1)
      {
        if |s'.clients| == |s.clients| {
          assert i == e.p || s'.clients[i] == s.clients[i];
        } else {
          assert s'.clients[i] == s.clients[if i < e.p then i else i + 1];
        }
      }
    }
  }

  /** Over every run passwords stay as stored, names are stored at most once, only valid
      ones and only with passwords that are not empty, and every client past Undone is on record with the
      password it presented. */
  lemma {:induction false} PasswordsOverRun(s: Server, run: seq<Event>, login: map<Socket, (Bytes, Bytes)>)
    requires Inv(s) && Legal(s, run) && Authenticated(s, login)
    ensures Extends(s.users, Run(s, run).users)
    ensures Authenticated(Run(s, run), RunLogins(s, run, login))
    decreases |run|
  {
    hide Step, Inv, Authenticated, ValidName, LoginStep, Enabled;
    if run != [] {
      StepKeepsInv(s, run[0]);
      StepUsers(s, run[0], login);
      PasswordsOverRun(Step(s, run[0]), run[1..], LoginStep(s, run[0], login));
    }
  }

  // ---- Rate limit ---------------------------------------------------------

  /** Client k sends a frame at this event and passes the spam test. */
  predicate Passes(s: Server, e: Event, k: Socket)
    requires Enabled(s, e)
  {
    && e.Polling? && e.inp.Received?
    && var c := s.clients[e.p];
       c.sock == k && c.auth == Done && !TooSoon(c, e.inp.t0)
  }

  function CountPasses(s: Server, run: seq<Event>, k: Socket): nat
    requires Legal(s, run)
    decreases |run|
  {
    if run == [] then 0
    else (if Passes(s, run[0], k) then 1 else 0) + CountPasses(Step(s, run[0]), run[1..], k)
  }

  predicate StaysLive(s: Server, run: seq<Event>, k: Socket)
    requires Legal(s, run)
    decreases |run|
  {
    Live(s, k) && (run == [] || StaysLive(Step(s, run[0]), run[1..], k))
  }

  lemma TransferClock(s: Server, p: nat, m: Message)
    requires p < |s.clients| && |TransferKey(s, p, m).clients| == |s.clients|
    ensures TransferKey(s, p, m).clients[p].clock == s.clients[p].clock
  {
    hide Deliver, DoneSockets, Seal, LeaveFrame, RefusesServerKey;
  }

  lemma PollClock(s: Server, p: nat, inp: Input)
    requires p < |s.clients| && s.clients[p].auth != Failed && (inp.Received? ==> inp.t0 <= inp.t1)
    requires |Poll(s, p, inp).clients| == |s.clients|
    ensures var c := s.clients[p];
      var clock := Poll(s, p, inp).clients[p].clock;
      && clock >= c.clock + (if inp.Received? && c.auth == Done && !TooSoon(c, inp.t0) then 21000 else 0)
      && (clock == c.clock || (inp.Received? && clock <= inp.t1))
  {
    hide Login, Frame, TransferKey;
    if inp.Received? {
      match s.clients[p].auth
      case Undone => LoginLocal(s, p, RsaOpen(s.publicKey, inp.m));
      case KeyReceived => TransferClock(s, p, inp.m);
      case Done => FrameSteady(Touch(s, p, inp.t0), p, AesOpen(SERVER_KEY, inp.m), inp.t1);
    }
  }

  predicate ClockAtLeast(s: Server, k: Socket, t: int) {
    forall i :: 0 <= i < |s.clients| && s.clients[i].sock == k ==> s.clients[i].clock >= t
  }

  lemma StepClock(s: Server, e: Event, k: Socket, t: int)
    requires Inv(s) && Enabled(s, e) && Live(s, k) && ClockAtLeast(s, k, t)
    ensures Live(Step(s, e), k) ==> ClockAtLeast(Step(s, e), k, t + if Passes(s, e, k) then 21000 else 0)
  {
    hide Poll;
    if e.Polling? {
      var s' := Step(s, e);
      PollLocal(s, e.p, e.inp);
      if |s'.clients| == |s.clients| {
        PollClock(s, e.p, e.inp);
      } else {
        assert forall i :: 0 <= i < |s'.clients| ==> s'.clients[i] == s.clients[if i < e.p then i else i + 1];
      }
    }
  }

  lemma {:induction false} RunClock(s: Server, run: seq<Event>, k: Socket, t: int)
    requires Inv(s) && Legal(s, run) && StaysLive(s, run, k) && ClockAtLeast(s, k, t)
    ensures Live(Run(s, run), k) && ClockAtLeast(Run(s, run), k, t + 21000 * CountPasses(s, run, k))
    decreases |run|
  {
    hide Step, Inv, Passes, Enabled, ClockAtLeast, Live;
    if run != [] {
      StepKeepsInv(s, run[0]);
      StepClock(s, run[0], k, t);
      RunClock(Step(s, run[0]), run[1..], k, t + if Passes(s, run[0], k) then 21000 else 0);
    }
  }

  /** The time when an event has been handled, given the time before it. */
  function After(e: Event, now: nat): nat {
    if e.Accepting? then e.t else if e.inp.Received? then e.inp.t1 else now
  }

  /** Time does not run backwards along the run. */
  predicate Timed(run: seq<Event>, now: nat)
    decreases |run|
  {
    run == [] ||
    (&& now <= (if run[0].Polling? && run[0].inp.Received? then run[0].inp.t0 else After(run[0], now))
     && Timed(run[1..], After(run[0], now)))
  }

  function EndTime(run: seq<Event>, now: nat): nat
    decreases |run|
  {
    if run == [] then now else EndTime(run[1..], After(run[0], now))
  }

  predicate ClocksBy(s: Server, now: nat) {
    forall i :: 0 <= i < |s.clients| ==> s.clients[i].clock <= now
  }

  lemma StepClocksBy(s: Server, e: Event, now: nat)
    requires Inv(s) && Enabled(s, e) && ClocksBy(s, now) && now <= After(e, now)
    ensures ClocksBy(Step(s, e), After(e, now))
  {
    hide Poll;
    if e.Polling? {
      var s' := Step(s, e);
      PollLocal(s, e.p, e.inp);
      if |s'.clients| == |s.clients| {
        PollClock(s, e.p, e.inp);
      } else {
        assert forall i :: 0 <= i < |s'.clients| ==> s'.clients[i] == s.clients[if i < e.p then i else i + 1];
      }
    }
  }

  lemma {:induction false} RunClocksBy(s: Server, run: seq<Event>, now: nat)
    requires Inv(s) && Legal(s, run) && Timed(run, now) && ClocksBy(s, now)
    ensures ClocksBy(Run(s, run), EndTime(run, now))
    decreases |run|
  {
    hide Inv, ClocksBy, Poll, Accept, FitsBuffers;
    if run != [] {
      StepKeepsInv(s, run[0]);
      StepClocksBy(s, run[0], now);
      RunClocksBy(Step(s, run[0]), run[1..], After(run[0], now));
    }
  }

  /** A client that stays on while n of its frames pass the spam test has been on for
      at least 21n milliseconds since its clock was last started. */
  lemma RateBound(s: Server, run: seq<Event>, p: nat, now: nat)
    requires Inv(s) && Legal(s, run) && Timed(run, now) && ClocksBy(s, now)
    requires p < |s.clients| && StaysLive(s, run, s.clients[p].sock)
    ensures EndTime(run, now) - s.clients[p].clock >= 21000 * CountPasses(s, run, s.clients[p].sock)
  {
    hide Legal, Run, Timed, EndTime, CountPasses, StaysLive;
    RunClock(s, run, s.clients[p].sock, s.clients[p].clock);
    RunClocksBy(s, run, now);
  }

  // ---- Key container ------------------------------------------------------

  /** A logged-in client's public key arrives and the library can load it. */
  predicate KeyArrives(s: Server, p: nat, inp: Input)
    requires p < |s.clients|
  {
    inp.Received? && s.clients[p].auth == KeyReceived && Loads(inp.m)
  }

  /** `stale` are the sockets that were removed on presenting a key, `presented` is
      the key with which each connection went on. */
  datatype KeyBook = KeyBook(stale: set<Socket>, presented: map<Socket, Key>)

  function KeyStep(s: Server, e: Event, b: KeyBook): KeyBook
    requires Enabled(s, e)
  {
    if !e.Polling? || !KeyArrives(s, e.p, e.inp) then b
    else
      var k := s.clients[e.p].sock;
      if |Step(s, e).clients| < |s.clients| then b.(stale := b.stale + {k})
      else b.(presented := b.presented[k := e.inp.m.modulus])
  }

  function RunKeys(s: Server, run: seq<Event>, b: KeyBook): KeyBook
    requires Legal(s, run)
    decreases |run|
  {
    if run == [] then b else RunKeys(Step(s, run[0]), run[1..], KeyStep(s, run[0], b))
  }

  /** This key is stored for k, and the library seals for it or not. */
  predicate Holds(keys: map<Socket, Key>, k: Socket, seals: bool) {
    k in keys && (RefusesServerKey(keys[k]) <==> !seals)
  }

  /** The Done sockets hold the key they presented, which can be sealed for; the only
      other keys are those of removed sockets, and none of them can. */
  predicate KeysAccounted(s: Server, b: KeyBook) {
    && (forall k :: k in s.keys ==> k in DoneSockets(s.clients) || k in b.stale)
    && (forall k :: k in DoneSockets(s.clients) ==>
      Holds(s.keys, k, true) && k in b.presented && s.keys[k] == b.presented[k])
    && (forall k :: k in b.stale ==> Holds(s.keys, k, false))
  }

  lemma DoneAfter(before: seq<Client>, after: seq<Client>, p: nat)
    requires p < |before| && ClientsStep(before, after, p) && DistinctSockets(before)
    ensures var k := before[p].sock;
      DoneSockets(after) == DoneSockets(before) - {k}
        + if |after| == |before| && after[p].auth == Done then {k} else {}
  {
    var k := before[p].sock;
    forall j | j in DoneSockets(before) - {k}
      ensures j in DoneSockets(after)
    {
      var i :| 0 <= i < |before| && before[i].auth == Done && before[i].sock == j;
      assert after[if |after| == |before| || i < p then i else i - 1] in after;
    }
    forall j | j in DoneSockets(after) && j != k
      ensures j in DoneSockets(before)
    {
      var i :| 0 <= i < |after| && after[i].auth == Done && after[i].sock == j;
      assert before[if |after| == |before| || i < p then i else i + 1] in before;
    }
    if |after| == |before| {
      assert after[p] in after;
    }
  }

  lemma TransferShape(s: Server, p: nat, m: Message)
    requires p < |s.clients| && s.clients[p].auth == KeyReceived
    ensures var s', k := TransferKey(s, p, m), s.clients[p].sock;
      if !Loads(m) then s'.clients == s.clients && s'.keys == s.keys
      else
        && s'.keys == Insert(s.keys, k, m.modulus)
        && s'.clients == if RefusesServerKey(s'.keys[k]) then Without(s.clients, p) else s.clients[p := s.clients[p].(auth := Done)]
  {
    hide LeaveFrame, Seal, DoneSockets, RefusesServerKey, Deliver;
  }

  /** What a poll does to the key container. */
  lemma PollKeys(s: Server, p: nat, inp: Input)
    requires p < |s.clients|
    ensures var s', c := Poll(s, p, inp), s.clients[p];
      if KeyArrives(s, p, inp) then
        && s'.keys == Insert(s.keys, c.sock, inp.m.modulus)
        && (if RefusesServerKey(s'.keys[c.sock]) then s'.clients == Without(s.clients, p)
            else |s'.clients| == |s.clients| && s'.clients[p].auth == Done)
      else if |s'.clients| == |s.clients| then
        s'.keys == s.keys && (s'.clients[p].auth == Done <==> c.auth == Done)
      else
        s'.keys == if c.auth == Done then s.keys - {c.sock} else s.keys
  {
    hide Login, Frame, RefusesServerKey, Disconnect, SendTo;
    DisconnectSteady(s, p, 0);
    if inp.Received? {
      match s.clients[p].auth
      case Undone => LoginLocal(s, p, RsaOpen(s.publicKey, inp.m));
      case KeyReceived => TransferShape(s, p, inp.m);
      case Failed => FrameSteady(s, p, AesOpen(SERVER_KEY, inp.m), inp.t1);
      case Done =>
        DisconnectSteady(Touch(s, p, inp.t0), p, 0);
        FrameSteady(Touch(s, p, inp.t0), p, AesOpen(SERVER_KEY, inp.m), inp.t1);
    }
  }

  lemma AcceptDone(s: Server, k: Socket, t: nat)
    ensures DoneSockets(Accept(s, k, t).clients) == DoneSockets(s.clients)
  {
  }

  lemma PolledDone(clients: seq<Client>, p: nat)
    requires p < |clients| && DistinctSockets(clients)
    ensures clients[p].sock in DoneSockets(clients) <==> clients[p].auth == Done
  {
  }

  lemma StepAccounted(s: Server, e: Event, b: KeyBook)
    requires Inv(s) && Enabled(s, e) && KeysAccounted(s, b)
    ensures KeysAccounted(Step(s, e), KeyStep(s, e, b))
  {
    hide Poll, DoneSockets, RecordStep, NamesOk, FitsBuffers, RefusesServerKey;
    if e.Accepting? {
      AcceptDone(s, e.sock, e.t);
    } else {
      PollLocal(s, e.p, e.inp);
      PollKeys(s, e.p, e.inp);
      DoneAfter(s.clients, Step(s, e).clients, e.p);
      PolledDone(s.clients, e.p);
    }
  }

  /** Over every run each Done client's stored key is the one it presented, and the
      only other keys are those that got a client kicked, none of which can ever be
      sealed for. */
  lemma {:induction false} KeyAccounting(s: Server, run: seq<Event>, b: KeyBook)
    requires Inv(s) && Legal(s, run) && KeysAccounted(s, b)
    ensures KeysAccounted(Run(s, run), RunKeys(s, run, b))
    decreases |run|
  {
    hide Step, Inv, Enabled, KeysAccounted, KeyStep;
    if run != [] {
      StepKeepsInv(s, run[0]);
      StepAccounted(s, run[0], b);
      KeyAccounting(Step(s, run[0]), run[1..], KeyStep(s, run[0], b));
    }
  }

  /** A client that presents a key goes on exactly when its socket identity holds no
      key and its own can be sealed for; it is then the only one who can open what it
      is sent. Otherwise it is removed and leaves a key that cannot be sealed for. */
  lemma TransferCompletes(s: Server, p: nat, inp: Input, b: KeyBook)
    requires Inv(s) && KeysAccounted(s, b) && p < |s.clients| && KeyArrives(s, p, inp)
    ensures var s', k, key := Poll(s, p, inp), s.clients[p].sock, inp.m.modulus;
      if k !in s.keys && !RefusesServerKey(key) then
        && |s'.clients| == |s.clients| && s'.clients[p].auth == Done
        && s'.keys == s.keys[k := key]
        && |Sent(s', k)| == |Sent(s, k)| + 1 && Sent(s, k) <= Sent(s', k)
        && forall own :: RsaOpen(own, Sent(s', k)[|Sent(s, k)|]) == if own == key then Some(SERVER_KEY) else None
      else
        && s'.clients == Without(s.clients, p)
        && s'.keys == Insert(s.keys, k, key) && Holds(s'.keys, k, false)
  {
    hide RefusesServerKey, DoneSockets, LeaveFrame, Seal;
    PollKeys(s, p, inp);
    PolledDone(s.clients, p);
    assert s.clients[p].sock in s.out;
  }

  lemma StepStale(s: Server, e: Event, b: KeyBook, k: Socket)
    requires Inv(s) && Enabled(s, e) && KeysAccounted(s, b) && k in b.stale && KeysAccounted(Step(s, e), KeyStep(s, e, b))
    ensures k in KeyStep(s, e, b).stale && Step(s, e).keys[k] == s.keys[k]
  {
    hide Poll, RecordStep, NamesOk, FitsBuffers, RefusesServerKey;
    if e.Polling? {
      PollKeys(s, e.p, e.inp);
      PolledDone(s.clients, e.p);
    }
  }

  /** A key left behind is never replaced or removed, whatever happens, and its socket
      identity is never again that of a Done client. */
  lemma {:induction false} LeftForGood(s: Server, run: seq<Event>, b: KeyBook, k: Socket)
    requires Inv(s) && Legal(s, run) && KeysAccounted(s, b) && k in b.stale
    ensures var z := Run(s, run);
      k in z.keys && z.keys[k] == s.keys[k] && k !in DoneSockets(z.clients)
    decreases |run|
  {
    hide Step, Inv, Enabled, KeyStep, DoneSockets, RefusesServerKey;
    if run != [] {
      StepKeepsInv(s, run[0]);
      StepAccounted(s, run[0], b);
      StepStale(s, run[0], b, k);
      LeftForGood(Step(s, run[0]), run[1..], KeyStep(s, run[0], b), k);
    }
  }

  /** Logging in on the connection accepted last. */
  lemma LoginLast(s: Server, base: seq<Client>, k: Socket, t: nat, credentials: Bytes)
    requires s.clients == base + [Client(k, UNNAMED, false, Undone, t)]
    requires Admissible(s, Field(credentials, 0), Field(credentials, 1))
    ensures var uname, s' := Field(credentials, 0), Login(s, |base|, Some(credentials));
      && s'.clients == base + [Client(k, uname, false, KeyReceived, t)]
      && uname in s'.users && s'.users[uname] == Some(Field(credentials, 1))
      && s'.keys == s.keys && s'.running == s.running && s'.publicKey == s.publicKey
  {
    hide Field, NameFree, ValidName, Admit, Disconnect;
    AdmitShape(s, |base|, Field(credentials, 0), Field(credentials, 1));
  }

  lemma AdmissibleAfterAccept(s: Server, k: Socket, t: nat, uname: Bytes, passwd: Bytes)
    requires Admissible(s, uname, passwd)
    ensures Admissible(Accept(s, k, t), uname, passwd)
  {
  }

  lemma TransferLast(s: Server, base: seq<Client>, c: Client, m: Message)
    requires s.clients == base + [c] && c.auth == KeyReceived && Loads(m)
    ensures var s' := TransferKey(s, |base|, m);
      && s'.keys == Insert(s.keys, c.sock, m.modulus)
      && s'.clients == (if RefusesServerKey(s'.keys[c.sock]) then base else base + [c.(auth := Done)])
      && s'.users == s.users && s'.running == s.running && s'.publicKey == s.publicKey
  {
    TransferShape(s, |base|, m);
    hide Deliver, DoneSockets, Seal, LeaveFrame, RefusesServerKey;
  }

  /** One connection's way through login to the end of the key transfer. */
  function Visit(s: Server, k: Socket, modulus: Key, credentials: Bytes, t: nat): seq<Event> {
    [Accepting(k, t),
     Polling(|s.clients|, Received(RsaSealed(s.publicKey, credentials), t, t)),
     Polling(|s.clients|, Received(KeyText(modulus), t, t))]
  }

  lemma VisitRuns(s: Server, k: Socket, modulus: Key, credentials: Bytes, t: nat)
    requires s.running && !Live(s, k) && Loads(KeyText(modulus))
    requires Admissible(s, Field(credentials, 0), Field(credentials, 1))
    ensures var visit := Visit(s, k, modulus, credentials, t);
      && Legal(s, visit)
      && var s', uname := Run(s, visit), Field(credentials, 0);
         && s'.keys == Insert(s.keys, k, modulus) && s'.running && s'.publicKey == s.publicKey
         && uname in s'.users && s'.users[uname] == Some(Field(credentials, 1))
         && s'.clients ==
           if RefusesServerKey(s'.keys[k]) then s.clients else s.clients + [Client(k, uname, false, Done, t)]
  {
    hide Field, Login, TransferKey, Frame, ValidName, NameFree, Live, RefusesServerKey;
    var visit, p := Visit(s, k, modulus, credentials, t), |s.clients|;
    var s1 := Step(s, visit[0]);
    AdmissibleAfterAccept(s, k, t, Field(credentials, 0), Field(credentials, 1));
    var s2 := Step(s1, visit[1]);
    LoginLast(s1, s.clients, k, t, credentials);
    TransferLast(s2, s.clients, s2.clients[p], KeyText(modulus));
    RunCons(s2, visit[2], []);
    RunCons(s1, visit[1], [visit[2]]);
    RunCons(s, visit[0], [visit[1], visit[2]]);
    assert visit == [visit[0]] + [visit[1], visit[2]];
  }

  lemma KickedBehind(s: Server, s': Server, b: KeyBook, k: Socket, key: Key)
    requires KeysAccounted(s, b) && k !in DoneSockets(s.clients) && RefusesServerKey(key) && k !in s.keys
    requires s'.clients == s.clients && s'.keys == s.keys[k := key]
    ensures KeysAccounted(s', b.(stale := b.stale + {k}))
  {
    hide DoneSockets, RefusesServerKey;
  }

  /** One small key locks a socket identity for good: a client with a good key could
      have completed its visit there, but after a visit with a small one nobody is
      ever Done on it again, whatever happens. */
  lemma LockedOut(s: Server, k: Socket, small: Key, good: Key, credentials: Bytes, t: nat, rest: seq<Event>, b: KeyBook)
    requires Inv(s) && KeysAccounted(s, b) && s.running && !Live(s, k) && k !in s.keys
    requires Loads(KeyText(small)) && RefusesServerKey(small) && Loads(KeyText(good)) && !RefusesServerKey(good)
    requires Admissible(s, Field(credentials, 0), Field(credentials, 1))
    ensures var first, second := Visit(s, k, small, credentials, t), Visit(s, k, good, credentials, t);
      && Legal(s, second) && k in DoneSockets(Run(s, second).clients)
      && Legal(s, first) && Legal(Run(s, first), second)
      && (Legal(Run(s, first), rest) ==> k !in DoneSockets(Run(Run(s, first), rest).clients))
  {
    var first, second := Visit(s, k, small, credentials, t), Visit(s, k, good, credentials, t);
    VisitRuns(s, k, small, credentials, t);
    VisitRuns(s, k, good, credentials, t);
    assert Run(s, second).clients[|s.clients|] in Run(s, second).clients;
    var kicked := Run(s, first);
    VisitRuns(kicked, k, good, credentials, t);
    assert k !in DoneSockets(s.clients);
    KickedBehind(s, kicked, b, k, small);
    RunKeepsInv(s, first);
    hide Field, Run, Legal, ValidName, RefusesServerKey, DoneSockets, KeysAccounted, Visit;
    if Legal(kicked, rest) {
      LeftForGood(kicked, rest, b.(stale := b.stale + {k}), k);
    }
  }
}
