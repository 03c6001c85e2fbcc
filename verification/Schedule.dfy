/** The managing thread: passes over the client array, polling by position while
    polls remove clients and accepts append them. */
module Schedule {
  import opened Crypto
  import opened Session
  import opened Invariants

  // ---- One pass, no accept during it --------------------------------------

  /** Every poll of the pass can happen: its buffers suffice and its times are in order. */
  predicate PassFits(s: Server, it: nat, inputs: seq<Input>)
    requires |s.clients| <= |inputs|
    decreases |s.clients| - it
  {
    it < |s.clients| && s.running ==>
      && Enabled(s, Polling(it, inputs[it]))
      && (PollLocal(s, it, inputs[it]); PassFits(Poll(s, it, inputs[it]), it + 1, inputs))
  }

  /** The rest of a pass from position it; inputs[n] is what the n-th poll finds. */
  function Pass(s: Server, it: nat, inputs: seq<Input>): Server
    requires |s.clients| <= |inputs|
    decreases |s.clients| - it
  {
    if it < |s.clients| && s.running then
      PollLocal(s, it, inputs[it]);
      Pass(Poll(s, it, inputs[it]), it + 1, inputs)
    else s
  }

  /** One poll of a pass: whose, and whether it removed them. */
  datatype Visit = Visit(sock: Socket, removed: bool)

  function Visits(s: Server, it: nat, inputs: seq<Input>): (visits: seq<Visit>)
    requires |s.clients| <= |inputs|
    ensures it <= |inputs| ==> it + |visits| <= |inputs|
    decreases |s.clients| - it
  {
    if it < |s.clients| && s.running then
      PollLocal(s, it, inputs[it]);
      var s' := Poll(s, it, inputs[it]);
      [Visit(s.clients[it].sock, |s'.clients| < |s.clients|)] + Visits(s', it + 1, inputs)
    else []
  }

  /** n polls at consecutive positions from `it`. */
  function Polls(it: nat, n: nat, inputs: seq<Input>): seq<Event>
    requires it + n <= |inputs|
  {
    seq(n, m requires 0 <= m < n => Polling(it + m, inputs[it + m]))
  }

  lemma PollsNext(it: nat, n: nat, inputs: seq<Input>)
    requires it + n <= |inputs| && n > 0
    ensures Polls(it, n, inputs)[0] == Polling(it, inputs[it])
    ensures Polls(it, n, inputs)[1..] == Polls(it + 1, n - 1, inputs)
  {
  }

  /** These visits are what the run of those polls does: whom each polls, and whether it
      removes them. */
  predicate Records(s: Server, it: nat, inputs: seq<Input>, visits: seq<Visit>)
    requires it + |visits| <= |inputs| && Legal(s, Polls(it, |visits|, inputs))
    decreases |visits|
  {
    visits == [] ||
    (&& it < |s.clients| && Enabled(s, Polling(it, inputs[it]))
     && var s' := Step(s, Polling(it, inputs[it]));
        && visits[0] == Visit(s.clients[it].sock, |s'.clients| < |s.clients|)
        && (PollsNext(it, |visits|, inputs); Records(s', it + 1, inputs, visits[1..])))
  }

  /** A pass is a run: it polls consecutive positions until the process ends or no
      client is left at the next one, and leaves the server as that run leaves it. */
  lemma {:induction false} PassIsRun(s: Server, it: nat, inputs: seq<Input>)
    requires |s.clients| <= |inputs| && it <= |inputs| && PassFits(s, it, inputs)
    ensures var visits := Visits(s, it, inputs);
      var events := Polls(it, |visits|, inputs);
         && Legal(s, events) && Pass(s, it, inputs) == Run(s, events) && Records(s, it, inputs, visits)
         && (!Run(s, events).running || it + |visits| >= |Run(s, events).clients|)
    decreases |s.clients| - it
  {
    hide Poll, FitsBuffers;
    var visits := Visits(s, it, inputs);
    var events := Polls(it, |visits|, inputs);
    if it < |s.clients| && s.running {
      var s' := Poll(s, it, inputs[it]);
      PollLocal(s, it, inputs[it]);
      PassIsRun(s', it + 1, inputs);
      PollsNext(it, |visits|, inputs);
      assert visits[1..] == Visits(s', it + 1, inputs);
      assert events == [Polling(it, inputs[it])] + Polls(it + 1, |visits| - 1, inputs);
      RunCons(s, Polling(it, inputs[it]), Polls(it + 1, |visits| - 1, inputs));
    } else {
      assert visits == [] && events == [];
    }
  }

  predicate PolledIn(visits: seq<Visit>, k: Socket) {
    exists n :: 0 <= n < |visits| && visits[n].sock == k
  }

  predicate RemovedIn(visits: seq<Visit>, k: Socket) {
    exists n :: 0 <= n < |visits| && visits[n].sock == k && visits[n].removed
  }

  predicate NoneTwice(visits: seq<Visit>) {
    forall m, n :: 0 <= m < n < |visits| ==> visits[m].sock != visits[n].sock
  }

  function Sockets(clients: seq<Client>): (socks: seq<Socket>)
    ensures |socks| == |clients|
  {
    seq(|clients|, i requires 0 <= i < |clients| => clients[i].sock)
  }

  /** The visits hit position `it`, and then each later position exactly when the one
      just before it was not polled and removed. */
  predicate HitsAllBut(socks: seq<Socket>, it: nat, visits: seq<Visit>) {
    forall j {:trigger PolledIn(visits, socks[j])} :: 0 <= j < |socks| ==>
      (PolledIn(visits, socks[j]) <==> j == it || (j > it && !RemovedIn(visits, socks[j - 1])))
  }

  predicate OnlyFrom(socks: seq<Socket>, visits: seq<Visit>) {
    forall n :: 0 <= n < |visits| ==> visits[n].sock in socks
  }

  lemma VisitsCons(v: Visit, rest: seq<Visit>)
    ensures forall k :: PolledIn([v] + rest, k) <==> v.sock == k || PolledIn(rest, k)
    ensures forall k :: RemovedIn([v] + rest, k) <==> v == Visit(k, true) || RemovedIn(rest, k)
    ensures forall k :: RemovedIn(rest, k) ==> PolledIn(rest, k)
  {
    var all := [v] + rest;
    assert all[0] == v;
    assert forall n :: 0 <= n < |rest| ==> all[n + 1] == rest[n];
    forall k
      ensures PolledIn(all, k) <==> v.sock == k || PolledIn(rest, k)
      ensures RemovedIn(all, k) <==> v == Visit(k, true) || RemovedIn(rest, k)
    {
      assert forall n :: 0 < n < |all| ==> all[n] == rest[n - 1];
    }
  }

  lemma StayHits(socks: seq<Socket>, it: nat, rest: seq<Visit>)
    requires it < |socks| && forall i, j :: 0 <= i < j < |socks| ==> socks[i] != socks[j]
    requires HitsAllBut(socks, it + 1, rest)
    ensures HitsAllBut(socks, it, [Visit(socks[it], false)] + rest)
  {
    VisitsCons(Visit(socks[it], false), rest);
    hide PolledIn, RemovedIn;
  }

  lemma RemovalHits(socks: seq<Socket>, it: nat, rest: seq<Visit>)
    requires it < |socks| && forall i, j :: 0 <= i < j < |socks| ==> socks[i] != socks[j]
    requires HitsAllBut(socks[..it] + socks[it + 1..], it + 1, rest)
    requires !PolledIn(rest, socks[it])
    ensures HitsAllBut(socks, it, [Visit(socks[it], true)] + rest)
  {
    var socks', visits := socks[..it] + socks[it + 1..], [Visit(socks[it], true)] + rest;
    VisitsCons(Visit(socks[it], true), rest);
    hide PolledIn, RemovedIn;
    forall j {:trigger PolledIn(visits, socks[j])} | 0 <= j < |socks|
      ensures PolledIn(visits, socks[j]) <==> j == it || (j > it && !RemovedIn(visits, socks[j - 1]))
    {
      if j < it { assert socks'[j] == socks[j]; }
      if j > it { assert socks'[j - 1] == socks[j]; }
      if j > it + 1 { assert socks'[j - 2] == socks[j - 1]; }
    }
  }

  lemma DistinctIn(s: Server)
    requires Inv(s)
    ensures DistinctSockets(s.clients)
  {
  }

  lemma KeptSockets(before: seq<Client>, after: seq<Client>, p: nat)
    requires p < |before| == |after| && ClientsStep(before, after, p)
    ensures Sockets(after) == Sockets(before)
  {
  }

  lemma StayNotAgain(socks: seq<Socket>, it: nat, rest: seq<Visit>)
    requires it < |socks| && HitsAllBut(socks, it + 1, rest)
    ensures !PolledIn(rest, socks[it])
  {
  }

  lemma ConsVisit(before: seq<Client>, after: seq<Client>, it: nat, rest: seq<Visit>)
    requires it < |before| && DistinctSockets(before) && ClientsStep(before, after, it)
    requires HitsAllBut(Sockets(after), it + 1, rest) && NoneTwice(rest) && OnlyFrom(Sockets(after), rest)
    ensures var visits := [Visit(before[it].sock, |after| < |before|)] + rest;
      HitsAllBut(Sockets(before), it, visits) && NoneTwice(visits) && OnlyFrom(Sockets(before), visits)
  {
    var socks, socks' := Sockets(before), Sockets(after);
    hide HitsAllBut, RecordStep;
    if |after| < |before| {
      assert socks' == socks[..it] + socks[it + 1..];
      assert !PolledIn(rest, socks[it]);
      RemovalHits(socks, it, rest);
    } else {
      KeptSockets(before, after, it);
      StayHits(socks, it, rest);
      assert !PolledIn(rest, socks[it]) by { StayNotAgain(socks, it, rest); }
    }
  }

  lemma NoVisits(socks: seq<Socket>, it: nat)
    requires it >= |socks|
    ensures HitsAllBut(socks, it, []) && NoneTwice([]) && OnlyFrom(socks, [])
  {
  }

  /** The rest of a pass from position `it`: the client there is polled; a later one
      is missed exactly when its immediate predecessor was polled and removed in the
      pass; no client is polled twice, and none before `it` at all. */
  lemma {:induction false} PassSkips(s: Server, it: nat, inputs: seq<Input>)
    requires Inv(s) && |s.clients| <= |inputs| && Pass(s, it, inputs).running
    ensures HitsAllBut(Sockets(s.clients), it, Visits(s, it, inputs))
    ensures NoneTwice(Visits(s, it, inputs))
    ensures OnlyFrom(Sockets(s.clients), Visits(s, it, inputs))
    decreases |s.clients| - it
  {
    hide Poll, Inv, HitsAllBut, NoneTwice, OnlyFrom, RecordStep;
    DistinctIn(s);
    if it < |s.clients| {
      var s' := Poll(s, it, inputs[it]);
      PollLocal(s, it, inputs[it]);
      PollKeepsInv(s, it, inputs[it]);
      PassSkips(s', it + 1, inputs);
      ConsVisit(s.clients, s'.clients, it, Visits(s', it + 1, inputs));
    } else {
      NoVisits(Sockets(s.clients), it);
    }
  }

  // ---- Many passes, accepts at any time -----------------------------------

  /** The managing thread polls the next position or starts a new pass; the
      connection thread accepts in between. */
  datatype Action = Arrive(sock: Socket, t: nat) | Next(inp: Input) | NewPass

  predicate Possible(s: Server, it: nat, a: Action) {
    match a
    case Arrive(k, t) => Enabled(s, Accepting(k, t))
    case Next(inp) => Enabled(s, Polling(it, inp))
    case NewPass => it >= |s.clients|
  }

  function Act(s: Server, it: nat, a: Action): (Server, nat)
    requires Possible(s, it, a)
  {
    match a
    case Arrive(k, t) => (Step(s, Accepting(k, t)), it)
    case Next(inp) => (Step(s, Polling(it, inp)), it + 1)
    case NewPass => (s, 0)
  }

  predicate Plays(s: Server, it: nat, actions: seq<Action>)
    decreases |actions|
  {
    actions == [] ||
    (&& Possible(s, it, actions[0])
     && var (s', it') := Act(s, it, actions[0]); Plays(s', it', actions[1..]))
  }

  predicate IsPolled(s: Server, it: nat, actions: seq<Action>, k: Socket)
    requires Plays(s, it, actions)
    decreases |actions|
  {
    actions != [] &&
    (|| (actions[0].Next? && s.clients[it].sock == k)
     || var (s', it') := Act(s, it, actions[0]); IsPolled(s', it', actions[1..], k))
  }

  function CompletedPasses(actions: seq<Action>): nat
    decreases |actions|
  {
    if actions == [] then 0
    else (if actions[0].NewPass? then 1 else 0) + CompletedPasses(actions[1..])
  }

  lemma StepInv(s: Server, it: nat, a: Action)
    requires Inv(s) && Possible(s, it, a)
    ensures Inv(Act(s, it, a).0)
  {
    hide Poll;
    if a.Next? { PollKeepsInv(s, it, a.inp); }
  }

  /** While a client is not polled, each completed pass has cost it a position. */
  lemma {:induction false} UnpolledPasses(s: Server, it: nat, actions: seq<Action>, q: nat)
    requires Inv(s) && Plays(s, it, actions) && q < |s.clients|
    requires !IsPolled(s, it, actions, s.clients[q].sock)
    ensures CompletedPasses(actions) <= if it <= q then q else q + 1
    decreases |actions|
  {
    hide Poll, Inv, RecordStep;
    if actions != [] {
      var k, a := s.clients[q].sock, actions[0];
      var (s', it') := Act(s, it, a);
      match a
      case Arrive(j, t) =>
        StepInv(s, it, a);
        UnpolledPasses(s', it', actions[1..], q);
      case NewPass =>
        UnpolledPasses(s', it', actions[1..], q);
      case Next(inp) =>
        StepInv(s, it, a);
        PollLocal(s, it, inp);
        var q' := if |s'.clients| < |s.clients| && it < q then q - 1 else q;
        assert s'.clients[q'].sock == k;
        UnpolledPasses(s', it', actions[1..], q');
    }
  }

  /** The accepts and polls among the actions. */
  function Events(it: nat, actions: seq<Action>): seq<Event>
    decreases |actions|
  {
    if actions == [] then []
    else match actions[0]
      case Arrive(k, t) => [Accepting(k, t)] + Events(it, actions[1..])
      case Next(inp) => [Polling(it, inp)] + Events(it + 1, actions[1..])
      case NewPass => Events(0, actions[1..])
  }

  predicate PollsSocket(s: Server, run: seq<Event>, k: Socket)
    requires Legal(s, run)
    decreases |run|
  {
    run != [] && ((run[0].Polling? && s.clients[run[0].p].sock == k) || PollsSocket(Step(s, run[0]), run[1..], k))
  }

  lemma PollsCons(s: Server, e: Event, rest: seq<Event>, k: Socket)
    requires Enabled(s, e) && Legal(Step(s, e), rest)
    ensures Legal(s, [e] + rest)
    ensures PollsSocket(s, [e] + rest, k) <==> (e.Polling? && s.clients[e.p].sock == k) || PollsSocket(Step(s, e), rest, k)
  {
    hide Step;
    assert ([e] + rest)[1..] == rest;
    RunCons(s, e, rest);
  }

  /** What the two threads do is a run. */
  lemma {:induction false} PlayIsRun(s: Server, it: nat, actions: seq<Action>, k: Socket)
    requires Plays(s, it, actions)
    ensures Legal(s, Events(it, actions))
    ensures PollsSocket(s, Events(it, actions), k) <==> IsPolled(s, it, actions, k)
    decreases |actions|
  {
    hide Enabled, Step;
    if actions != [] {
      var (s', it') := Act(s, it, actions[0]);
      PlayIsRun(s', it', actions[1..], k);
      match actions[0]
      case Arrive(j, t) => PollsCons(s, Accepting(j, t), Events(it, actions[1..]), k);
      case Next(inp) => PollsCons(s, Polling(it, inp), Events(it + 1, actions[1..]), k);
      case NewPass =>
    }
  }

  /** No starvation: whatever the other clients do and however many arrive, the run
      polls the client at position p before p + 1 passes are complete. */
  lemma NoStarvation(s: Server, actions: seq<Action>, p: nat)
    requires Inv(s) && Plays(s, 0, actions) && p < |s.clients|
    requires CompletedPasses(actions) >= p + 1
    ensures Legal(s, Events(0, actions)) && PollsSocket(s, Events(0, actions), s.clients[p].sock)
  {
    PlayIsRun(s, 0, actions, s.clients[p].sock);
    if !IsPolled(s, 0, actions, s.clients[p].sock) {
      UnpolledPasses(s, 0, actions, p);
    }
  }
}
