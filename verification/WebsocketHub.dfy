/** The websocket hub: readers, writers and broadcasters as interleaved atomic steps. */
module WebsocketHub {
  import opened Common

  const SEND_CAPACITY := 16

  datatype Msg = Connected | Broadcast(id: nat)

  /**
   * queue is the send channel. The rest is history: everything ever queued, what the writer took,
   * the broadcasts that visited the client, how often done was closed, whether a full queue was found.
   */
  datatype Client = Client(
    queue: seq<Msg>, queued: seq<Msg>, taken: seq<Msg>, visits: seq<nat>, closes: nat, condemned: bool)

  /**
   * One call of broadcastBytes: the clients it copied, those it has still to visit, and the one it has found full
   * and removes before it visits another.
   */
  datatype Round = Round(snapshot: set<nat>, pending: set<nat>, removing: Option<nat>)

  /** registered is the hub's map; closing are clients deleted from it whose done is about to be closed. */
  datatype Hub = Hub(clients: map<nat, Client>, registered: set<nat>, closing: set<nat>, rounds: seq<Round>)

  /** The case a select takes; the default only when neither of the others is ready. */
  datatype Choice = Skips | Sends | FindsFull

  datatype Action =
    | Add(c: nat)
    | BeginRemove(c: nat)
    | CloseDone(c: nat)
    | Take(c: nat)
    | StartBroadcast
    | Visit(b: nat, c: nat, choice: Choice)
    | Removes(b: nat)

  const EMPTY: Hub := Hub(map[], {}, {}, [])

  const FRESH: Client := Client([Connected], [Connected], [], [], 0, false)

  predicate Enabled(h: Hub, a: Action) {
    match a
    case Add(c) => c !in h.clients
    case BeginRemove(c) => c in h.clients
    case CloseDone(c) => c in h.closing && c in h.clients
    case Take(c) => c in h.clients && h.clients[c].queue != []
    case StartBroadcast => true
    case Removes(b) => b < |h.rounds| && h.rounds[b].removing.Some?
    case Visit(b, c, choice) =>
      && b < |h.rounds| && c in h.rounds[b].pending && c in h.clients && h.rounds[b].removing == None
      && match choice
         case Skips => h.clients[c].closes > 0
         case Sends => |h.clients[c].queue| < SEND_CAPACITY
         case FindsFull => h.clients[c].closes == 0 && |h.clients[c].queue| >= SEND_CAPACITY
  }

  /** The locked section of remove: only who finds the client in the map goes on to close it. */
  function Unregister(h: Hub, c: nat): Hub {
    if c in h.registered then h.(registered := h.registered - {c}, closing := h.closing + {c}) else h
  }

  function AfterVisit(r: Round, c: nat, choice: Choice): Round {
    r.(pending := r.pending - {c}, removing := if choice == FindsFull then Some(c) else None)
  }

  function Queue(k: Client, m: Msg): Client {
    k.(queue := k.queue + [m], queued := k.queued + [m])
  }

  function Visited(k: Client, b: nat, choice: Choice): Client {
    var seen := k.(visits := k.visits + [b]);
    match choice
    case Skips => seen
    case Sends => Queue(seen, Broadcast(b))
    case FindsFull => seen.(condemned := true)
  }

  /** A client found full is removed by the broadcaster in its next step, which others may come before. */
  function Apply(h: Hub, a: Action): Hub
    requires Enabled(h, a)
  {
    match a
    case Add(c) => h.(clients := h.clients[c := FRESH], registered := h.registered + {c})
    case BeginRemove(c) => Unregister(h, c)
    case CloseDone(c) =>
      h.(clients := h.clients[c := h.clients[c].(closes := h.clients[c].closes + 1)], closing := h.closing - {c})
    case Take(c) =>
      var k := h.clients[c];
      h.(clients := h.clients[c := k.(queue := k.queue[1..], taken := k.taken + [k.queue[0]])])
    case StartBroadcast => h.(rounds := h.rounds + [Round(h.registered, h.registered, None)])
    case Visit(b, c, choice) =>
      h.(clients := h.clients[c := Visited(h.clients[c], b, choice)],
         rounds := h.rounds[b := AfterVisit(h.rounds[b], c, choice)])
    case Removes(b) =>
      Unregister(h, h.rounds[b].removing.value).(rounds := h.rounds[b := h.rounds[b].(removing := None)])
  }

  // ----- The invariant, client by client

  function Msgs(visits: seq<nat>): seq<Msg> {
    if visits == [] then [Connected] else Msgs(visits[..|visits| - 1]) + [Broadcast(visits[|visits| - 1])]
  }

  /** No broadcast occurs twice, and only broadcasts that visited. */
  predicate Once(queued: seq<Msg>, visits: seq<nat>) {
    queued != [] && queued[0] == Connected
    && (|queued| == 1
        || (queued[|queued| - 1].Broadcast?
            && queued[|queued| - 1].id in visits
            && queued[|queued| - 1] !in queued[..|queued| - 1]
            && Once(queued[..|queued| - 1], visits)))
  }

  /** A visit queues at most one message, and one that found the queue full none. */
  predicate Channel(k: Client) {
    && |k.queue| <= SEND_CAPACITY
    && k.taken + k.queue == k.queued
    && Once(k.queued, k.visits)
    && |k.queued| <= 1 + |k.visits|
    && (k.condemned ==> |k.queued| <= |k.visits|)
  }

  /** done is closed once after the client has left the map, unless it is about to be. */
  predicate Life(k: Client, registered: bool, closing: bool) {
    && (registered ==> !closing)
    && k.closes == if registered || closing then 0 else 1
  }

  /** Unless a full queue was found, what is queued to a registered client is every broadcast that visited it. */
  predicate Gapless(k: Client, registered: bool) {
    registered && !k.condemned ==> k.queued == Msgs(k.visits)
  }

  /** A broadcast has visited the client exactly when it copied it and no longer has to. */
  predicate Seen(k: Client, c: nat, rounds: seq<Round>) {
    && (forall i :: 0 <= i < |k.visits| ==> k.visits[i] < |rounds|)
    && (forall b :: 0 <= b < |rounds| && b in k.visits ==> c in rounds[b].snapshot && c !in rounds[b].pending)
  }

  /** Whom a broadcast has visited it has reached, unless the client is off the map or about to be taken off it. */
  predicate Reached(k: Client, c: nat, registered: bool, rounds: seq<Round>) {
    forall b :: 0 <= b < |rounds| && c in rounds[b].snapshot && c !in rounds[b].pending ==>
      && (Broadcast(b) in k.queued || k.closes > 0 || k.condemned)
      && (registered ==> Broadcast(b) in k.queued || rounds[b].removing == Some(c))
  }

  /** A broadcaster is between finding this client full and removing it. */
  predicate BeingRemoved(c: nat, rounds: seq<Round>) {
    exists b :: 0 <= b < |rounds| && rounds[b].removing == Some(c)
  }

  /** Only clients once found full are being removed, and registered ones that were found full always are. */
  predicate Condemned(k: Client, c: nat, registered: bool, rounds: seq<Round>) {
    && (BeingRemoved(c, rounds) ==> k.condemned)
    && (registered && k.condemned ==> BeingRemoved(c, rounds))
  }

  predicate Good(k: Client, c: nat, h: Hub) {
    && Channel(k)
    && Life(k, c in h.registered, c in h.closing)
    && Gapless(k, c in h.registered)
    && Seen(k, c, h.rounds)
    && Reached(k, c, c in h.registered, h.rounds)
    && Condemned(k, c, c in h.registered, h.rounds)
  }

  predicate Known(h: Hub) {
    && h.registered <= h.clients.Keys
    && h.closing <= h.clients.Keys
    && forall b :: 0 <= b < |h.rounds| ==>
         && h.rounds[b].pending <= h.rounds[b].snapshot <= h.clients.Keys
         && (h.rounds[b].removing.Some? ==> h.rounds[b].removing.value in h.clients)
  }

  ghost predicate Inv(h: Hub) {
    Known(h) && forall c :: c in h.clients ==> Good(h.clients[c], c, h)
  }

  // ----- What each step keeps

  lemma KnownKept(h: Hub, a: Action)
    requires Known(h) && Enabled(h, a)
    ensures Known(Apply(h, a))
  {
  }

  /** The client a step is about, if it is about one. */
  function Concerns(h: Hub, a: Action): Option<nat> {
    match a
    case Add(c) => Some(c)
    case BeginRemove(c) => Some(c)
    case CloseDone(c) => Some(c)
    case Take(c) => Some(c)
    case StartBroadcast => None
    case Visit(_, c, _) => Some(c)
    case Removes(b) => if b < |h.rounds| then h.rounds[b].removing else None
  }

  /** Clients a step does not touch. */
  lemma OthersGood(h: Hub, a: Action, c: nat)
    requires Known(h) && Enabled(h, a) && c in h.clients && Good(h.clients[c], c, h)
    requires Concerns(h, a) != Some(c)
    ensures c in Apply(h, a).clients && Good(Apply(h, a).clients[c], c, Apply(h, a))
  {
    var h' := Apply(h, a);
    OthersStay(h, a, c);
    RoundsStay(h, a, c);
    hide Apply, Enabled, Channel, Life, Gapless;
    var k := h.clients[c];
    forall b | 0 <= b < |h'.rounds| && b in k.visits ensures c in h'.rounds[b].snapshot && c !in h'.rounds[b].pending {
      assert b < |h.rounds|;
    }
    assert BeingRemoved(c, h.rounds) ==> BeingRemoved(c, h'.rounds) by {
      if b :| 0 <= b < |h.rounds| && h.rounds[b].removing == Some(c) {
        assert h'.rounds[b].removing == Some(c);
      }
    }
    assert BeingRemoved(c, h'.rounds) ==> BeingRemoved(c, h.rounds) by {
      if b :| 0 <= b < |h'.rounds| && h'.rounds[b].removing == Some(c) {
        assert h.rounds[b].removing == Some(c);
      }
    }
  }

  lemma OthersStay(h: Hub, a: Action, c: nat)
    requires Known(h) && Enabled(h, a) && c in h.clients && Concerns(h, a) != Some(c)
    ensures var h' := Apply(h, a);
      && c in h'.clients && h'.clients[c] == h.clients[c]
      && (c in h'.registered <==> c in h.registered) && (c in h'.closing <==> c in h.closing)
  {
  }

  /** Seen from such a client, rounds only change by a new one, which has it pending if it is registered. */
  lemma RoundsStay(h: Hub, a: Action, c: nat)
    requires Known(h) && Enabled(h, a) && c in h.clients && Concerns(h, a) != Some(c)
    ensures var h' := Apply(h, a);
      && |h.rounds| <= |h'.rounds|
      && (forall b :: 0 <= b < |h.rounds| ==>
            && h'.rounds[b].snapshot == h.rounds[b].snapshot
            && (c in h'.rounds[b].pending <==> c in h.rounds[b].pending)
            && (h'.rounds[b].removing == Some(c) <==> h.rounds[b].removing == Some(c)))
      && (forall b :: |h.rounds| <= b < |h'.rounds| ==>
            (c in h'.rounds[b].snapshot ==> c in h'.rounds[b].pending) && h'.rounds[b].removing == None)
  {
  }

  lemma AddGood(h: Hub, c: nat)
    requires Known(h) && Enabled(h, Add(c))
    ensures Good(FRESH, c, Apply(h, Add(c)))
  {
    assert Msgs([]) == [Connected];
    assert c !in h.clients.Keys;
  }

  lemma BeginRemoveGood(h: Hub, c: nat)
    requires Enabled(h, BeginRemove(c)) && Good(h.clients[c], c, h)
    ensures Good(h.clients[c], c, Apply(h, BeginRemove(c)))
  {
    hide Channel, Seen;
  }

  /** The removal ends the time in which a client found full is still on the map. */
  lemma RemovesGood(h: Hub, b: nat, c: nat)
    requires Enabled(h, Removes(b)) && h.rounds[b].removing == Some(c) && c in h.clients && Good(h.clients[c], c, h)
    ensures Good(h.clients[c], c, Apply(h, Removes(b)))
  {
    hide Channel;
    var h' := Apply(h, Removes(b));
    assert BeingRemoved(c, h'.rounds) ==> BeingRemoved(c, h.rounds) by {
      if i :| 0 <= i < |h'.rounds| && h'.rounds[i].removing == Some(c) {
        assert h.rounds[i].removing == Some(c);
      }
    }
  }

  lemma CloseDoneGood(h: Hub, c: nat)
    requires Enabled(h, CloseDone(c)) && Good(h.clients[c], c, h)
    ensures Good(Apply(h, CloseDone(c)).clients[c], c, Apply(h, CloseDone(c)))
  {
    hide Once, Msgs;
  }

  lemma TakeGood(h: Hub, c: nat)
    requires Enabled(h, Take(c)) && Good(h.clients[c], c, h)
    ensures Good(Apply(h, Take(c)).clients[c], c, Apply(h, Take(c)))
  {
    hide Once, Msgs;
    var k := h.clients[c];
    assert k.queue == [k.queue[0]] + k.queue[1..];
    assert k.taken + [k.queue[0]] + k.queue[1..] == k.taken + k.queue;
  }

  lemma {:induction false} OnceLater(queued: seq<Msg>, visits: seq<nat>, b: nat)
    requires Once(queued, visits)
    ensures Once(queued, visits + [b])
  {
    if |queued| > 1 {
      OnceLater(queued[..|queued| - 1], visits, b);
    }
  }

  lemma {:induction false} QueuedVisited(queued: seq<Msg>, visits: seq<nat>, b: nat)
    requires Once(queued, visits) && Broadcast(b) in queued
    ensures b in visits
  {
    var last := queued[|queued| - 1];
    assert queued == queued[..|queued| - 1] + [last];
    if last != Broadcast(b) {
      QueuedVisited(queued[..|queued| - 1], visits, b);
    }
  }

  /** A broadcast that has not visited yet can be queued once more. */
  lemma OnceAppend(queued: seq<Msg>, visits: seq<nat>, b: nat)
    requires Once(queued, visits) && b !in visits
    ensures Once(queued + [Broadcast(b)], visits + [b])
  {
    OnceLater(queued, visits, b);
    assert (queued + [Broadcast(b)])[..|queued|] == queued;
    if Broadcast(b) in queued {
      QueuedVisited(queued, visits, b);
    }
  }

  lemma VisitChannel(k: Client, b: nat, choice: Choice)
    requires Channel(k) && b !in k.visits && (choice == Sends ==> |k.queue| < SEND_CAPACITY)
    ensures Channel(Visited(k, b, choice))
  {
    hide Once;
    OnceLater(k.queued, k.visits, b);
    OnceAppend(k.queued, k.visits, b);
    assert k.taken + (k.queue + [Broadcast(b)]) == k.taken + k.queue + [Broadcast(b)];
  }

  lemma VisitGapless(k: Client, b: nat, choice: Choice, registered: bool)
    requires Gapless(k, registered) && (registered ==> choice != Skips)
    ensures Gapless(Visited(k, b, choice), registered)
  {
    assert (k.visits + [b])[..|k.visits|] == k.visits;
  }

  lemma VisitGood(h: Hub, b: nat, c: nat, choice: Choice)
    requires Known(h) && Enabled(h, Visit(b, c, choice)) && Good(h.clients[c], c, h)
    ensures Good(Apply(h, Visit(b, c, choice)).clients[c], c, Apply(h, Visit(b, c, choice)))
  {
    hide Channel, Gapless;
    var k, h' := h.clients[c], Apply(h, Visit(b, c, choice));
    assert b !in k.visits;
    VisitChannel(k, b, choice);
    VisitGapless(k, b, choice, c in h.registered);
    VisitSeen(k, h.rounds, h'.rounds, b, c, choice);
    VisitReached(k, h.rounds, h'.rounds, b, c, choice, c in h.registered);
    VisitCondemned(k, h.rounds, h'.rounds, b, c, choice, c in h.registered);
  }

  lemma VisitSeen(k: Client, rounds: seq<Round>, rounds': seq<Round>, b: nat, c: nat, choice: Choice)
    requires Seen(k, c, rounds) && b < |rounds| && c in rounds[b].snapshot
    requires rounds' == rounds[b := AfterVisit(rounds[b], c, choice)]
    ensures Seen(Visited(k, b, choice), c, rounds')
  {
    var k' := Visited(k, b, choice);
    forall i | 0 <= i < |rounds'| && i in k'.visits ensures c in rounds'[i].snapshot && c !in rounds'[i].pending {
      assert i == b || i in k.visits;
    }
  }

  lemma VisitReached(
    k: Client, rounds: seq<Round>, rounds': seq<Round>, b: nat, c: nat, choice: Choice, registered: bool)
    requires Reached(k, c, registered, rounds) && b < |rounds| && rounds[b].removing == None
    requires rounds' == rounds[b := AfterVisit(rounds[b], c, choice)]
    requires choice == Skips ==> k.closes > 0 && !registered
    ensures Reached(Visited(k, b, choice), c, registered, rounds')
  {
    var k' := Visited(k, b, choice);
    forall i | 0 <= i < |rounds'| && c in rounds'[i].snapshot && c !in rounds'[i].pending
      ensures Broadcast(i) in k'.queued || k'.closes > 0 || k'.condemned
      ensures registered ==> Broadcast(i) in k'.queued || rounds'[i].removing == Some(c)
    {
      if i == b {
        assert choice == Sends ==> k'.queued[|k.queued|] == Broadcast(b);
      } else {
        assert Broadcast(i) in k.queued ==> Broadcast(i) in k'.queued;
      }
    }
  }

  lemma VisitCondemned(
    k: Client, rounds: seq<Round>, rounds': seq<Round>, b: nat, c: nat, choice: Choice, registered: bool)
    requires Condemned(k, c, registered, rounds) && b < |rounds| && rounds[b].removing == None
    requires rounds' == rounds[b := AfterVisit(rounds[b], c, choice)]
    ensures Condemned(Visited(k, b, choice), c, registered, rounds')
  {
    if choice == FindsFull {
      assert rounds'[b].removing == Some(c);
    }
    if i :| 0 <= i < |rounds| && rounds[i].removing == Some(c) {
      assert rounds'[i].removing == Some(c);
    }
    if i :| 0 <= i < |rounds'| && rounds'[i].removing == Some(c) {
      assert i == b || rounds[i].removing == Some(c);
    }
  }

  /** Every step of every interleaving keeps the invariant. */
  lemma StepKeepsInv(h: Hub, a: Action)
    requires Inv(h) && Enabled(h, a)
    ensures Inv(Apply(h, a))
  {
    var h' := Apply(h, a);
    KnownKept(h, a);
    hide Known, Good;
    forall c | c in h'.clients ensures Good(h'.clients[c], c, h') {
      StepKeepsGood(h, a, c);
    }
  }

  lemma StepKeepsGood(h: Hub, a: Action, c: nat)
    requires Inv(h) && Enabled(h, a) && c in Apply(h, a).clients
    ensures Good(Apply(h, a).clients[c], c, Apply(h, a))
  {
    hide Known, Good, Visited;
    if Concerns(h, a) != Some(c) {
      StepKeepsKnown(h, a, c);
      OthersGood(h, a, c);
    } else {
      match a
      case Add(_) => AddGood(h, c);
      case BeginRemove(_) => BeginRemoveGood(h, c);
      case CloseDone(_) => CloseDoneGood(h, c);
      case Take(_) => TakeGood(h, c);
      case Visit(b, _, choice) => VisitGood(h, b, c, choice);
      case Removes(b) => RemovesGood(h, b, c);
    }
  }

  lemma StepKeepsKnown(h: Hub, a: Action, c: nat)
    requires Enabled(h, a) && c in Apply(h, a).clients && Concerns(h, a) != Some(c)
    ensures c in h.clients
  {
  }

  // ----- Runs

  predicate IsRun(h: Hub, run: seq<Action>)
    decreases run
  {
    run == [] || (Enabled(h, run[0]) && IsRun(Apply(h, run[0]), run[1..]))
  }

  function End(h: Hub, run: seq<Action>): Hub
    requires IsRun(h, run)
    decreases run
  {
    if run == [] then h else End(Apply(h, run[0]), run[1..])
  }

  lemma {:induction false} RunKeepsInv(h: Hub, run: seq<Action>)
    requires Inv(h) && IsRun(h, run)
    ensures Inv(End(h, run))
    decreases run
  {
    hide Inv, Enabled, Apply;
    if run != [] {
      StepKeepsInv(h, run[0]);
      RunKeepsInv(Apply(h, run[0]), run[1..]);
    }
  }

  lemma {:induction false} MsgsLength(visits: seq<nat>)
    ensures |Msgs(visits)| == 1 + |visits|
  {
    if visits != [] {
      MsgsLength(visits[..|visits| - 1]);
    }
  }

  /**
   * After any run, for any client that was ever added. In particular what is queued to a registered client has a gap
   * exactly while some broadcaster is between finding it full and removing it.
   */
  lemma ClientSafety(run: seq<Action>, c: nat)
    requires IsRun(EMPTY, run) && c in End(EMPTY, run).clients
    ensures var h := End(EMPTY, run); var k := h.clients[c];
      && (c in h.closing ==> c !in h.registered)
      && k.closes == (if c in h.registered || c in h.closing then 0 else 1)
      && k.taken + k.queue == k.queued
      && |k.queue| <= SEND_CAPACITY
      && k.queued != [] && k.queued[0] == Connected
      && (c in h.registered ==> (k.queued == Msgs(k.visits) <==> !BeingRemoved(c, h.rounds)))
  {
    hide Apply, Enabled, BeingRemoved;
    RunKeepsInv(EMPTY, run);
    var h := End(EMPTY, run);
    assert Good(h.clients[c], c, h);
    MsgsLength(h.clients[c].visits);
  }

  /** No broadcast is queued to a client twice, in whatever order broadcasts overtake each other. */
  lemma AtMostOnce(run: seq<Action>, c: nat, i: nat, j: nat)
    requires IsRun(EMPTY, run) && c in End(EMPTY, run).clients
    requires i < j < |End(EMPTY, run).clients[c].queued|
    ensures var queued := End(EMPTY, run).clients[c].queued; queued[i] != queued[j]
  {
    hide Apply, Enabled;
    RunKeepsInv(EMPTY, run);
    var h := End(EMPTY, run);
    assert Good(h.clients[c], c, h);
    OnceApart(h.clients[c].queued, h.clients[c].visits, i, j);
  }

  lemma {:induction false} OnceApart(queued: seq<Msg>, visits: seq<nat>, i: nat, j: nat)
    requires Once(queued, visits) && i < j < |queued|
    ensures queued[i] != queued[j]
  {
    var front := queued[..|queued| - 1];
    if j < |front| {
      OnceApart(front, visits, i, j);
    } else {
      assert front[i] in front;
    }
  }

  /** A client is only ever found full while 16 messages wait and it has not been closed. */
  lemma FoundFullOnlyIf(run: seq<Action>, b: nat, c: nat)
    requires IsRun(EMPTY, run) && Enabled(End(EMPTY, run), Visit(b, c, FindsFull))
    ensures |End(EMPTY, run).clients[c].queue| == 16
    ensures c in End(EMPTY, run).registered || c in End(EMPTY, run).closing
  {
    RunKeepsInv(EMPTY, run);
    var h := End(EMPTY, run);
    assert Good(h.clients[c], c, h);
    hide Good, End, IsRun;
  }

  predicate Finished(r: Round) {
    r.pending == {} && r.removing == None
  }

  /**
   * A broadcast that is over has been queued to every client it copied that is still registered, and to every other
   * that was neither closed nor found full.
   */
  lemma BroadcastReaches(run: seq<Action>, b: nat, c: nat)
    requires IsRun(EMPTY, run) && b < |End(EMPTY, run).rounds|
    requires c in End(EMPTY, run).rounds[b].snapshot && Finished(End(EMPTY, run).rounds[b])
    ensures var h := End(EMPTY, run);
      && c in h.clients
      && (c in h.registered ==> Broadcast(b) in h.clients[c].queued)
      && (Broadcast(b) in h.clients[c].queued || h.clients[c].closes > 0 || h.clients[c].condemned)
  {
    hide Apply, Enabled;
    RunKeepsInv(EMPTY, run);
    var h := End(EMPTY, run);
    assert c in h.clients.Keys;
    assert Good(h.clients[c], c, h);
  }

  lemma {:induction false} CopyStays(h: Hub, run: seq<Action>, b: nat)
    requires IsRun(h, run) && b < |h.rounds|
    ensures b < |End(h, run).rounds| && End(h, run).rounds[b].snapshot == h.rounds[b].snapshot
    decreases run
  {
    if run != [] {
      CopyStaysOnce(h, run[0], b);
      hide Apply, Enabled;
      CopyStays(Apply(h, run[0]), run[1..], b);
    }
  }

  lemma CopyStaysOnce(h: Hub, a: Action, b: nat)
    requires Enabled(h, a) && b < |h.rounds|
    ensures b < |Apply(h, a).rounds| && Apply(h, a).rounds[b].snapshot == h.rounds[b].snapshot
  {
  }

  /** From start to end: whoever is registered when a broadcast starts and still is when it is over has been sent it. */
  lemma BroadcastReachesAll(before: seq<Action>, after: seq<Action>, c: nat)
    requires IsRun(EMPTY, before) && c in End(EMPTY, before).registered
    requires IsRun(Apply(End(EMPTY, before), StartBroadcast), after)
    requires var g := End(Apply(End(EMPTY, before), StartBroadcast), after);
      var b := |End(EMPTY, before).rounds|; b < |g.rounds| && Finished(g.rounds[b])
    ensures var g := End(Apply(End(EMPTY, before), StartBroadcast), after);
      c in g.registered ==> c in g.clients && Broadcast(|End(EMPTY, before).rounds|) in g.clients[c].queued
  {
    var h := End(EMPTY, before);
    var started := Apply(h, StartBroadcast);
    assert started.rounds[|h.rounds|].snapshot == h.registered;
    CopyStays(started, after, |h.rounds|);
    RunKeepsInv(EMPTY, before);
    StepKeepsInv(h, StartBroadcast);
    RunKeepsInv(started, after);
    var g := End(started, after);
    hide Apply, Enabled, End, IsRun;
    if c in g.registered {
      assert c in g.clients.Keys;
      assert Good(g.clients[c], c, g);
    }
  }

  lemma {:induction false} StaysRemoved(h: Hub, run: seq<Action>, c: nat)
    requires IsRun(h, run) && c in h.clients && c !in h.registered
    ensures c in End(h, run).clients && c !in End(h, run).registered
    decreases run
  {
    if run != [] {
      assert c in Apply(h, run[0]).clients && c !in Apply(h, run[0]).registered;
      hide Apply, Enabled;
      StaysRemoved(Apply(h, run[0]), run[1..], c);
    }
  }

  /** Whom remove has been called for is off the map for good. */
  lemma RemovedForGood(h: Hub, run: seq<Action>, c: nat)
    requires Enabled(h, BeginRemove(c)) && IsRun(Apply(h, BeginRemove(c)), run)
    ensures c !in End(Apply(h, BeginRemove(c)), run).registered
  {
    assert c in Apply(h, BeginRemove(c)).clients && c !in Apply(h, BeginRemove(c)).registered;
    StaysRemoved(Apply(h, BeginRemove(c)), run, c);
  }

  /** How many steps of its own a broadcast can still take. */
  function Remaining(r: Round): nat {
    2 * |r.pending| + if r.removing.Some? then 1 else 0
  }

  /** A broadcaster is never blocked: until it is done it has a step to take, and the step brings it nearer the end. */
  lemma NeverBlocks(run: seq<Action>, b: nat) returns (a: Action)
    requires IsRun(EMPTY, run) && b < |End(EMPTY, run).rounds| && !Finished(End(EMPTY, run).rounds[b])
    ensures a.Visit? || a.Removes?
    ensures a.b == b && Enabled(End(EMPTY, run), a)
    ensures b < |Apply(End(EMPTY, run), a).rounds|
    ensures Remaining(Apply(End(EMPTY, run), a).rounds[b]) < Remaining(End(EMPTY, run).rounds[b])
  {
    hide Apply, Enabled, Remaining;
    RunKeepsInv(EMPTY, run);
    a := ReadyStep(End(EMPTY, run), b);
  }

  lemma ReadyStep(h: Hub, b: nat) returns (a: Action)
    requires Inv(h) && b < |h.rounds| && !Finished(h.rounds[b])
    ensures a.Visit? || a.Removes?
    ensures a.b == b && Enabled(h, a) && b < |Apply(h, a).rounds|
    ensures Remaining(Apply(h, a).rounds[b]) < Remaining(h.rounds[b])
  {
    hide Good;
    var r := h.rounds[b];
    if r.removing.Some? {
      a := Removes(b);
    } else {
      var c :| c in r.pending;
      assert c in h.clients.Keys;
      var k := h.clients[c];
      a := Visit(b, c, if |k.queue| < SEND_CAPACITY then Sends else if k.closes > 0 then Skips else FindsFull);
      assert |r.pending - {c}| == |r.pending| - 1;
    }
  }

  // ----- A gap

  lemma {:induction false} RunThen(h: Hub, run: seq<Action>, more: seq<Action>)
    requires IsRun(h, run) && IsRun(End(h, run), more)
    ensures IsRun(h, run + more) && End(h, run + more) == End(End(h, run), more)
    decreases run
  {
    hide Apply, Enabled;
    if run == [] {
      assert run + more == more;
    } else {
      assert (run + more)[0] == run[0] && (run + more)[1..] == run[1..] + more;
      RunThen(Apply(h, run[0]), run[1..], more);
    }
  }

  lemma TwoSteps(h: Hub, a: Action, b: Action)
    requires Enabled(h, a) && Enabled(Apply(h, a), b)
    ensures IsRun(h, [a, b]) && End(h, [a, b]) == Apply(Apply(h, a), b)
  {
    hide Apply, Enabled;
    var run := [a, b];
    assert run[1..] == [b] && [b][1..] == [];
    assert IsRun(Apply(h, a), [b]) && End(Apply(h, a), [b]) == Apply(Apply(h, a), b);
  }

  /** A hub with one client. */
  function Single(k: Client, rounds: seq<Round>): Hub {
    Hub(map[0 := k], {0}, {}, rounds)
  }

  function Upto(n: nat): seq<nat> {
    if n == 0 then [] else Upto(n - 1) + [n - 1]
  }

  function DoneRounds(n: nat): seq<Round> {
    if n == 0 then [] else DoneRounds(n - 1) + [Round({0}, {}, None)]
  }

  /** One client, nothing taken from its queue, and n broadcasts that have reached it. */
  function Filled(n: nat): Hub {
    Single(Client(Msgs(Upto(n)), Msgs(Upto(n)), [], Upto(n), 0, false), DoneRounds(n))
  }

  lemma {:induction false} FilledSizes(n: nat)
    ensures |Upto(n)| == |DoneRounds(n)| == n && |Msgs(Upto(n))| == n + 1
  {
    if n > 0 {
      FilledSizes(n - 1);
    }
    MsgsLength(Upto(n));
  }

  /** A broadcast finds room in the queue of the only client. */
  lemma FindsRoom(k: Client, rounds: seq<Round>, b: nat)
    requires |rounds| == b && |k.queue| < SEND_CAPACITY
    ensures var h := Single(k, rounds); var reached := Queue(k.(visits := k.visits + [b]), Broadcast(b));
      && Enabled(h, StartBroadcast)
      && Enabled(Apply(h, StartBroadcast), Visit(b, 0, Sends))
      && Apply(Apply(h, StartBroadcast), Visit(b, 0, Sends)) == Single(reached, rounds + [Round({0}, {}, None)])
  {
    assert {0} - {0} == {};
  }

  lemma FillOne(n: nat)
    requires n + 1 < SEND_CAPACITY
    ensures Enabled(Filled(n), StartBroadcast)
    ensures Enabled(Apply(Filled(n), StartBroadcast), Visit(n, 0, Sends))
    ensures Apply(Apply(Filled(n), StartBroadcast), Visit(n, 0, Sends)) == Filled(n + 1)
  {
    FilledSizes(n);
    assert Upto(n + 1)[..n] == Upto(n);
    hide Apply, Enabled;
    FindsRoom(Client(Msgs(Upto(n)), Msgs(Upto(n)), [], Upto(n), 0, false), DoneRounds(n), n);
  }

  lemma {:induction false} Fill(n: nat) returns (run: seq<Action>)
    requires n < SEND_CAPACITY
    ensures IsRun(EMPTY, run) && End(EMPTY, run) == Filled(n)
  {
    if n == 0 {
      run := [Add(0)];
      assert run[1..] == [];
      assert Upto(0) == [] && Msgs([]) == [Connected];
      assert IsRun(Apply(EMPTY, Add(0)), []) && End(Apply(EMPTY, Add(0)), []) == Filled(0);
    } else {
      var front := Fill(n - 1);
      hide Apply, Enabled, Filled;
      FillOne(n - 1);
      TwoSteps(Filled(n - 1), StartBroadcast, Visit(n - 1, 0, Sends));
      RunThen(EMPTY, front, [StartBroadcast, Visit(n - 1, 0, Sends)]);
      run := front + [StartBroadcast, Visit(n - 1, 0, Sends)];
    }
  }

  lemma {:induction false} OnlyEarlier(n: nat, b: nat)
    requires b >= n
    ensures Broadcast(b) !in Msgs(Upto(n))
  {
    if n > 0 {
      assert Upto(n)[..n - 1] == Upto(n - 1) by {
        FilledSizes(n - 1);
      }
      FilledSizes(n);
      OnlyEarlier(n - 1, b);
    } else {
      assert Msgs(Upto(0)) == [Connected];
    }
  }

  /** Client 0 is registered, broadcast 15 visited it in vain, and a later one has been queued. */
  predicate HasGap(h: Hub) {
    && 0 in h.clients && 0 in h.registered && BeingRemoved(0, h.rounds)
    && 15 in h.clients[0].visits && 16 in h.clients[0].visits
    && Broadcast(15) !in h.clients[0].queued && Broadcast(16) in h.clients[0].queued
  }

  /** A broadcast finds the queue of the only client full. */
  lemma FindsItFull(k: Client, rounds: seq<Round>, b: nat)
    requires |rounds| == b && |k.queue| >= SEND_CAPACITY && k.closes == 0
    ensures var h := Single(k, rounds); var found := k.(visits := k.visits + [b], condemned := true);
      && Enabled(h, StartBroadcast)
      && Enabled(Apply(h, StartBroadcast), Visit(b, 0, FindsFull))
      && Apply(Apply(h, StartBroadcast), Visit(b, 0, FindsFull)) == Single(found, rounds + [Round({0}, {}, Some(0))])
  {
    assert {0} - {0} == {};
  }

  /** The writer takes a message, and the next broadcast starts. */
  lemma MakesRoom(k: Client, rounds: seq<Round>)
    requires k.queue != []
    ensures var h := Single(k, rounds);
      var room := k.(queue := k.queue[1..], taken := k.taken + [k.queue[0]]);
      && Enabled(h, Take(0))
      && Enabled(Apply(h, Take(0)), StartBroadcast)
      && Apply(Apply(h, Take(0)), StartBroadcast) == Single(room, rounds + [Round({0}, {0}, None)])
  {
  }

  lemma ReachesIt(k: Client, rounds: seq<Round>, b: nat)
    requires b < |rounds| && rounds[b] == Round({0}, {0}, None) && |k.queue| < SEND_CAPACITY
    ensures var h := Single(k, rounds);
      && Enabled(h, Visit(b, 0, Sends))
      && Apply(h, Visit(b, 0, Sends))
         == Single(Queue(k.(visits := k.visits + [b]), Broadcast(b)), rounds[b := Round({0}, {}, None)])
  {
    assert {0} - {0} == {};
  }

  lemma Extend(run: seq<Action>, h: Hub, a: Action, b: Action) returns (longer: seq<Action>)
    requires IsRun(EMPTY, run) && End(EMPTY, run) == h
    requires Enabled(h, a) && Enabled(Apply(h, a), b)
    ensures IsRun(EMPTY, longer) && End(EMPTY, longer) == Apply(Apply(h, a), b)
  {
    hide Apply, Enabled;
    TwoSteps(h, a, b);
    RunThen(EMPTY, run, [a, b]);
    longer := run + [a, b];
  }

  /** So in some run a registered client misses a broadcast that visited it, while it is being removed. */
  lemma GapWhileBeingRemoved() returns (run: seq<Action>)
    ensures IsRun(EMPTY, run) && HasGap(End(EMPTY, run))
  {
    run := Fill(15);
    FilledSizes(15);
    var k, rounds := Client(Msgs(Upto(15)), Msgs(Upto(15)), [], Upto(15), 0, false), DoneRounds(15);
    hide *;
    IsFilled(15);
    FindsItFull(k, rounds, 15);
    run := Extend(run, Single(k, rounds), StartBroadcast, Visit(15, 0, FindsFull));
    var found, more := k.(visits := k.visits + [15], condemned := true), rounds + [Round({0}, {}, Some(0))];
    MakesRoom(found, more);
    run := Extend(run, Single(found, more), Take(0), StartBroadcast);
    var room := found.(queue := found.queue[1..], taken := found.taken + [found.queue[0]]);
    var last := more + [Round({0}, {0}, None)];
    ReachesIt(room, last, 16);
    OneStep(Single(room, last), Visit(16, 0, Sends));
    RunThen(EMPTY, run, [Visit(16, 0, Sends)]);
    run := run + [Visit(16, 0, Sends)];
    OnlyEarlier(15, 15);
    MissesOne(Queue(room.(visits := room.visits + [16]), Broadcast(16)), last[16 := Round({0}, {}, None)]);
  }

  lemma IsFilled(n: nat)
    ensures Filled(n) == Single(Client(Msgs(Upto(n)), Msgs(Upto(n)), [], Upto(n), 0, false), DoneRounds(n))
  {
  }

  lemma MissesOne(k: Client, rounds: seq<Round>)
    requires |rounds| > 15 && rounds[15].removing == Some(0)
    requires k.visits == Upto(15) + [15] + [16] && k.queued == Msgs(Upto(15)) + [Broadcast(16)]
    requires Broadcast(15) !in Msgs(Upto(15))
    ensures HasGap(Single(k, rounds))
  {
    hide Msgs, Upto;
  }

  lemma OneStep(h: Hub, a: Action)
    requires Enabled(h, a)
    ensures IsRun(h, [a]) && End(h, [a]) == Apply(h, a)
  {
    hide Apply, Enabled;
    assert [a][1..] == [];
    assert IsRun(Apply(h, a), []) && End(Apply(h, a), []) == Apply(h, a);
  }
}
