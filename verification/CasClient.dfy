/**
  The compare-and-exchange client of example/atomic/client.cc against the register
  map of example/atomic/server.cc, over a channel that may lose, delay and repeat.

  The client treats one kind of reply as impossible and then exits. The module
  proves exactly when it is impossible: when no client starts on a negative value.
*/
module CasClient {
  import opened Decimal
  import opened AtomicServer

  // ----- One client

  /** How one turn of the sender loop ends. A redirect is a reply without an old value. */
  datatype Outcome = NoLeader | Failed | Redirected | Answered(response: Response)

  datatype Reaction = Continue(value: int64) | Exit

  /** What the loop does with the outcome of a call. */
  function React(value: int64, outcome: Outcome): Reaction {
    match outcome
    case NoLeader => Continue(value)
    case Failed => Continue(value)
    case Redirected => Continue(value)
    case Answered(r) =>
      if r.success then Continue(r.newValue)
      else if value == 0 || r.oldValue == value + 1 then Continue(r.oldValue)
      else Exit
  }

  /** What an answer tells about the register. */
  function Told(r: Response): int64 {
    if r.success then r.newValue else r.oldValue
  }

  /** What a client that has heard these outcomes knows: what the last answer told, 0 before any. */
  function Known(outcomes: seq<Outcome>): int64 {
    if outcomes == [] then 0
    else if outcomes[|outcomes| - 1].Answered? then Told(outcomes[|outcomes| - 1].response)
    else Known(outcomes[..|outcomes| - 1])
  }

  /** Turn k brings a mismatch that is neither the first answer nor one above what was known. */
  predicate Surprising(outcomes: seq<Outcome>, k: nat)
    requires k < |outcomes|
  {
    && outcomes[k].Answered? && !outcomes[k].response.success
    && Known(outcomes[..k]) != 0 && outcomes[k].response.oldValue != Known(outcomes[..k]) + 1
  }

  /** No turn with a leader starts from the largest value, past which incrementing is undefined. */
  ghost predicate Incrementable(outcomes: seq<Outcome>) {
    forall k :: 0 <= k < |outcomes| && !outcomes[k].NoLeader? ==> Known(outcomes[..k]) < INT64_MAX
  }

  function IncrementRequest(id: int64, value: int64): Request
    requires value < INT64_MAX
  {
    CompareExchange(id, value, value + 1)
  }

  /** One request per turn that found a leader, to raise what is known then by one. */
  ghost function Increments(id: int64, outcomes: seq<Outcome>): seq<Request>
    requires Incrementable(outcomes)
  {
    if outcomes == [] then []
    else
      var n := |outcomes| - 1;
      assert forall k :: 0 <= k < n ==> outcomes[..n][..k] == outcomes[..k];
      Increments(id, outcomes[..n]) +
      if outcomes[n].NoLeader? then [] else [IncrementRequest(id, Known(outcomes[..n]))]
  }

  /**
    What a sender does with the outcomes of its turns: it sends the increments, goes
    on until the first surprising answer and exits there, and otherwise ends with
    what it knows.
  */
  ghost predicate IsSender(id: int64, outcomes: seq<Outcome>, turns: nat, requests: seq<Request>, end: Reaction) {
    && turns <= |outcomes| && Incrementable(outcomes[..turns])
    && requests == Increments(id, outcomes[..turns])
    && match end
       case Continue(value) =>
         && turns == |outcomes| && value == Known(outcomes)
         && (forall k :: 0 <= k < turns ==> !Surprising(outcomes, k))
       case Exit =>
         && turns > 0 && Surprising(outcomes, turns - 1)
         && (forall k :: 0 <= k < turns - 1 ==> !Surprising(outcomes, k))
  }

  lemma TurnTaken(id: int64, outcomes: seq<Outcome>, i: nat)
    requires i < |outcomes| && Incrementable(outcomes)
    ensures Incrementable(outcomes[..i]) && Incrementable(outcomes[..i + 1])
    ensures Increments(id, outcomes[..i + 1]) == Increments(id, outcomes[..i]) +
            if outcomes[i].NoLeader? then [] else [IncrementRequest(id, Known(outcomes[..i]))]
    ensures Known(outcomes[..i + 1]) ==
            if outcomes[i].Answered? then Told(outcomes[i].response) else Known(outcomes[..i])
  {
    assert forall k :: 0 <= k < i ==> outcomes[..i][..k] == outcomes[..k];
    assert forall k :: 0 <= k <= i ==> outcomes[..i + 1][..k] == outcomes[..k];
  }

  /** The turns so far brought no surprise: the sender has sent the increments and goes on with what it knows. */
  ghost predicate Sending(id: int64, outcomes: seq<Outcome>, turns: nat, requests: seq<Request>, value: int64) {
    && turns <= |outcomes| && Incrementable(outcomes[..turns])
    && requests == Increments(id, outcomes[..turns])
    && value == Known(outcomes[..turns])
    && (forall k :: 0 <= k < turns ==> !Surprising(outcomes, k))
  }

  /** One turn: whatever the outcome, the loop goes on or exits as it should. */
  lemma SendingNext(id: int64, outcomes: seq<Outcome>, turns: nat, requests: seq<Request>, value: int64)
    requires Incrementable(outcomes) && Sending(id, outcomes, turns, requests, value) && turns < |outcomes|
    ensures var o := outcomes[turns];
            && (o.NoLeader? ==> Sending(id, outcomes, turns + 1, requests, value))
            && (!o.NoLeader? ==>
                  && value < INT64_MAX
                  && var sent := requests + [IncrementRequest(id, value)];
                     match React(value, o)
                     case Continue(v) => Sending(id, outcomes, turns + 1, sent, v)
                     case Exit => IsSender(id, outcomes, turns + 1, sent, Exit))
  {
    TurnTaken(id, outcomes, turns);
    assert requests + [] == requests;
  }

  /** The sender loop, driven by the outcomes of its turns. */
  method Sender(id: int64, outcomes: seq<Outcome>) returns (turns: nat, requests: seq<Request>, end: Reaction)
    requires Incrementable(outcomes)
    ensures IsSender(id, outcomes, turns, requests, end)
  {
    var value: int64 := 0;
    turns, requests := 0, [];
    while turns < |outcomes|
      invariant Sending(id, outcomes, turns, requests, value)
    {
      SendingNext(id, outcomes, turns, requests, value);
      var outcome := outcomes[turns];
      turns := turns + 1;
      if outcome.NoLeader? {
        continue;
      }
      requests := requests + [CompareExchange(id, value, value + 1)];
      var reaction := React(value, outcome);
      if reaction.Exit? {
        return turns, requests, Exit;
      }
      value := reaction.value;
    }
    assert outcomes[..turns] == outcomes;
    end := Continue(value);
  }

  // ----- The whole system

  /**
    One client thread; `calls` numbers its remote calls. The requests it has sent
    and the outcomes of its finished turns are recorded.
  */
  datatype Client = Client(value: int64, calls: nat, waiting: bool, exited: bool,
                           requests: seq<Request>, outcomes: seq<Outcome>)

  /** A request of call number `call` of the client of id `id`. */
  datatype Message = Message(id: int64, call: nat, request: Request)

  datatype Reply = Reply(id: int64, call: nat, response: Response)

  /** Messages and replies stay in their sets, so each can be used late, repeatedly or never. */
  datatype State = State(store: ValueMap, clients: map<int64, Client>, sent: set<Message>, replies: set<Reply>)

  /** One client per id, all started, nothing sent; the registers hold anything. */
  predicate Initial(s: State) {
    && (forall id :: id in s.clients ==> s.clients[id] == Client(0, 0, false, false, [], []))
    && s.sent == {} && s.replies == {}
  }

  datatype Step =
    | FindNoLeader(id: int64)
    | Send(id: int64)
    | Apply(message: Message)
    | Deliver(reply: Reply)
    | GiveUp(id: int64, outcome: Outcome)
    | Other(request: Request)

  predicate Enabled(s: State, step: Step) {
    match step
    case FindNoLeader(id) => id in s.clients && !s.clients[id].waiting && !s.clients[id].exited
    case Send(id) =>
      id in s.clients && !s.clients[id].waiting && !s.clients[id].exited && s.clients[id].value < INT64_MAX
    case Apply(m) => m in s.sent
    case Deliver(r) =>
      r in s.replies && r.id in s.clients && s.clients[r.id].waiting && r.call == s.clients[r.id].calls
    case GiveUp(id, o) => id in s.clients && s.clients[id].waiting && (o.Failed? || o.Redirected?)
    // Anyone may read, and may write registers that no client of this kind uses.
    case Other(r) => r.Get? || r.id !in s.clients
  }

  function Finish(c: Client, outcome: Outcome): Client {
    var d := c.(waiting := false, outcomes := c.outcomes + [outcome]);
    match React(c.value, outcome)
    case Continue(v) => d.(value := v)
    case Exit => d.(exited := true)
  }

  function Next(s: State, step: Step): State
    requires Enabled(s, step)
  {
    match step
    case FindNoLeader(id) => s.(clients := s.clients[id := Finish(s.clients[id], NoLeader)])
    case Send(id) =>
      var c := s.clients[id];
      var r := IncrementRequest(id, c.value);
      s.(clients := s.clients[id := c.(calls := c.calls + 1, waiting := true, requests := c.requests + [r])],
         sent := s.sent + {Message(id, c.calls + 1, r)})
    case Apply(m) =>
      var (store, response) := Execute(s.store, m.request);
      s.(store := store, replies := s.replies + {Reply(m.id, m.call, response)})
    case Deliver(r) =>
      s.(clients := s.clients[r.id := Finish(s.clients[r.id], Answered(r.response))])
    case GiveUp(id, o) =>
      s.(clients := s.clients[id := Finish(s.clients[id], o)])
    case Other(r) => s.(store := Execute(s.store, r).0)
  }

  /** Every state of a run of the system. */
  ghost predicate IsRun(states: seq<State>) {
    && states != []
    && (forall j, k {:trigger Follows(states[j], states[k])} ::
          0 <= j && k == j + 1 < |states| ==> Follows(states[j], states[k]))
  }

  ghost predicate Follows(s: State, t: State) {
    exists step :: Enabled(s, step) && t == Next(s, step)
  }

  ghost predicate Reaches(s: State, t: State) {
    exists states :: IsRun(states) && states[0] == s && states[|states| - 1] == t
  }

  // ----- The clients are senders

  /** What is in the network for an id is what its client has sent, by call number. */
  ghost predicate Sent(sent: set<Message>, id: int64, requests: seq<Request>) {
    && (forall m :: m in sent && m.id == id ==> 1 <= m.call <= |requests| && m.request == requests[m.call - 1])
    && (forall k, call {:trigger requests[k], Message(id, call, requests[k])} ::
          0 <= k && call == k + 1 <= |requests| ==> Message(id, call, requests[k]) in sent)
  }

  /** The client is where the sender loop leads with its outcomes, plus one request while it waits. */
  ghost predicate DoneAsSender(c: Client, id: int64) {
    && (c.waiting ==> !c.exited && c.value < INT64_MAX)
    && var last := if c.waiting then [IncrementRequest(id, c.value)] else [];
    && Incrementable(c.outcomes)
    && c.requests == Increments(id, c.outcomes) + last
    && IsSender(id, c.outcomes, |c.outcomes|, Increments(id, c.outcomes), if c.exited then Exit else Continue(c.value))
  }

  ghost predicate SenderOk(s: State, id: int64) {
    && id in s.clients
    && var c := s.clients[id];
    && c.calls == |c.requests|
    && Sent(s.sent, id, c.requests)
    && DoneAsSender(c, id)
  }

  lemma SentMore(sent: set<Message>, id: int64, requests: seq<Request>, r: Request)
    requires Sent(sent, id, requests)
    ensures Sent(sent + {Message(id, |requests| + 1, r)}, id, requests + [r])
  {
  }

  lemma SentOther(sent: set<Message>, id: int64, requests: seq<Request>, m: Message)
    requires Sent(sent, id, requests) && m.id != id
    ensures Sent(sent + {m}, id, requests)
  {
  }

  lemma SendKeepsSender(s: State, g: int64, id: int64)
    requires SenderOk(s, id) && Enabled(s, Send(g))
    ensures SenderOk(Next(s, Send(g)), id)
  {
    var c := s.clients[g];
    var r := IncrementRequest(g, c.value);
    if g == id {
      SentMore(s.sent, id, c.requests, r);
      assert c.requests + [] == c.requests;
    } else {
      SentOther(s.sent, id, s.clients[id].requests, Message(g, c.calls + 1, r));
    }
  }

  lemma LongerIncrements(id: int64, outcomes: seq<Outcome>, o: Outcome)
    requires Incrementable(outcomes) && (o.NoLeader? || Known(outcomes) < INT64_MAX)
    ensures Incrementable(outcomes + [o])
    ensures Increments(id, outcomes + [o]) == Increments(id, outcomes) +
            if o.NoLeader? then [] else [IncrementRequest(id, Known(outcomes))]
    ensures Known(outcomes + [o]) == if o.Answered? then Told(o.response) else Known(outcomes)
  {
    var n, longer := |outcomes|, outcomes + [o];
    assert forall k :: 0 <= k < n ==> longer[..k] == outcomes[..k];
    assert longer[..n] == outcomes && longer[..n + 1] == longer;
    TurnTaken(id, longer, n);
  }

  lemma SameSurprises(outcomes: seq<Outcome>, o: Outcome, k: nat)
    requires k < |outcomes|
    ensures Surprising(outcomes + [o], k) == Surprising(outcomes, k)
  {
    assert (outcomes + [o])[..k] == outcomes[..k];
  }

  /** One more turn of the sender loop. */
  lemma SenderNext(id: int64, outcomes: seq<Outcome>, value: int64, o: Outcome)
    requires Incrementable(outcomes) && (o.NoLeader? || value < INT64_MAX)
    requires IsSender(id, outcomes, |outcomes|, Increments(id, outcomes), Continue(value))
    ensures Incrementable(outcomes + [o])
    ensures IsSender(id, outcomes + [o], |outcomes + [o]|, Increments(id, outcomes + [o]), React(value, o))
  {
    var n, longer := |outcomes|, outcomes + [o];
    LongerIncrements(id, outcomes, o);
    assert longer[..n] == outcomes && longer[..n + 1] == longer;
    forall k | 0 <= k < n ensures !Surprising(longer, k) {
      SameSurprises(outcomes, o, k);
    }
  }

  lemma FinishKeepsDone(c: Client, id: int64, o: Outcome)
    requires DoneAsSender(c, id) && !c.exited && (if o.NoLeader? then !c.waiting else c.waiting)
    ensures DoneAsSender(Finish(c, o), id)
  {
    SenderNext(id, c.outcomes, c.value, o);
    LongerIncrements(id, c.outcomes, o);
  }

  lemma FinishKeepsSender(s: State, t: State, id: int64, o: Outcome)
    requires SenderOk(s, id) && !s.clients[id].exited
    requires if o.NoLeader? then !s.clients[id].waiting else s.clients[id].waiting
    requires t == s.(clients := s.clients[id := Finish(s.clients[id], o)])
    ensures SenderOk(t, id)
  {
    FinishKeepsDone(s.clients[id], id, o);
  }

  /** Each client stays where the sender loop leads, whoever steps. */
  lemma StepKeepsSender(s: State, step: Step, id: int64)
    requires SenderOk(s, id) && Enabled(s, step)
    ensures SenderOk(Next(s, step), id)
  {
    match step
    case Send(g) => SendKeepsSender(s, g, id);
    case FindNoLeader(g) => if g == id { FinishKeepsSender(s, Next(s, step), id, NoLeader); }
    case GiveUp(g, o) => if g == id { FinishKeepsSender(s, Next(s, step), id, o); }
    case Deliver(r) => if r.id == id { FinishKeepsSender(s, Next(s, step), id, Answered(r.response)); }
    case _ =>
  }

  lemma {:induction false} RunKeepsSender(states: seq<State>, k: nat, id: int64)
    requires IsRun(states) && SenderOk(states[0], id) && k < |states|
    ensures SenderOk(states[k], id)
  {
    if k > 0 {
      RunKeepsSender(states, k - 1, id);
      assert Follows(states[k - 1], states[k]);
      var step :| Enabled(states[k - 1], step) && states[k] == Next(states[k - 1], step);
      StepKeepsSender(states[k - 1], step, id);
    }
  }

  lemma {:induction false} SameClients(states: seq<State>, k: nat)
    requires IsRun(states) && k < |states|
    ensures states[k].clients.Keys == states[0].clients.Keys
  {
    if k > 0 {
      SameClients(states, k - 1);
      assert Follows(states[k - 1], states[k]);
    }
  }

  /**
    In every run each client is where the sender loop ends with the outcomes it was
    given, and the requests ever sent for its id are those of that loop.
  */
  lemma ClientsAreSenders(s: State, t: State, id: int64)
    requires Initial(s) && Reaches(s, t) && id in t.clients
    ensures DoneAsSender(t.clients[id], id) && Sent(t.sent, id, t.clients[id].requests)
  {
    var states :| IsRun(states) && states[0] == s && states[|states| - 1] == t;
    SameClients(states, |states| - 1);
    RunKeepsSender(states, |states| - 1, id);
  }

  lemma {:induction false} ChannelGrows(states: seq<State>, j: nat, k: nat)
    requires IsRun(states) && j <= k < |states|
    ensures states[j].sent <= states[k].sent && states[j].replies <= states[k].replies
    decreases k
  {
    if j < k {
      ChannelGrows(states, j, k - 1);
      assert Follows(states[k - 1], states[k]);
    }
  }

  /**
    What the channel may do: a request once sent can be applied at any later time, a
    reply once given can be delivered whenever its call is the one a client waits for,
    and a call can also fail or be redirected.
  */
  lemma ChannelAllows(states: seq<State>, j: nat, k: nat, m: Message, r: Reply)
    requires IsRun(states) && j <= k < |states|
    ensures m in states[j].sent ==> Enabled(states[k], Apply(m))
    ensures r in states[j].replies && r.id in states[k].clients && states[k].clients[r.id].waiting ==>
              && (r.call == states[k].clients[r.id].calls ==> Enabled(states[k], Deliver(r)))
              && Enabled(states[k], GiveUp(r.id, Failed)) && Enabled(states[k], GiveUp(r.id, Redirected))
  {
    ChannelGrows(states, j, k);
  }

  // ----- Safety

  /** The client has caught up with its register: the register holds its value or one more. */
  predicate InStep(v: int64, stored: int64) {
    stored == v || stored == v + 1
  }

  /**
    The invariant for one client. Before its first answered call it may still be
    at zero below a register that holds more than one.
  */
  ghost predicate ClientOk(s: State, id: int64)
    requires id in s.clients
  {
    var c, stored := s.clients[id], ValueOf(s.store, id);
    && !c.exited
    && 0 <= c.value
    && (InStep(c.value, stored) || (c.value == 0 && stored > 1))
    && (forall m :: m in s.sent && m.id == id ==> MessageOk(c, id, m))
    && (forall r :: r in s.replies && r.id == id ==> ReplyOk(c, stored, r))
  }

  predicate MessageOk(c: Client, id: int64, m: Message) {
    && m.call <= c.calls
    && m.request.CompareExchange?
    && m.request.id == id
    && 0 <= m.request.expected <= c.value
    && m.request.newValue == m.request.expected + 1
    && (c.waiting && m.call == c.calls ==> m.request.expected == c.value)
  }

  /** A reply to the outstanding call reports a register that has moved past the client. */
  predicate ReplyOk(c: Client, stored: int64, r: Reply) {
    && r.call <= c.calls
    && (c.waiting && r.call == c.calls ==>
          if r.response.success then r.response.newValue == c.value + 1 == stored
          else r.response.oldValue == stored && stored != c.value)
  }

  ghost predicate Ok(s: State) {
    && (forall m :: m in s.sent ==> m.id in s.clients)
    && (forall id :: id in s.clients ==> ClientOk(s, id))
  }

  /** No register of a client starts negative. */
  ghost predicate NonNegativeStart(s: State) {
    forall id :: id in s.clients ==> ValueOf(s.store, id) >= 0
  }

  lemma InitialOk(s: State)
    requires Initial(s) && NonNegativeStart(s)
    ensures Ok(s)
  {
  }

  lemma ApplyKeepsClient(s: State, m: Message, id: int64)
    requires Ok(s) && m in s.sent && id in s.clients
    ensures ClientOk(Next(s, Apply(m)), id)
  {
  }

  lemma OtherKeepsClient(s: State, r: Request, id: int64)
    requires Ok(s) && Enabled(s, Other(r)) && id in s.clients
    ensures ClientOk(Next(s, Other(r)), id)
  {
  }

  lemma LocalKeepsClient(s: State, step: Step, id: int64)
    requires Ok(s) && Enabled(s, step) && id in s.clients && !step.Apply? && !step.Other?
    ensures ClientOk(Next(s, step), id)
  {
  }

  lemma StepKeepsOk(s: State, step: Step)
    requires Ok(s) && Enabled(s, step)
    ensures Ok(Next(s, step))
  {
    var t := Next(s, step);
    assert t.clients.Keys == s.clients.Keys by {
      assert step.Apply? ==> step.message.id in s.clients;
    }
    forall id | id in t.clients ensures ClientOk(t, id) {
      match step
      case Apply(m) => ApplyKeepsClient(s, m, id);
      case Other(r) => OtherKeepsClient(s, r, id);
      case _ => LocalKeepsClient(s, step, id);
    }
  }

  lemma {:induction false} RunKeepsOk(states: seq<State>, k: nat)
    requires IsRun(states) && Ok(states[0]) && k < |states|
    ensures Ok(states[k])
  {
    if k > 0 {
      RunKeepsOk(states, k - 1);
      assert Follows(states[k - 1], states[k]);
      var step :| Enabled(states[k - 1], step) && states[k] == Next(states[k - 1], step);
      StepKeepsOk(states[k - 1], step);
    }
  }

  /**
    Whatever is lost, delayed, repeated or redirected: from non-negative registers
    no client ever exits, and each register stays within one of its client's value
    once the client has caught up.
  */
  lemma ClientsNeverExit(s: State, t: State)
    requires Initial(s) && NonNegativeStart(s) && Reaches(s, t)
    ensures Ok(t)
    ensures forall id :: id in t.clients ==> !t.clients[id].exited
  {
    InitialOk(s);
    var states :| IsRun(states) && states[0] == s && states[|states| - 1] == t;
    RunKeepsOk(states, |states| - 1);
    forall id | id in t.clients ensures !t.clients[id].exited {
      assert ClientOk(t, id);
    }
  }

  /** Once a client has caught up with its register it stays so. */
  lemma StaysInStep(s: State, step: Step, id: int64)
    requires Ok(s) && Enabled(s, step) && id in s.clients
    requires InStep(s.clients[id].value, ValueOf(s.store, id))
    ensures id in Next(s, step).clients
    ensures InStep(Next(s, step).clients[id].value, ValueOf(Next(s, step).store, id))
  {
  }

  // ----- Negative registers do break it

  lemma ReachesSelf(s: State)
    ensures Reaches(s, s)
  {
    assert IsRun([s]);
  }

  lemma ReachesNext(s: State, t: State, step: Step)
    requires Reaches(s, t) && Enabled(t, step)
    ensures Reaches(s, Next(t, step))
  {
    var states :| IsRun(states) && states[0] == s && states[|states| - 1] == t;
    var u := Next(t, step);
    assert Follows(t, u);
    var longer := states + [u];
    forall j, k | 0 <= j && k == j + 1 < |longer| ensures Follows(longer[j], longer[k]) {
      if k < |states| {
        assert Follows(states[j], states[k]);
      }
    }
    assert IsRun(longer);
  }

  /** The first request of the client of `id`, still somewhere in the network. */
  function Stale(id: int64): Message {
    Message(id, 1, CompareExchange(id, 0, 1))
  }

  /** A caught-up idle client whose stale first request is still around. */
  predicate Idle(s: State, id: int64, v: int64) {
    && id in s.clients
    && s.clients[id].value == v
    && !s.clients[id].waiting
    && !s.clients[id].exited
    && ValueOf(s.store, id) == v
    && Stale(id) in s.sent
  }

  /** The first call learns a negative register; its request stays behind. */
  lemma LearnNegative(s: State, id: int64) returns (t: State)
    requires Initial(s) && id in s.clients && ValueOf(s.store, id) < 0
    ensures Reaches(s, t) && Idle(t, id, ValueOf(s.store, id))
  {
    ReachesSelf(s);
    var s1 := Next(s, Send(id));
    ReachesNext(s, s, Send(id));
    assert Stale(id) in s1.sent;
    var s2 := Next(s1, Apply(Stale(id)));
    ReachesNext(s, s1, Apply(Stale(id)));
    var r := Reply(id, 1, Execute(s1.store, Stale(id).request).1);
    t := Next(s2, Deliver(r));
    ReachesNext(s, s2, Deliver(r));
  }

  /** A successful call moves register and client up by one. */
  lemma CountUp(s: State, s0: State, id: int64, v: int64) returns (t: State)
    requires Reaches(s, s0) && Idle(s0, id, v) && v < 0
    ensures Reaches(s, t) && Idle(t, id, v + 1)
  {
    var m := Message(id, s0.clients[id].calls + 1, CompareExchange(id, v, v + 1));
    var s1 := Next(s0, Send(id));
    ReachesNext(s, s0, Send(id));
    assert m in s1.sent;
    var s2 := Next(s1, Apply(m));
    ReachesNext(s, s1, Apply(m));
    var r := Reply(id, m.call, Execute(s1.store, m.request).1);
    t := Next(s2, Deliver(r));
    ReachesNext(s, s2, Deliver(r));
  }

  lemma {:induction false} CountUpToMinusOne(s: State, s0: State, id: int64, v: int64) returns (t: State)
    requires Reaches(s, s0) && Idle(s0, id, v) && v < 0
    ensures Reaches(s, t) && Idle(t, id, -1)
    decreases -1 - v
  {
    if v == -1 {
      t := s0;
    } else {
      var s1 := CountUp(s, s0, id, v);
      t := CountUpToMinusOne(s, s1, id, v + 1);
    }
  }

  /**
    From -1: the call that moves the register to 0 times out, the stale first
    request then moves it to 1, and the retried call gets a reply the client
    considers impossible.
  */
  lemma StaleRequestBreaksClient(s: State, s0: State, id: int64) returns (t: State)
    requires Reaches(s, s0) && Idle(s0, id, -1)
    ensures Reaches(s, t) && id in t.clients && t.clients[id].exited
  {
    var n := s0.clients[id].calls;
    var m1 := Message(id, n + 1, CompareExchange(id, -1, 0));
    var s1 := Next(s0, Send(id));
    ReachesNext(s, s0, Send(id));
    assert m1 in s1.sent;
    var s2 := Next(s1, Apply(m1));
    ReachesNext(s, s1, Apply(m1));
    var s3 := Next(s2, Apply(Stale(id)));
    ReachesNext(s, s2, Apply(Stale(id)));
    assert ValueOf(s3.store, id) == 1;
    var s4 := Next(s3, GiveUp(id, Failed));
    ReachesNext(s, s3, GiveUp(id, Failed));
    var m2 := Message(id, n + 2, CompareExchange(id, -1, 0));
    var s5 := Next(s4, Send(id));
    ReachesNext(s, s4, Send(id));
    assert m2 in s5.sent;
    var s6 := Next(s5, Apply(m2));
    ReachesNext(s, s5, Apply(m2));
    var r := Reply(id, n + 2, Response(false, id, 1, 1));
    assert r in s6.replies;
    t := Next(s6, Deliver(r));
    ReachesNext(s, s6, Deliver(r));
  }

  /** The assert-and-exit branch is reachable exactly when some client's register starts negative. */
  lemma ExitReachableIff(s: State)
    requires Initial(s)
    ensures (exists t, id :: Reaches(s, t) && id in t.clients && t.clients[id].exited) <==> !NonNegativeStart(s)
  {
    if NonNegativeStart(s) {
      forall t, id | Reaches(s, t) && id in t.clients ensures !t.clients[id].exited {
        ClientsNeverExit(s, t);
      }
    } else {
      var id :| id in s.clients && ValueOf(s.store, id) < 0;
      var s1 := LearnNegative(s, id);
      var s2 := CountUpToMinusOne(s, s1, id, ValueOf(s.store, id));
      var t := StaleRequestBreaksClient(s, s2, id);
    }
  }
}
