/**
  Merging of profiling requests (melon/builtin/hotspots_service.cc).

  Requests for one kind of profile share one environment, protected by a mutex.
  The first request claims it and profiles; requests arriving meanwhile hand their
  controller and their `done` closure over to a queue and return; the claimer
  drains the queue when it is finished and completes everyone. The module models
  one environment and any number of concurrent request handlers, one atomic step
  per locked region or closure run.
*/
module Profiling {
  import opened Wrappers
  import opened Decimal

  /** A request handler, its controller and its `done` closure all go by the same number. */
  type Handler = nat

  /** Status code and attachment of a response. */
  datatype Page = Page(status: int, body: string)

  const HTTP_STATUS_OK := 200

  /** A response nothing has been written to. */
  const BLANK := Page(HTTP_STATUS_OK, "")

  datatype CachedResult = CachedResult(id: int64, page: Page)

  /** The fields of a ProfilingEnvironment; the client is represented by its id. */
  datatype Env = Env(curId: int64, client: Option<int64>, waiters: seq<Handler>, cached: Option<CachedResult>)

  /** The three ways out of the locked region of DoProfiling. */
  datatype Entry = Wait | Hit(page: Page) | Claim(id: int64)

  /** The next id: 0 is skipped because a request without an id carries 0. */
  function NextId(curId: int64): (id: int64)
    requires curId < INT64_MAX
    ensures curId < id != 0 && (id - 1 == curId || id - 1 == 0 == curId + 1)
  {
    if curId + 1 == 0 then 1 else curId + 1
  }

  /** Undefined behaviour of the counter aside, entering never fails. */
  predicate CanEnter(env: Env, profId: int64) {
    env.client.Some? || (env.cached.Some? && env.cached.value.id == profId) || env.curId < INT64_MAX
  }

  function Enter(env: Env, h: Handler, profId: int64): (Env, Entry)
    requires CanEnter(env, profId)
  {
    if env.client.Some? then (env.(waiters := env.waiters + [h]), Wait)
    else if env.cached.Some? && env.cached.value.id == profId then (env, Hit(env.cached.value.page))
    else
      var id := NextId(env.curId);
      (env.(curId := id, client := Some(id)), Claim(id))
  }

  /** The locked part of ConsumeWaiters: cache the owner's page, release the client, take the queue. */
  function Drain(env: Env, page: Page): (Env, seq<Handler>) {
    if env.client.None? then (env, [])
    else (Env(env.curId, None, [], Some(CachedResult(env.client.value, page))), env.waiters)
  }

  class ProfilingEnvironment {
    var curId: int64
    var client: Option<int64>
    var waiters: seq<Handler>
    var cached: Option<CachedResult>

    function View(): Env
      reads this
    {
      Env(curId, client, waiters, cached)
    }

    constructor ()
      ensures View() == Env(0, None, [], None)
    {
      curId, client, waiters, cached := 0, None, [], None;
    }

    /** The locked region of DoProfiling. */
    method DoProfilingLocked(h: Handler, profId: int64) returns (entry: Entry)
      requires CanEnter(View(), profId)
      modifies this
      ensures (View(), entry) == Enter(old(View()), h, profId)
    {
      if client.Some? {
        waiters := waiters + [h];
        return Wait;
      }
      if cached.Some? && cached.value.id == profId {
        return Hit(cached.value.page);
      }
      curId := curId + 1;
      if curId == 0 {
        curId := curId + 1;
      }
      client := Some(curId);
      entry := Claim(curId);
    }

    method ConsumeWaiters(page: Page) returns (drained: seq<Handler>)
      modifies this
      ensures (View(), drained) == Drain(old(View()), page)
    {
      drained := [];
      if client.Some? {
        cached := Some(CachedResult(client.value, page));
        client := None;
        drained, waiters := waiters, [];
      }
    }
  }

  // ----- The system of handlers

  /** How far a handler has got. */
  datatype Phase =
    | Arriving(profId: int64)
    | Leaving                                   // only `done` is left to run
    | Queued                                    // has returned, `done` handed over
    | Owning(run: int64)                        // profiling
    | Consuming(run: int64, ok: bool)           // passed the unlocked look at the client
    | Completing(run: int64, ok: bool, left: seq<Handler>, ownRan: bool)
    | Returned

  /** Who owned a run, and whether it wrote a profile. */
  datatype Run = Run(owner: Handler, ok: bool)

  /**
    `ran` records the closures in the order they ran, `behind` the run each waiter
    queued behind, `runs` the runs that have released the client, by id.
  */
  datatype State = State(env: Env, phase: map<Handler, Phase>, page: map<Handler, Page>,
                         ran: seq<Handler>, behind: map<Handler, int64>, runs: map<int64, Run>, checkFailed: bool)

  predicate Initial(s: State) {
    s == State(Env(0, None, [], None), map[], map[], [], map[], map[], false)
  }

  datatype Step =
    | Arrive(h: Handler, profId: int64)
    | ArriveAndLeave(h: Handler, page: Page)    // an explicit view, or an invalid request
    | EnterLock(h: Handler)
    | Fail(h: Handler, page: Page)              // an error page, then NotifyWaiters up to its CHECK
    | Succeed(h: Handler)                       // the profile is written; ConsumeWaiters up to its lock
    | ConsumeLocked(h: Handler)
    | ShowOwn(h: Handler, page: Page)           // DisplayResult for the owner
    | ShowNext(h: Handler, page: Page)          // DisplayResult for the next drained waiter
    | NotifyNext(h: Handler)                    // copy the error page to the next drained waiter
    | RunDone(h: Handler)                       // the closure guard of a returning handler
    | Return(h: Handler)                        // the owner of a successful run returns

  predicate Enabled(s: State, step: Step) {
    if step.Arrive? || step.ArriveAndLeave? then step.h !in s.phase
    else
      && step.h in s.phase
      && var p := s.phase[step.h];
      match step
      case EnterLock(_) => p.Arriving? && CanEnter(s.env, p.profId)
      case Fail(_, _) => p.Owning?
      case Succeed(_) => p.Owning?
      case ConsumeLocked(h) => p.Consuming? && h in s.page
      case ShowOwn(_, _) => p.Completing? && p.ok && !p.ownRan
      case ShowNext(_, _) => p.Completing? && p.ok && p.ownRan && p.left != []
      case NotifyNext(h) => p.Completing? && !p.ok && p.left != [] && h in s.page
      case RunDone(_) => p.Leaving? || (p.Completing? && !p.ok && p.left == [])
      case Return(_) => p.Completing? && p.ok && p.ownRan && p.left == []
      case _ => true
  }

  /** How far a step takes its handler. */
  function NextPhase(s: State, step: Step): Phase
    requires Enabled(s, step)
  {
    match step
    case Arrive(_, profId) => Arriving(profId)
    case ArriveAndLeave(_, _) => Leaving
    case EnterLock(h) =>
      (match Enter(s.env, h, s.phase[h].profId).1
       case Wait => Queued
       case Hit(_) => Leaving
       case Claim(id) => Owning(id))
    case Fail(h, _) => Consuming(s.phase[h].run, false)
    case Succeed(h) =>
      if s.env.client.None? then Completing(s.phase[h].run, true, [], false) else Consuming(s.phase[h].run, true)
    case ConsumeLocked(h) => Completing(s.phase[h].run, s.phase[h].ok, Drain(s.env, s.page[h]).1, false)
    case ShowOwn(h, _) => s.phase[h].(ownRan := true)
    case ShowNext(h, _) => s.phase[h].(left := s.phase[h].left[1..])
    case NotifyNext(h) => s.phase[h].(left := s.phase[h].left[1..])
    case RunDone(_) => Returned
    case Return(_) => Returned
  }

  /** Only the two locked regions change the environment. */
  function NextEnv(s: State, step: Step): Env
    requires Enabled(s, step)
  {
    match step
    case EnterLock(h) => Enter(s.env, h, s.phase[h].profId).0
    case ConsumeLocked(h) => Drain(s.env, s.page[h]).0
    case _ => s.env
  }

  function PageOf(s: State, c: Handler): Page {
    if c in s.page then s.page[c] else BLANK
  }

  /** The status replaced and the body appended, which is how a page is handed on. */
  function Appended(page: Page, other: Page): Page {
    Page(other.status, page.body + other.body)
  }

  /** The response a step writes to, and what it says then. */
  function Written(s: State, step: Step): Option<(Handler, Page)>
    requires Enabled(s, step)
  {
    match step
    case Arrive(h, _) => Some((h, BLANK))
    case ArriveAndLeave(h, page) => Some((h, page))
    case EnterLock(h) =>
      var entry := Enter(s.env, h, s.phase[h].profId).1;
      if entry.Hit? then Some((h, Appended(PageOf(s, h), entry.page))) else None
    case Fail(h, page) => Some((h, page))
    case ShowOwn(h, page) => Some((h, page))
    case ShowNext(h, page) => Some((s.phase[h].left[0], page))
    case NotifyNext(h) => Some((s.phase[h].left[0], Appended(PageOf(s, s.phase[h].left[0]), s.page[h])))
    case _ => None
  }

  /** The closure a step runs. */
  function Runs(s: State, step: Step): Option<Handler>
    requires Enabled(s, step)
  {
    match step
    case ShowOwn(h, _) => Some(h)
    case ShowNext(h, _) => Some(s.phase[h].left[0])
    case NotifyNext(h) => Some(s.phase[h].left[0])
    case RunDone(h) => Some(h)
    case _ => None
  }

  function Next(s: State, step: Step): State
    requires Enabled(s, step)
  {
    var h, written, run := step.h, Written(s, step), Runs(s, step);
    State(NextEnv(s, step),
          s.phase[h := NextPhase(s, step)],
          if written.Some? then s.page[written.value.0 := written.value.1] else s.page,
          if run.Some? then s.ran + [run.value] else s.ran,
          if step.EnterLock? && s.env.client.Some? then s.behind[h := s.env.client.value] else s.behind,
          if step.ConsumeLocked? then s.runs[s.phase[h].run := Run(h, s.phase[h].ok)] else s.runs,
          s.checkFailed || (step.Fail? && s.env.client.None?))
  }

  /** The controllers a step reads or writes. */
  function Touches(s: State, step: Step): set<Handler>
    requires Enabled(s, step)
  {
    match step
    case ShowNext(h, _) => {s.phase[h].left[0]}
    case NotifyNext(h) => {h, s.phase[h].left[0]}
    case Return(_) => {}
    case _ => {step.h}
  }

  // ----- The invariant

  /** Where the `done` of a handler is. */
  datatype Place = WithHandler | InQueue | Drained(owner: Handler) | Ran

  predicate HoldsOwnDone(p: Phase) {
    p.Arriving? || p.Leaving? || p.Owning? || p.Consuming? || (p.Completing? && !p.ownRan)
  }

  predicate OwnsClient(p: Phase) {
    p.Owning? || p.Consuming?
  }

  predicate HasRunId(p: Phase) {
    p.Owning? || p.Consuming? || p.Completing?
  }

  ghost predicate Distinct(hs: seq<Handler>) {
    forall i, j :: 0 <= i < j < |hs| ==> hs[i] != hs[j]
  }

  /** The closures an owner has taken from the queue and not completed yet. */
  function LeftOf(s: State, o: Handler): seq<Handler> {
    if o in s.phase && s.phase[o].Completing? then s.phase[o].left else []
  }

  /** The `done` of h is at q and nowhere else. */
  ghost predicate PlacedAt(s: State, q: Place, h: Handler) {
    && (q == WithHandler <==> h in s.phase && HoldsOwnDone(s.phase[h]))
    && (q == InQueue <==> h in s.env.waiters)
    && (q == Ran <==> h in s.ran)
    && (forall o :: q == Drained(o) <==> h in LeftOf(s, o))
  }

  /** Closures of handlers are exactly where the map says, and no others are listed. */
  ghost predicate Placed(s: State, place: map<Handler, Place>) {
    && place.Keys == s.phase.Keys
    && (forall h :: h in place ==> PlacedAt(s, place[h], h))
    && (forall h :: h !in place ==> Unlisted(s, h))
  }

  ghost predicate Unlisted(s: State, h: Handler) {
    h !in s.env.waiters && h !in s.ran && forall o :: h !in LeftOf(s, o)
  }

  /** No closure is listed twice anywhere. */
  ghost predicate NoDuplicates(s: State) {
    && Distinct(s.env.waiters)
    && Distinct(s.ran)
    && (forall o :: Distinct(LeftOf(s, o)))
  }

  /** Only a successful run completes its owner before the waiters. */
  ghost predicate Ordered(s: State) {
    forall h :: h in s.phase && s.phase[h].Completing? && s.phase[h].ownRan ==> s.phase[h].ok
  }

  /** The client is held by exactly one handler, and only while it is held can requests queue. */
  ghost predicate Owned(s: State, owner: Option<Handler>) {
    && !s.checkFailed
    && (s.env.client.Some? <==> owner.Some?)
    && (owner.Some? ==> owner.value in s.phase && OwnsClient(s.phase[owner.value]))
    && (forall h :: h in s.phase && OwnsClient(s.phase[h]) ==>
          owner == Some(h) && s.env.client == Some(s.phase[h].run))
    && (s.env.client.None? ==> s.env.waiters == [])
  }

  /** Ids grow from 1; the cache holds the page of a finished run. */
  ghost predicate Numbered(s: State) {
    && 0 <= s.env.curId
    && (s.env.client.Some? ==> s.env.client.value == s.env.curId > 0)
    && (s.env.cached.Some? ==> 0 < s.env.cached.value.id <= s.env.curId)
    && (s.env.cached.Some? && s.env.client.Some? ==> s.env.cached.value.id < s.env.curId)
    && (forall h :: h in s.phase && HasRunId(s.phase[h]) ==> 0 < s.phase[h].run <= s.env.curId)
    && (forall g, h :: g in s.phase && h in s.phase && HasRunId(s.phase[g]) && HasRunId(s.phase[h]) && g != h ==>
          s.phase[g].run != s.phase[h].run)
  }

  /** Each waiter waits for, and is completed by, the run it queued behind. */
  ghost predicate Matched(s: State) {
    && (forall w :: w in s.env.waiters ==> w in s.behind && Some(s.behind[w]) == s.env.client)
    && (forall o :: LeftMatched(s, o))
  }

  ghost predicate LeftMatched(s: State, o: Handler) {
    forall w :: w in LeftOf(s, o) ==> w in s.behind && s.behind[w] == s.phase[o].run
  }

  predicate IsBlank(p: Phase) {
    p.Arriving? || p.Owning? || (p.Consuming? && p.ok)
  }

  /** An owner that has not failed has not written to its response yet. */
  ghost predicate Paged(s: State) {
    && (forall h :: h in s.phase ==> h in s.page)
    && (forall h :: h in s.phase && IsBlank(s.phase[h]) ==> s.page[h] == BLANK)
  }

  /** Whoever has returned, or has completed itself before its waiters, has run its `done`. */
  ghost predicate Finishing(s: State) {
    forall h :: h in s.phase && (s.phase[h].Returned? || (s.phase[h].Completing? && s.phase[h].ownRan)) ==> h in s.ran
  }

  /** The owner of a recorded run is completing it, or has returned. */
  ghost predicate EndedBy(s: State, id: int64, r: Run) {
    && r.owner in s.phase
    && var p := s.phase[r.owner];
       p.Returned? || (p.Completing? && p.run == id && p.ok == r.ok)
  }

  /** The cached page belongs to a recorded run: the owner's page if it failed, a blank one if not. */
  ghost predicate Recorded(s: State) {
    && (forall id :: id in s.runs ==> EndedBy(s, id, s.runs[id]))
    && (s.env.cached.Some? ==>
          && s.env.cached.value.id in s.runs
          && var r := s.runs[s.env.cached.value.id];
          && r.owner in s.page
          && s.env.cached.value.page == if r.ok then BLANK else s.page[r.owner])
  }

  /** Recorded ids have been given out, and not to the present client. */
  ghost predicate RunsArePast(s: State) {
    forall id :: id in s.runs ==> id <= s.env.curId && s.env.client != Some(id)
  }

  ghost predicate Inv(s: State, place: map<Handler, Place>, owner: Option<Handler>) {
    Placed(s, place) && NoDuplicates(s) && Ordered(s) && Owned(s, owner) && Numbered(s) && Matched(s) && Paged(s)
    && Finishing(s) && Recorded(s) && RunsArePast(s)
  }

  function NewPlace(s: State, step: Step, place: map<Handler, Place>): map<Handler, Place>
    requires Enabled(s, step)
  {
    match step
    case Arrive(h, _) => place[h := WithHandler]
    case ArriveAndLeave(h, _) => place[h := WithHandler]
    case EnterLock(h) => if s.env.client.Some? then place[h := InQueue] else place
    case Fail(_, _) => place
    case Succeed(_) => place
    case ConsumeLocked(h) =>
      if s.env.client.None? then place
      else AllDrained(place, h)
    case ShowOwn(h, _) => place[h := Ran]
    case ShowNext(h, _) => place[s.phase[h].left[0] := Ran]
    case NotifyNext(h) => place[s.phase[h].left[0] := Ran]
    case RunDone(h) => place[h := Ran]
    case Return(_) => place
  }

  function NewOwner(s: State, step: Step, owner: Option<Handler>): Option<Handler>
    requires Enabled(s, step)
  {
    match step
    case EnterLock(h) => if Enter(s.env, h, s.phase[h].profId).1.Claim? then Some(h) else owner
    case ConsumeLocked(_) => None
    case _ => owner
  }

  lemma InAppend(hs: seq<Handler>, x: Handler, h: Handler)
    ensures h in hs + [x] <==> h in hs || h == x
  {
  }

  lemma InTail(hs: seq<Handler>, h: Handler)
    requires hs != [] && Distinct(hs)
    ensures h in hs[1..] <==> h in hs && h != hs[0]
  {
  }

  /** A handler moves on, keeping its `done` (or lack of it) and its list. */
  lemma RephaseKeepsPlaced(s: State, t: State, place: map<Handler, Place>, h: Handler, p: Phase)
    requires Placed(s, place) && h in s.phase
    requires t.phase == s.phase[h := p] && t.env.waiters == s.env.waiters && t.ran == s.ran
    requires HoldsOwnDone(p) <==> HoldsOwnDone(s.phase[h])
    requires LeftOf(t, h) == LeftOf(s, h)
    ensures Placed(t, place)
  {
    assert forall o :: LeftOf(t, o) == LeftOf(s, o);
    forall g | g in place ensures PlacedAt(t, place[g], g) {
      assert PlacedAt(s, place[g], g);
    }
    forall g | g !in place ensures Unlisted(t, g) {
      assert Unlisted(s, g);
    }
  }

  /** A new handler arrives with its own `done`. */
  lemma ArriveKeepsPlaced(s: State, t: State, place: map<Handler, Place>, h: Handler, p: Phase)
    requires Placed(s, place) && h !in s.phase
    requires t.phase == s.phase[h := p] && t.env.waiters == s.env.waiters && t.ran == s.ran
    requires HoldsOwnDone(p) && !p.Completing?
    ensures Placed(t, place[h := WithHandler])
  {
    assert forall o :: LeftOf(t, o) == LeftOf(s, o);
    assert Unlisted(s, h);
    forall g | g in place ensures PlacedAt(t, place[g], g) {
      assert PlacedAt(s, place[g], g);
    }
    forall g | g !in place && g != h ensures Unlisted(t, g) {
      assert Unlisted(s, g);
    }
  }

  /** A handler hands its `done` to the queue. */
  lemma QueueKeepsPlaced(s: State, t: State, place: map<Handler, Place>, h: Handler)
    requires Placed(s, place) && h in s.phase && HoldsOwnDone(s.phase[h]) && !s.phase[h].Completing?
    requires t.phase == s.phase[h := Queued] && t.env.waiters == s.env.waiters + [h] && t.ran == s.ran
    ensures Placed(t, place[h := InQueue])
  {
    assert forall o :: LeftOf(t, o) == LeftOf(s, o);
    forall g | g in place ensures PlacedAt(t, place[h := InQueue][g], g) {
      assert PlacedAt(s, place[g], g);
      InAppend(s.env.waiters, h, g);
    }
    forall g | g !in place ensures Unlisted(t, g) {
      assert Unlisted(s, g);
      InAppend(s.env.waiters, h, g);
    }
  }

  /** A handler runs its own `done`. */
  lemma RunKeepsPlaced(s: State, t: State, place: map<Handler, Place>, h: Handler, p: Phase)
    requires Placed(s, place) && h in s.phase && HoldsOwnDone(s.phase[h])
    requires t.phase == s.phase[h := p] && t.env.waiters == s.env.waiters && t.ran == s.ran + [h]
    requires !HoldsOwnDone(p) && LeftOf(t, h) == LeftOf(s, h)
    ensures Placed(t, place[h := Ran])
  {
    assert forall o :: LeftOf(t, o) == LeftOf(s, o);
    forall g | g in place ensures PlacedAt(t, place[h := Ran][g], g) {
      RanPlacedAt(s, t, h, place[g], g);
    }
    forall g | g !in place ensures Unlisted(t, g) {
      assert Unlisted(s, g);
      InAppend(s.ran, h, g);
    }
  }

  lemma RanPlacedAt(s: State, t: State, h: Handler, q: Place, g: Handler)
    requires PlacedAt(s, q, g) && h in s.phase && HoldsOwnDone(s.phase[h]) && h in t.phase && !HoldsOwnDone(t.phase[h])
    requires t.phase == s.phase[h := t.phase[h]] && t.env.waiters == s.env.waiters && t.ran == s.ran + [h]
    requires forall o :: LeftOf(t, o) == LeftOf(s, o)
    ensures PlacedAt(t, if g == h then Ran else q, g)
  {
    InAppend(s.ran, h, g);
  }

  /** An owner runs the `done` of the first waiter on its list. */
  ghost predicate Completed(s: State, t: State, h: Handler, p: Phase) {
    && h in s.phase
    && LeftOf(s, h) != []
    && t.phase == s.phase[h := p]
    && t.env.waiters == s.env.waiters
    && t.ran == s.ran + [LeftOf(s, h)[0]]
    && (HoldsOwnDone(p) <==> HoldsOwnDone(s.phase[h]))
    && LeftOf(t, h) == LeftOf(s, h)[1..]
  }

  lemma CompleteKeepsPlacedAt(s: State, t: State, h: Handler, p: Phase, q: Place, g: Handler)
    requires Completed(s, t, h, p) && Distinct(LeftOf(s, h)) && PlacedAt(s, q, g)
    ensures PlacedAt(t, if g == LeftOf(s, h)[0] then Ran else q, g)
  {
  }

  lemma CompleteKeepsUnlisted(s: State, t: State, h: Handler, p: Phase, g: Handler)
    requires Completed(s, t, h, p) && Distinct(LeftOf(s, h)) && Unlisted(s, g)
    ensures Unlisted(t, g)
  {
    var w := LeftOf(s, h)[0];
    assert w in LeftOf(s, h);
    InAppend(s.ran, w, g);
    InTail(LeftOf(s, h), g);
    assert forall o :: o != h ==> LeftOf(t, o) == LeftOf(s, o);
  }

  lemma FirstLeftIsPlaced(s: State, place: map<Handler, Place>, h: Handler)
    requires Placed(s, place) && LeftOf(s, h) != []
    ensures LeftOf(s, h)[0] in place && place[LeftOf(s, h)[0]] == Drained(h)
  {
  }

  lemma CompleteKeepsOthersUnlisted(s: State, t: State, place: map<Handler, Place>, h: Handler, p: Phase)
    requires Placed(s, place) && Completed(s, t, h, p) && Distinct(LeftOf(s, h))
    ensures forall g :: g !in place ==> Unlisted(t, g)
  {
    forall g | g !in place ensures Unlisted(t, g) {
      CompleteKeepsUnlisted(s, t, h, p, g);
    }
  }

  lemma CompleteKeepsEachPlaced(s: State, t: State, place: map<Handler, Place>, h: Handler, p: Phase, g: Handler)
    requires Placed(s, place) && Completed(s, t, h, p) && Distinct(LeftOf(s, h)) && g in place
    ensures PlacedAt(t, if g == LeftOf(s, h)[0] then Ran else place[g], g)
  {
    CompleteKeepsPlacedAt(s, t, h, p, place[g], g);
  }

  lemma CompleteKeepsPlaced(s: State, t: State, place: map<Handler, Place>, h: Handler, p: Phase)
    requires Placed(s, place) && Completed(s, t, h, p) && Distinct(LeftOf(s, h))
    ensures Placed(t, place[LeftOf(s, h)[0] := Ran])
  {
    var w := LeftOf(s, h)[0];
    var q := place[w := Ran];
    FirstLeftIsPlaced(s, place, h);
    CompleteKeepsOthersUnlisted(s, t, place, h, p);
    assert q.Keys == t.phase.Keys;
    forall g | g in q ensures PlacedAt(t, q[g], g) {
      CompleteKeepsEachPlaced(s, t, place, h, p, g);
    }
  }

  function AllDrained(place: map<Handler, Place>, h: Handler): map<Handler, Place> {
    map g | g in place :: if place[g] == InQueue then Drained(h) else place[g]
  }

  /** An owner takes the whole queue. */
  lemma DrainKeepsPlaced(s: State, t: State, place: map<Handler, Place>, h: Handler, p: Phase)
    requires Placed(s, place) && h in s.phase && HoldsOwnDone(s.phase[h]) && LeftOf(s, h) == []
    requires t.phase == s.phase[h := p] && t.env.waiters == [] && t.ran == s.ran
    requires HoldsOwnDone(p) && LeftOf(t, h) == s.env.waiters
    ensures Placed(t, AllDrained(place, h))
  {
    var q := AllDrained(place, h);
    assert forall o :: o != h ==> LeftOf(t, o) == LeftOf(s, o);
    forall g | g in q ensures PlacedAt(t, q[g], g) {
      assert PlacedAt(s, place[g], g);
    }
    forall g | g !in q ensures Unlisted(t, g) {
      assert Unlisted(s, g);
    }
  }

  /** A step moves its own handler on and leaves the phases of all others. */
  lemma MovesOne(s: State, step: Step) returns (p: Phase)
    requires Enabled(s, step)
    ensures Next(s, step).phase == s.phase[step.h := p] && Next(s, step).phase[step.h] == p
  {
    p := Next(s, step).phase[step.h];
  }

  lemma EnterKeepsPlaced(s: State, h: Handler, place: map<Handler, Place>)
    requires Placed(s, place) && Enabled(s, EnterLock(h))
    ensures Placed(Next(s, EnterLock(h)), NewPlace(s, EnterLock(h), place))
  {
    var t := Next(s, EnterLock(h));
    if s.env.client.Some? {
      QueueKeepsPlaced(s, t, place, h);
    } else {
      var p := MovesOne(s, EnterLock(h));
      RephaseKeepsPlaced(s, t, place, h, p);
    }
  }

  lemma EnteringKeepsPlaced(s: State, step: Step, place: map<Handler, Place>)
    requires Placed(s, place) && Enabled(s, step)
    requires step.Arrive? || step.ArriveAndLeave? || step.EnterLock?
    ensures Placed(Next(s, step), NewPlace(s, step, place))
  {
    if step.EnterLock? {
      EnterKeepsPlaced(s, step.h, place);
    } else {
      var t := Next(s, step);
      ArriveKeepsPlaced(s, t, place, step.h, t.phase[step.h]);
    }
  }

  lemma OwningKeepsPlaced(s: State, step: Step, place: map<Handler, Place>)
    requires Placed(s, place) && Enabled(s, step)
    requires step.Fail? || step.Succeed? || step.ConsumeLocked? || step.Return?
    ensures Placed(Next(s, step), NewPlace(s, step, place))
  {
    var t, h := Next(s, step), step.h;
    if step.ConsumeLocked? && s.env.client.Some? {
      DrainKeepsPlaced(s, t, place, h, t.phase[h]);
    } else {
      RephaseKeepsPlaced(s, t, place, h, t.phase[h]);
    }
  }

  lemma RunningKeepsPlaced(s: State, step: Step, place: map<Handler, Place>)
    requires Placed(s, place) && NoDuplicates(s) && Ordered(s) && Enabled(s, step)
    requires step.ShowOwn? || step.ShowNext? || step.NotifyNext? || step.RunDone?
    ensures Placed(Next(s, step), NewPlace(s, step, place))
  {
    var t, h := Next(s, step), step.h;
    if step.ShowOwn? || step.RunDone? {
      RunKeepsPlaced(s, t, place, h, t.phase[h]);
    } else {
      assert Distinct(LeftOf(s, h));
      CompleteKeepsPlaced(s, t, place, h, t.phase[h]);
    }
  }

  lemma KeepsPlaced(s: State, step: Step, place: map<Handler, Place>)
    requires Placed(s, place) && NoDuplicates(s) && Ordered(s) && Enabled(s, step)
    ensures Placed(Next(s, step), NewPlace(s, step, place))
  {
    if step.Arrive? || step.ArriveAndLeave? || step.EnterLock? {
      EnteringKeepsPlaced(s, step, place);
    } else if step.Fail? || step.Succeed? || step.ConsumeLocked? || step.Return? {
      OwningKeepsPlaced(s, step, place);
    } else {
      RunningKeepsPlaced(s, step, place);
    }
  }

  lemma DistinctAppend(hs: seq<Handler>, x: Handler)
    requires Distinct(hs) && x !in hs
    ensures Distinct(hs + [x])
  {
  }

  lemma ChangeKeepsDistinct(s: State, t: State, h: Handler)
    requires NoDuplicates(s) && h in t.phase && t.phase == s.phase[h := t.phase[h]]
    requires Distinct(t.env.waiters) && Distinct(t.ran) && Distinct(LeftOf(t, h))
    ensures NoDuplicates(t)
  {
    assert forall o :: o != h ==> LeftOf(t, o) == LeftOf(s, o);
  }

  lemma NotListed(s: State, place: map<Handler, Place>, h: Handler)
    requires Placed(s, place) && h in s.phase && HoldsOwnDone(s.phase[h])
    ensures h !in s.env.waiters && h !in s.ran
  {
  }

  lemma RunningKeepsDistinct(s: State, step: Step, place: map<Handler, Place>)
    requires Placed(s, place) && NoDuplicates(s) && Ordered(s) && Enabled(s, step)
    requires step.ShowOwn? || step.ShowNext? || step.NotifyNext? || step.RunDone?
    ensures NoDuplicates(Next(s, step))
  {
    var t, h := Next(s, step), step.h;
    assert Distinct(LeftOf(s, h));
    if step.ShowOwn? || step.RunDone? {
      NotListed(s, place, h);
      DistinctAppend(s.ran, h);
    } else {
      FirstLeftIsPlaced(s, place, h);
      assert PlacedAt(s, place[LeftOf(s, h)[0]], LeftOf(s, h)[0]);
      DistinctAppend(s.ran, LeftOf(s, h)[0]);
    }
    ChangeKeepsDistinct(s, t, h);
  }

  lemma EnterKeepsDistinct(s: State, h: Handler)
    requires NoDuplicates(s) && h !in s.env.waiters && Enabled(s, EnterLock(h))
    ensures NoDuplicates(Next(s, EnterLock(h)))
  {
    DistinctAppend(s.env.waiters, h);
    ChangeKeepsDistinct(s, Next(s, EnterLock(h)), h);
  }

  lemma KeepsNoDuplicates(s: State, step: Step, place: map<Handler, Place>)
    requires Placed(s, place) && NoDuplicates(s) && Ordered(s) && Enabled(s, step)
    ensures NoDuplicates(Next(s, step))
  {
    if step.ShowOwn? || step.ShowNext? || step.NotifyNext? || step.RunDone? {
      RunningKeepsDistinct(s, step, place);
    } else if step.EnterLock? {
      NotListed(s, place, step.h);
      EnterKeepsDistinct(s, step.h);
    } else {
      assert Distinct(LeftOf(s, step.h));
      ChangeKeepsDistinct(s, Next(s, step), step.h);
    }
  }

  lemma KeepsOrdered(s: State, step: Step)
    requires Ordered(s) && Enabled(s, step)
    ensures Ordered(Next(s, step))
  {
  }

  lemma EnterKeepsOwned(s: State, h: Handler, owner: Option<Handler>)
    requires Owned(s, owner) && Enabled(s, EnterLock(h))
    ensures Owned(Next(s, EnterLock(h)), NewOwner(s, EnterLock(h), owner))
  {
  }

  lemma KeepsOwned(s: State, step: Step, owner: Option<Handler>)
    requires Owned(s, owner) && Enabled(s, step)
    ensures Owned(Next(s, step), NewOwner(s, step, owner))
  {
    if step.EnterLock? {
      EnterKeepsOwned(s, step.h, owner);
    }
  }

  /** A step that starts no run. */
  lemma ChangeKeepsNumbered(s: State, t: State, h: Handler)
    requires Numbered(s) && h in t.phase && t.phase == s.phase[h := t.phase[h]] && t.env.curId == s.env.curId
    requires HasRunId(t.phase[h]) ==> h in s.phase && HasRunId(s.phase[h]) && t.phase[h].run == s.phase[h].run
    requires t.env.client == s.env.client || t.env.client.None?
    requires t.env.cached == s.env.cached ||
             (t.env.client.None? && t.env.cached.Some? && 0 < t.env.cached.value.id <= t.env.curId)
    ensures Numbered(t)
  {
  }

  lemma ClaimKeepsNumbered(s: State, h: Handler)
    requires Numbered(s) && Enabled(s, EnterLock(h)) && Enter(s.env, h, s.phase[h].profId).1.Claim?
    ensures Numbered(Next(s, EnterLock(h)))
  {
  }

  lemma KeepsNumbered(s: State, step: Step)
    requires Numbered(s) && Enabled(s, step)
    ensures Numbered(Next(s, step))
  {
    if step.EnterLock? && Enter(s.env, step.h, s.phase[step.h].profId).1.Claim? {
      ClaimKeepsNumbered(s, step.h);
    } else {
      ChangeKeepsNumbered(s, Next(s, step), step.h);
    }
  }

  /** A step that queues nobody and completes at most the first waiter of its own list. */
  lemma ChangeKeepsMatched(s: State, t: State, h: Handler)
    requires Matched(s) && t.behind == s.behind && h in t.phase && t.phase == s.phase[h := t.phase[h]]
    requires (t.env.waiters == s.env.waiters && t.env.client == s.env.client) || t.env.waiters == []
    requires LeftMatched(t, h)
    ensures Matched(t)
  {
    forall o ensures LeftMatched(t, o) {
      if o != h {
        assert LeftMatched(s, o) && LeftOf(t, o) == LeftOf(s, o);
      }
    }
  }

  lemma QueueKeepsMatched(s: State, h: Handler, place: map<Handler, Place>)
    requires Placed(s, place) && Matched(s) && Enabled(s, EnterLock(h)) && s.env.client.Some?
    ensures Matched(Next(s, EnterLock(h)))
  {
    var t := Next(s, EnterLock(h));
    assert PlacedAt(s, place[h], h);
    forall w | w in t.env.waiters ensures w in t.behind && Some(t.behind[w]) == t.env.client {
      InAppend(s.env.waiters, h, w);
    }
    forall o ensures LeftMatched(t, o) {
      assert LeftMatched(s, o) && LeftOf(t, o) == LeftOf(s, o);
      assert h !in LeftOf(s, o);
    }
  }

  lemma OwnListMatched(s: State, step: Step, owner: Option<Handler>)
    requires Owned(s, owner) && Matched(s) && Enabled(s, step)
    ensures LeftMatched(Next(s, step), step.h)
  {
    assert LeftMatched(s, step.h);
  }

  lemma OtherKeepsMatched(s: State, step: Step)
    requires Matched(s) && Enabled(s, step) && LeftMatched(Next(s, step), step.h)
    requires !(step.EnterLock? && s.env.client.Some?) && (s.env.client.None? ==> s.env.waiters == [])
    ensures Matched(Next(s, step))
  {
    var p := MovesOne(s, step);
    ChangeKeepsMatched(s, Next(s, step), step.h);
  }

  lemma KeepsMatched(s: State, step: Step, place: map<Handler, Place>, owner: Option<Handler>)
    requires Placed(s, place) && Owned(s, owner) && Matched(s) && Enabled(s, step)
    ensures Matched(Next(s, step))
  {
    if step.EnterLock? && s.env.client.Some? {
      QueueKeepsMatched(s, step.h, place);
    } else {
      OwnListMatched(s, step, owner);
      OtherKeepsMatched(s, step);
    }
  }

  /** Only the page of c changes: that of the stepping handler, or of one that was drained. */
  lemma ChangeKeepsPaged(s: State, t: State, h: Handler, c: Handler, page: Page)
    requires Paged(s) && h in t.phase && t.phase == s.phase[h := t.phase[h]]
    requires t.page == s.page[c := page]
    requires c == h || (c in s.phase && h in s.phase && !IsBlank(s.phase[c]) && !IsBlank(t.phase[h]))
    requires c == h && IsBlank(t.phase[h]) ==> page == BLANK
    ensures Paged(t)
  {
  }

  lemma RephaseKeepsPaged(s: State, t: State, h: Handler)
    requires Paged(s) && h in s.phase && h in t.phase && t.phase == s.phase[h := t.phase[h]] && t.page == s.page
    requires IsBlank(t.phase[h]) ==> IsBlank(s.phase[h])
    ensures Paged(t)
  {
  }

  lemma CompleteKeepsPaged(s: State, step: Step, place: map<Handler, Place>)
    requires Placed(s, place) && Paged(s) && Enabled(s, step) && (step.ShowNext? || step.NotifyNext?)
    ensures Paged(Next(s, step))
  {
    FirstLeftIsPlaced(s, place, step.h);
    var t, w := Next(s, step), LeftOf(s, step.h)[0];
    assert PlacedAt(s, place[w], w);
    ChangeKeepsPaged(s, t, step.h, w, t.page[w]);
  }

  lemma EnterKeepsPaged(s: State, h: Handler)
    requires Paged(s) && Enabled(s, EnterLock(h))
    ensures Paged(Next(s, EnterLock(h)))
  {
  }

  lemma OwnPageKeepsPaged(s: State, step: Step)
    requires Paged(s) && Enabled(s, step)
    requires step.Arrive? || step.ArriveAndLeave? || step.Fail? || step.ShowOwn?
    ensures Paged(Next(s, step))
  {
  }

  lemma RestKeepsPaged(s: State, step: Step)
    requires Paged(s) && Enabled(s, step)
    requires step.Succeed? || step.ConsumeLocked? || step.RunDone? || step.Return?
    ensures Paged(Next(s, step))
  {
    var p := MovesOne(s, step);
    RephaseKeepsPaged(s, Next(s, step), step.h);
  }

  lemma KeepsPaged(s: State, step: Step, place: map<Handler, Place>)
    requires Placed(s, place) && Paged(s) && Enabled(s, step)
    ensures Paged(Next(s, step))
  {
    if step.ShowNext? || step.NotifyNext? {
      CompleteKeepsPaged(s, step, place);
    } else if step.EnterLock? {
      EnterKeepsPaged(s, step.h);
    } else if step.Arrive? || step.ArriveAndLeave? || step.Fail? || step.ShowOwn? {
      OwnPageKeepsPaged(s, step);
    } else {
      RestKeepsPaged(s, step);
    }
  }

  lemma KeepsFinishing(s: State, step: Step)
    requires Finishing(s) && Enabled(s, step)
    ensures Finishing(Next(s, step))
  {
  }

  lemma KeepsEnded(s: State, step: Step)
    requires Recorded(s) && Enabled(s, step)
    ensures forall id :: id in Next(s, step).runs ==> EndedBy(Next(s, step), id, Next(s, step).runs[id])
  {
    var t := Next(s, step);
    forall id | id in t.runs ensures EndedBy(t, id, t.runs[id]) {
      assert id in s.runs ==> EndedBy(s, id, s.runs[id]);
    }
  }

  /** Nobody writes to the page of a handler that has failed or returned, unless it is next on a list. */
  lemma EndedKeepsPage(s: State, step: Step, o: Handler)
    requires Enabled(s, step) && o in s.phase && o in s.page
    requires s.phase[o].Returned? || (s.phase[o].Completing? && !s.phase[o].ok)
    requires LeftOf(s, step.h) != [] ==> LeftOf(s, step.h)[0] != o
    ensures o in Next(s, step).page && Next(s, step).page[o] == s.page[o]
  {
  }

  lemma EndedIsNotNext(s: State, place: map<Handler, Place>, o: Handler, h: Handler)
    requires Placed(s, place) && Ordered(s) && Finishing(s) && o in s.phase && LeftOf(s, h) != []
    requires s.phase[o].Returned? || (s.phase[o].Completing? && !s.phase[o].ok)
    ensures LeftOf(s, h)[0] != o
  {
    FirstLeftIsPlaced(s, place, h);
    assert PlacedAt(s, place[o], o);
  }

  /** The owner of a recorded failed run keeps its page. */
  lemma FailedKeepsPage(s: State, step: Step, place: map<Handler, Place>, id: int64)
    requires Placed(s, place) && Paged(s) && Ordered(s) && Finishing(s) && Recorded(s) && Enabled(s, step)
    requires id in s.runs && !s.runs[id].ok
    ensures var o := s.runs[id].owner; o in s.page && o in Next(s, step).page && Next(s, step).page[o] == s.page[o]
  {
    var o := s.runs[id].owner;
    assert EndedBy(s, id, s.runs[id]);
    if LeftOf(s, step.h) != [] {
      EndedIsNotNext(s, place, o, step.h);
    }
    EndedKeepsPage(s, step, o);
  }

  /** Only a run that releases the client changes the cache or the record. */
  lemma CacheUntouched(s: State, step: Step)
    requires Enabled(s, step) && !step.ConsumeLocked?
    ensures Next(s, step).env.cached == s.env.cached && Next(s, step).runs == s.runs
  {
  }

  lemma PagesStay(s: State, step: Step, c: Handler)
    requires Enabled(s, step) && c in s.page
    ensures c in Next(s, step).page
  {
  }

  lemma ConsumeRecords(s: State, h: Handler, owner: Option<Handler>)
    requires Owned(s, owner) && Paged(s) && Enabled(s, ConsumeLocked(h))
    ensures var t := Next(s, ConsumeLocked(h));
            && t.env.cached == Some(CachedResult(s.phase[h].run, s.page[h]))
            && t.runs == s.runs[s.phase[h].run := Run(h, s.phase[h].ok)]
            && t.page == s.page && (s.phase[h].ok ==> s.page[h] == BLANK)
  {
  }

  lemma KeepsRecorded(s: State, step: Step, place: map<Handler, Place>, owner: Option<Handler>)
    requires Placed(s, place) && Owned(s, owner) && Paged(s) && Ordered(s) && Finishing(s) && Recorded(s)
    requires Enabled(s, step)
    ensures Recorded(Next(s, step))
  {
    KeepsEnded(s, step);
    if step.ConsumeLocked? {
      ConsumeRecords(s, step.h, owner);
    } else {
      CacheUntouched(s, step);
      if s.env.cached.Some? {
        var r := s.runs[s.env.cached.value.id];
        PagesStay(s, step, r.owner);
        if !r.ok {
          FailedKeepsPage(s, step, place, s.env.cached.value.id);
        }
      }
    }
  }

  lemma KeepsRunsPast(s: State, step: Step, owner: Option<Handler>)
    requires Owned(s, owner) && Numbered(s) && RunsArePast(s) && Enabled(s, step)
    ensures RunsArePast(Next(s, step))
  {
    if step.EnterLock? {
      EnterKeepsRuns(s, step.h);
    } else if !step.ConsumeLocked? {
      CacheUntouched(s, step);
    }
  }

  lemma EnterKeepsRuns(s: State, h: Handler)
    requires Numbered(s) && RunsArePast(s) && Enabled(s, EnterLock(h))
    ensures RunsArePast(Next(s, EnterLock(h)))
  {
  }

  // ----- What holds in every run

  lemma StepKeepsInv(s: State, step: Step, place: map<Handler, Place>, owner: Option<Handler>)
    requires Inv(s, place, owner) && Enabled(s, step)
    ensures Inv(Next(s, step), NewPlace(s, step, place), NewOwner(s, step, owner))
  {
    KeepsPlaced(s, step, place);
    KeepsNoDuplicates(s, step, place);
    KeepsOrdered(s, step);
    KeepsOwned(s, step, owner);
    KeepsNumbered(s, step);
    KeepsMatched(s, step, place, owner);
    KeepsPaged(s, step, place);
    KeepsFinishing(s, step);
    KeepsRecorded(s, step, place, owner);
    KeepsRunsPast(s, step, owner);
  }

  ghost predicate Follows(s: State, t: State) {
    exists step :: Enabled(s, step) && t == Next(s, step)
  }

  ghost predicate IsRun(states: seq<State>) {
    && states != []
    && Initial(states[0])
    && (forall j, k {:trigger Follows(states[j], states[k])} ::
          0 <= j && k == j + 1 < |states| ==> Follows(states[j], states[k]))
  }

  ghost predicate Reachable(s: State) {
    exists states :: IsRun(states) && states[|states| - 1] == s
  }

  lemma StepTaken(states: seq<State>, k: nat) returns (step: Step)
    requires IsRun(states) && 0 < k < |states|
    ensures Enabled(states[k - 1], step) && states[k] == Next(states[k - 1], step)
  {
    assert Follows(states[k - 1], states[k]);
    step :| Enabled(states[k - 1], step) && states[k] == Next(states[k - 1], step);
  }

  lemma {:induction false} RunKeepsInv(states: seq<State>, k: nat)
    returns (place: map<Handler, Place>, owner: Option<Handler>)
    requires IsRun(states) && k < |states|
    ensures Inv(states[k], place, owner)
  {
    if k == 0 {
      place, owner := map[], None;
    } else {
      place, owner := RunKeepsInv(states, k - 1);
      var step := StepTaken(states, k);
      StepKeepsInv(states[k - 1], step, place, owner);
      place, owner := NewPlace(states[k - 1], step, place), NewOwner(states[k - 1], step, owner);
    }
  }

  lemma ReachableInv(s: State) returns (place: map<Handler, Place>, owner: Option<Handler>)
    requires Reachable(s)
    ensures Inv(s, place, owner)
  {
    var states :| IsRun(states) && states[|states| - 1] == s;
    place, owner := RunKeepsInv(states, |states| - 1);
  }

  /**
    Conservation: in every reachable state the `done` of every handler is in exactly
    one place: with its handler, once in the queue, once on the list of one owner,
    or run, once.
  */
  lemma DoneIsInOnePlace(s: State, h: Handler) returns (q: Place)
    requires Reachable(s) && h in s.phase
    ensures q == WithHandler <==> HoldsOwnDone(s.phase[h])
    ensures q == InQueue <==> h in s.env.waiters
    ensures q == Ran <==> h in s.ran
    ensures forall o :: q == Drained(o) <==> h in LeftOf(s, o)
    ensures Distinct(s.ran) && Distinct(s.env.waiters) && (forall o :: Distinct(LeftOf(s, o)))
  {
    var place, owner := ReachableInv(s);
    assert PlacedAt(s, place[h], h);
    q := place[h];
  }

  /** A handler has no code left to execute. */
  predicate IsFinished(p: Phase) {
    p.Queued? || p.Returned?
  }

  /** Once no handler has anything left to do, every `done` has run, exactly once. */
  lemma AllDoneRan(s: State)
    requires Reachable(s)
    requires forall h :: h in s.phase ==> IsFinished(s.phase[h])
    ensures Distinct(s.ran) && (forall h :: h in s.phase <==> h in s.ran)
    ensures s.env.client.None? && s.env.waiters == []
  {
    var place, owner := ReachableInv(s);
    forall h | h in s.phase ensures h in s.ran {
      FinishedHasRun(s, place, owner, h);
    }
    forall h | h in s.ran ensures h in s.phase {
      assert h !in place ==> Unlisted(s, h);
    }
  }

  lemma FinishedHasRun(s: State, place: map<Handler, Place>, owner: Option<Handler>, h: Handler)
    requires Placed(s, place) && Owned(s, owner) && h in s.phase
    requires forall g :: g in s.phase ==> IsFinished(s.phase[g])
    ensures h in s.ran
  {
  }

  // ----- Controllers

  /** A step changes no page but those of the controllers it touches, */
  lemma OnlyTouchedWritten(s: State, step: Step, c: Handler)
    requires Enabled(s, step) && c in s.page && c !in Touches(s, step)
    ensures c in Next(s, step).page && Next(s, step).page[c] == s.page[c]
  {
  }

  lemma UpdatesCommute(pages: map<Handler, Page>, c: Handler, page: Page, x: Handler, other: Page)
    requires c != x
    ensures pages[c := page][x := other] == pages[x := other][c := page]
  {
  }

  function WithPage(s: State, c: Handler, page: Page): State {
    s.(page := s.page[c := page])
  }

  lemma RunningReadsTouched(s: State, step: Step, c: Handler, page: Page)
    requires Enabled(s, step) && c in s.page && c !in Touches(s, step)
    requires step.ShowOwn? || step.ShowNext? || step.NotifyNext? || step.RunDone?
    ensures Enabled(WithPage(s, c, page), step)
    ensures Next(WithPage(s, c, page), step) == WithPage(Next(s, step), c, page)
  {
    match step
    case ShowOwn(h, p) => UpdatesCommute(s.page, c, page, h, p);
    case ShowNext(h, p) => UpdatesCommute(s.page, c, page, s.phase[h].left[0], p);
    case NotifyNext(h) =>
      var w := s.phase[h].left[0];
      UpdatesCommute(s.page, c, page, w, Appended(PageOf(s, w), s.page[h]));
    case RunDone(_) =>
  }

  lemma EnteringReadsTouched(s: State, step: Step, c: Handler, page: Page)
    requires Enabled(s, step) && c in s.page && c !in Touches(s, step)
    requires step.Arrive? || step.ArriveAndLeave? || step.EnterLock?
    ensures Enabled(WithPage(s, c, page), step)
    ensures Next(WithPage(s, c, page), step) == WithPage(Next(s, step), c, page)
  {
    match step
    case Arrive(h, _) => UpdatesCommute(s.page, c, page, h, BLANK);
    case ArriveAndLeave(h, p) => UpdatesCommute(s.page, c, page, h, p);
    case EnterLock(h) =>
      if s.env.client.None? && s.env.cached.Some? {
        UpdatesCommute(s.page, c, page, h, Appended(PageOf(s, h), s.env.cached.value.page));
      }
  }

  lemma OwningReadsTouched(s: State, step: Step, c: Handler, page: Page)
    requires Enabled(s, step) && c in s.page && c !in Touches(s, step)
    requires step.Fail? || step.Succeed? || step.ConsumeLocked? || step.Return?
    ensures Enabled(WithPage(s, c, page), step)
    ensures Next(WithPage(s, c, page), step) == WithPage(Next(s, step), c, page)
  {
    if step.Fail? {
      UpdatesCommute(s.page, c, page, step.h, step.page);
    }
  }

  /** and nothing it does depends on any other. */
  lemma OnlyTouchedRead(s: State, step: Step, c: Handler, page: Page)
    requires Enabled(s, step) && c in s.page && c !in Touches(s, step)
    ensures Enabled(WithPage(s, c, page), step)
    ensures Next(WithPage(s, c, page), step) == WithPage(Next(s, step), c, page)
  {
    if step.ShowOwn? || step.ShowNext? || step.NotifyNext? || step.RunDone? {
      RunningReadsTouched(s, step, c, page);
    } else if step.Arrive? || step.ArriveAndLeave? || step.EnterLock? {
      EnteringReadsTouched(s, step, c, page);
    } else {
      OwningReadsTouched(s, step, c, page);
    }
  }

  lemma TouchedHasNotRun(s: State, step: Step, place: map<Handler, Place>, owner: Option<Handler>, c: Handler)
    requires Inv(s, place, owner) && Enabled(s, step) && c in Touches(s, step)
    ensures c !in s.ran
  {
    assert c in place ==> PlacedAt(s, place[c], c);
    assert c !in place ==> Unlisted(s, c);
    if step.ShowNext? || step.NotifyNext? {
      FirstLeftIsPlaced(s, place, step.h);
    }
  }

  /** No step touches a controller whose `done` has run (and which is gone by then). */
  lemma NoUseAfterDone(s: State, step: Step)
    requires Reachable(s) && Enabled(s, step)
    ensures forall c :: c in Touches(s, step) ==> c !in s.ran
  {
    var place, owner := ReachableInv(s);
    forall c | c in Touches(s, step) ensures c !in s.ran {
      TouchedHasNotRun(s, step, place, owner, c);
    }
  }

  lemma RanIsUntouched(states: seq<State>, k: nat, step: Step, c: Handler)
    requires IsRun(states) && k < |states| && Enabled(states[k], step) && c in states[k].ran
    ensures c !in Touches(states[k], step)
  {
    var place, owner := RunKeepsInv(states, k);
    if c in Touches(states[k], step) {
      TouchedHasNotRun(states[k], step, place, owner, c);
    }
  }

  lemma NextAfterDone(states: seq<State>, k: nat, c: Handler)
    requires IsRun(states) && 0 < k < |states| && c in states[k - 1].ran
    ensures c in states[k].ran && c in states[k - 1].page && c in states[k].page
    ensures states[k].page[c] == states[k - 1].page[c]
  {
    var step := StepTaken(states, k);
    HasPage(states, k - 1, c);
    RanIsUntouched(states, k - 1, step, c);
    OnlyTouchedWritten(states[k - 1], step, c);
  }

  lemma HasPage(states: seq<State>, k: nat, c: Handler)
    requires IsRun(states) && k < |states| && c in states[k].ran
    ensures c in states[k].page
  {
    var place, owner := RunKeepsInv(states, k);
    assert c !in place ==> Unlisted(states[k], c);
  }

  /** So the page of a closure that has run never changes again. */
  lemma {:induction false} PageAfterDone(states: seq<State>, j: nat, k: nat, c: Handler)
    requires IsRun(states) && j <= k < |states| && c in states[j].ran
    ensures c in states[k].ran && c in states[j].page && c in states[k].page
    ensures states[k].page[c] == states[j].page[c]
    decreases k
  {
    if j == k {
      HasPage(states, j, c);
    } else {
      PageAfterDone(states, j, k - 1, c);
      NextAfterDone(states, k, c);
    }
  }

  // ----- What a client receives

  /** How the page that c is completed with comes about, when step runs its `done`. */
  ghost predicate CompletedWith(s: State, step: Step, c: Handler, page: Page) {
    && Enabled(s, step)
    && match step
       case ShowOwn(h, p) => h == c && page == p
       case ShowNext(h, p) => s.phase[h].ok && c == s.phase[h].left[0] && page == p
       case NotifyNext(h) => !s.phase[h].ok && c == s.phase[h].left[0] && page == s.page[h]
       case RunDone(h) => h == c && c in s.page && page == s.page[c]
       case _ => false
  }

  lemma StepCompletes(s: State, step: Step, c: Handler)
    requires Enabled(s, step) && c !in s.ran && c in Next(s, step).ran && step.h in s.page
    requires step.NotifyNext? ==> PageOf(s, c) == BLANK
    ensures c in Next(s, step).page && CompletedWith(s, step, c, Next(s, step).page[c])
    ensures Next(s, step).ran == s.ran + [c]
  {
  }

  /** The step that ran the `done` of c. */
  lemma {:induction false} CompletingStep(states: seq<State>, n: nat, c: Handler) returns (k: nat, step: Step)
    requires IsRun(states) && n < |states| && c in states[n].ran
    ensures k < n && c !in states[k].ran && Enabled(states[k], step) && states[k + 1] == Next(states[k], step)
    ensures c in states[k + 1].ran
  {
    if c in states[n - 1].ran {
      k, step := CompletingStep(states, n - 1, c);
    } else {
      k := n - 1;
      step := StepTaken(states, n);
    }
  }

  lemma StepperHasPage(states: seq<State>, k: nat, h: Handler)
    requires IsRun(states) && k < |states| && h in states[k].phase
    ensures h in states[k].page
  {
    var place, owner := RunKeepsInv(states, k);
  }

  /**
    In every run, what a completed client has received was decided by the one step
    that ran its `done`: it was shown a profile, by itself or by the owner it waited
    for; or it was given the error page of a failed owner; or it left with its own page.
  */
  lemma ReceivedPage(states: seq<State>, n: nat, c: Handler) returns (k: nat, step: Step)
    requires IsRun(states) && n < |states| && c in states[n].ran
    ensures k < n && c !in states[k].ran && states[k + 1].ran == states[k].ran + [c]
    ensures Enabled(states[k], step) && states[k + 1] == Next(states[k], step)
    ensures c in states[n].page && CompletedWith(states[k], step, c, states[n].page[c])
  {
    k, step := CompletingStep(states, n, c);
    StepperHasPage(states, k, step.h);
    if step.NotifyNext? {
      assert c in LeftOf(states[k], step.h);
      LeftIsBehind(states, k, step.h, c);
      WaitingIsBlank(states, k, c);
    }
    StepCompletes(states[k], step, c);
    PageAfterDone(states, k + 1, n, c);
  }

  /** Whoever waits, or has waited, has handed its `done` over. */
  lemma {:induction false} BehindIsQueued(states: seq<State>, k: nat, w: Handler)
    requires IsRun(states) && k < |states| && w in states[k].behind
    ensures w in states[k].phase && states[k].phase[w].Queued?
  {
    if k > 0 {
      var step := StepTaken(states, k);
      if w in states[k - 1].behind {
        BehindIsQueued(states, k - 1, w);
      }
    }
  }

  /** Whenever its owner looks at the client, locked or not, it is there; no CHECK fails. */
  lemma OwnerFindsClient(s: State, h: Handler)
    requires Reachable(s) && h in s.phase && OwnsClient(s.phase[h])
    ensures !s.checkFailed && s.env.client == Some(s.phase[h].run)
    ensures forall g :: g in s.phase && OwnsClient(s.phase[g]) ==> g == h
  {
    var place, owner := ReachableInv(s);
  }

  /** A waiter is completed by the run it queued behind: by the owner of the client it found. */
  lemma CompletedByOwnRun(s: State, o: Handler, w: Handler)
    requires Reachable(s) && w in LeftOf(s, o)
    ensures w in s.behind && o in s.phase && s.behind[w] == s.phase[o].run
    ensures forall g :: g in s.phase && HasRunId(s.phase[g]) && s.phase[g].run == s.behind[w] ==> g == o
  {
    var place, owner := ReachableInv(s);
    assert LeftMatched(s, o);
  }

  /**
    Who enters while a run is in progress joins the end of the queue; otherwise who
    asks for the cached result leaves, and anybody else starts the next run.
  */
  lemma EnterOutcome(s: State, h: Handler)
    requires Reachable(s) && Enabled(s, EnterLock(h))
    ensures var t := Next(s, EnterLock(h));
            if s.env.client.Some? then
              t.env == s.env.(waiters := s.env.waiters + [h]) && t.phase[h] == Queued
            else if s.env.cached.Some? && s.env.cached.value.id == s.phase[h].profId then
              t.env == s.env && t.phase[h] == Leaving && s.phase[h].profId > 0
            else
              var id := s.env.curId + 1;
              t.env == Env(id, Some(id), [], s.env.cached) && t.phase[h] == Owning(id) && id > 0
  {
    var place, owner := ReachableInv(s);
    EntryIs(s.env, h, s.phase[h].profId);
  }

  lemma EntryIs(env: Env, h: Handler, profId: int64)
    requires CanEnter(env, profId) && 0 <= env.curId && (env.client.None? ==> env.waiters == [])
    ensures Enter(env, h, profId) ==
            if env.client.Some? then (env.(waiters := env.waiters + [h]), Wait)
            else if env.cached.Some? && env.cached.value.id == profId then (env, Hit(env.cached.value.page))
            else (Env(env.curId + 1, Some(env.curId + 1), [], env.cached), Claim(env.curId + 1))
  {
  }

  /** Ids of new runs are larger than all before and never 0, so a request without an id never hits the cache. */
  lemma IdsGrow(s: State, h: Handler)
    requires Reachable(s) && Enabled(s, EnterLock(h))
    ensures var entry := Enter(s.env, h, s.phase[h].profId).1;
            && (entry.Claim? ==> entry.id > s.env.curId >= 0)
            && (entry.Claim? ==> forall g :: g in s.phase && HasRunId(s.phase[g]) ==> s.phase[g].run < entry.id)
            && (s.phase[h].profId == 0 ==> !entry.Hit?)
  {
    var place, owner := ReachableInv(s);
  }

  // ----- The cached result

  /**
    Releasing the client hands the whole queue to the owner and caches its page: the
    error page of a failed run, for a successful one a page nothing has been written to.
  */
  lemma CacheAfterRun(s: State, h: Handler)
    requires Reachable(s) && Enabled(s, ConsumeLocked(h))
    ensures var t := Next(s, ConsumeLocked(h)); var p := s.phase[h];
            && t.env == Env(s.env.curId, None, [], Some(CachedResult(p.run, s.page[h])))
            && t.phase[h] == Completing(p.run, p.ok, s.env.waiters, false)
            && (p.ok ==> t.env.cached.value.page == Page(200, ""))
  {
    var place, owner := ReachableInv(s);
    ConsumeRecords(s, h, owner);
  }

  lemma RunKeepsFailedPage(states: seq<State>, k: nat, id: int64)
    requires IsRun(states) && k + 1 < |states| && id in states[k].runs && !states[k].runs[id].ok
    ensures var o := states[k].runs[id].owner;
            o in states[k].page && o in states[k + 1].page && states[k + 1].page[o] == states[k].page[o]
  {
    var step := StepTaken(states, k + 1);
    var place, owner := RunKeepsInv(states, k);
    FailedKeepsPage(states[k], step, place, id);
  }

  lemma RunIdIsNew(states: seq<State>, k: nat, h: Handler)
    requires IsRun(states) && k < |states| && Enabled(states[k], ConsumeLocked(h))
    ensures states[k].phase[h].run !in states[k].runs
  {
    var place, owner := RunKeepsInv(states, k);
  }

  /** A released run stays on record as it is, because ids are not used twice. */
  lemma RecordStays(states: seq<State>, k: nat, id: int64)
    requires IsRun(states) && k + 1 < |states| && id in states[k].runs
    ensures id in states[k + 1].runs && states[k + 1].runs[id] == states[k].runs[id]
  {
    var step := StepTaken(states, k + 1);
    if step.ConsumeLocked? {
      RunIdIsNew(states, k, step.h);
    }
  }

  lemma OwnerHasPage(states: seq<State>, k: nat, id: int64)
    requires IsRun(states) && k < |states| && id in states[k].runs
    ensures states[k].runs[id].owner in states[k].page
  {
    var place, owner := RunKeepsInv(states, k);
    assert EndedBy(states[k], id, states[k].runs[id]);
  }

  /** The page of a failed run's owner is what it was when the run was recorded. */
  lemma {:induction false} FailedPageStays(states: seq<State>, j: nat, k: nat, id: int64)
    requires IsRun(states) && j <= k < |states| && id in states[j].runs && !states[j].runs[id].ok
    ensures id in states[k].runs && states[k].runs[id] == states[j].runs[id]
    ensures var o := states[j].runs[id].owner;
            o in states[j].page && o in states[k].page && states[k].page[o] == states[j].page[o]
    decreases k
  {
    if j == k {
      OwnerHasPage(states, j, id);
    } else {
      FailedPageStays(states, j, k - 1, id);
      RecordStays(states, k - 1, id);
      RunKeepsFailedPage(states, k - 1, id);
    }
  }

  lemma ArrivingIsBlank(states: seq<State>, k: nat, h: Handler)
    requires IsRun(states) && k < |states| && h in states[k].phase && states[k].phase[h].Arriving?
    ensures h in states[k].page && states[k].page[h] == BLANK
  {
    var place, owner := RunKeepsInv(states, k);
  }

  lemma WaitingStep(s: State, step: Step, w: Handler)
    requires Enabled(s, step) && w in s.phase && s.phase[w].Queued? && w in s.page && w !in Next(s, step).ran
    ensures w in Next(s, step).page && Next(s, step).page[w] == s.page[w] && w !in s.ran
  {
  }

  /** Nobody writes to the response of one who waits, so there is nothing for a page to be appended to. */
  lemma {:induction false} WaitingIsBlank(states: seq<State>, k: nat, w: Handler)
    requires IsRun(states) && k < |states| && w in states[k].behind && w !in states[k].ran
    ensures w in states[k].page && states[k].page[w] == BLANK
  {
    if k > 0 {
      var step := StepTaken(states, k);
      if w in states[k - 1].behind {
        BehindIsQueued(states, k - 1, w);
        StepperHasPage(states, k - 1, w);
        WaitingStep(states[k - 1], step, w);
        WaitingIsBlank(states, k - 1, w);
      } else {
        ArrivingIsBlank(states, k - 1, w);
      }
    }
  }

  lemma CompletingComesFrom(s: State, step: Step, owner: Option<Handler>, h: Handler)
    requires Owned(s, owner) && Enabled(s, step) && h in Next(s, step).phase && Next(s, step).phase[h].Completing?
    ensures var p := Next(s, step).phase[h];
            if step == ConsumeLocked(h) then p.run in Next(s, step).runs && Next(s, step).runs[p.run] == Run(h, p.ok)
            else h in s.phase && s.phase[h].Completing? && s.phase[h].run == p.run && s.phase[h].ok == p.ok
  {
  }

  lemma OwnedInRun(states: seq<State>, k: nat) returns (owner: Option<Handler>)
    requires IsRun(states) && k < |states|
    ensures Owned(states[k], owner)
  {
    var place;
    place, owner := RunKeepsInv(states, k);
  }

  /** An owner that completes closures has its run on record. */
  lemma {:induction false} CompletingIsRecorded(states: seq<State>, k: nat, h: Handler)
    requires IsRun(states) && k < |states| && h in states[k].phase && states[k].phase[h].Completing?
    ensures states[k].phase[h].run in states[k].runs
    ensures states[k].runs[states[k].phase[h].run] == Run(h, states[k].phase[h].ok)
  {
    if k > 0 {
      var step := StepTaken(states, k);
      var owner := OwnedInRun(states, k - 1);
      CompletingComesFrom(states[k - 1], step, owner, h);
      if step != ConsumeLocked(h) {
        CompletingIsRecorded(states, k - 1, h);
        RecordStays(states, k - 1, states[k].phase[h].run);
      }
    }
  }

  lemma {:induction false} RecordStaysOn(states: seq<State>, j: nat, k: nat, id: int64)
    requires IsRun(states) && j <= k < |states| && id in states[j].runs
    ensures id in states[k].runs && states[k].runs[id] == states[j].runs[id]
    decreases k
  {
    if j < k {
      RecordStaysOn(states, j, k - 1, id);
      RecordStays(states, k - 1, id);
    }
  }

  /** Nobody waits for a second run. */
  lemma {:induction false} BehindStays(states: seq<State>, j: nat, k: nat, w: Handler)
    requires IsRun(states) && j <= k < |states| && w in states[j].behind
    ensures w in states[k].behind && states[k].behind[w] == states[j].behind[w]
    decreases k
  {
    if j < k {
      BehindStays(states, j, k - 1, w);
      BehindIsQueued(states, k - 1, w);
      var step := StepTaken(states, k);
    }
  }

  lemma LeftIsBehind(states: seq<State>, k: nat, o: Handler, w: Handler)
    requires IsRun(states) && k < |states| && w in LeftOf(states[k], o)
    ensures w in states[k].behind && states[k].behind[w] == states[k].phase[o].run
  {
    var place, owner := RunKeepsInv(states, k);
    assert LeftMatched(states[k], o);
  }

  /** Nobody starts to wait once its `done` has run. */
  lemma {:induction false} BehindBeforeDone(states: seq<State>, j: nat, k: nat, w: Handler)
    requires IsRun(states) && j <= k < |states| && w in states[j].ran && w in states[k].behind
    ensures w in states[j].behind
    decreases k
  {
    if j < k {
      PageAfterDone(states, j, k - 1, w);
      var step := StepTaken(states, k);
      RanIsUntouched(states, k - 1, step, w);
      BehindBeforeDone(states, j, k - 1, w);
    }
  }

  /** The owner that completed a waiter is the one whose run it waited for. */
  lemma CompletedByRun(states: seq<State>, n: nat, w: Handler) returns (k: nat, step: Step)
    requires IsRun(states) && n < |states| && w in states[n].ran && w in states[n].behind
    ensures k < n && w !in states[k].ran && states[k + 1].ran == states[k].ran + [w]
    ensures Enabled(states[k], step) && states[k + 1] == Next(states[k], step)
    ensures w in states[n].page && CompletedWith(states[k], step, w, states[n].page[w])
    ensures step.ShowNext? || step.NotifyNext?
    ensures var id := states[n].behind[w];
            && states[k].phase[step.h].run == id && id in states[k].runs && id in states[n].runs
            && states[n].runs[id] == states[k].runs[id] == Run(step.h, step.ShowNext?)
  {
    k, step := ReceivedPage(states, n, w);
    if step.ShowNext? || step.NotifyNext? {
      assert w in LeftOf(states[k], step.h);
      LeftIsBehind(states, k, step.h, w);
      BehindStays(states, k, n, w);
      CompletingIsRecorded(states, k, step.h);
      RecordStaysOn(states, k, n, states[n].behind[w]);
    } else {
      BehindBeforeDone(states, k + 1, n, w);
      BehindIsQueued(states, k + 1, w);
    }
  }

  /**
    In every reachable state: a completed waiter waited for a run that is on record, and
    if that run failed it received the very page of the run's owner.
  */
  lemma WaiterReceivesError(s: State, w: Handler)
    requires Reachable(s) && w in s.ran && w in s.behind
    ensures s.behind[w] in s.runs
    ensures var r := s.runs[s.behind[w]];
            w in s.page && r.owner in s.page && (!r.ok ==> s.page[w] == s.page[r.owner])
  {
    var states :| IsRun(states) && states[|states| - 1] == s;
    var n := |states| - 1;
    var k, step := CompletedByRun(states, n, w);
    OwnerHasPage(states, n, s.behind[w]);
    if step.NotifyNext? {
      FailedPageStays(states, k, n, s.behind[w]);
    }
  }

  lemma {:induction false} RanGrows(states: seq<State>, j: nat, k: nat)
    requires IsRun(states) && j <= k < |states|
    ensures states[j].ran <= states[k].ran
    decreases k
  {
    if j < k {
      RanGrows(states, j, k - 1);
      var step := StepTaken(states, k);
    }
  }

  lemma FoundEarlier(early: seq<Handler>, late: seq<Handler>, w: Handler, o: Handler, i: nat, j: nat)
    requires early + [w] <= late && Distinct(late) && o != w
    requires i < |late| && late[i] == o && j < |late| && late[j] == w
    ensures i < j <==> o in early
  {
    var m := |early|;
    assert late[..m + 1] == early + [w];
    assert late[m] == w;
    forall x | 0 <= x < m ensures late[x] == early[x] {
      assert late[..m + 1][x] == early[x];
    }
    if o in early {
      var x :| 0 <= x < m && early[x] == o;
      assert late[x] == o;
    }
  }

  lemma RanInOrder(states: seq<State>, k: nat, n: nat, w: Handler, o: Handler, i: nat, j: nat)
    requires IsRun(states) && k < n < |states| && states[k + 1].ran == states[k].ran + [w]
    requires i < |states[n].ran| && states[n].ran[i] == o && j < |states[n].ran| && states[n].ran[j] == w && o != w
    ensures i < j <==> o in states[k].ran
  {
    var place, owner := RunKeepsInv(states, n);
    RanGrows(states, k + 1, n);
    FoundEarlier(states[k].ran, states[n].ran, w, o, i, j);
  }

  lemma OwnerRanWhen(states: seq<State>, k: nat, h: Handler)
    requires IsRun(states) && k < |states| && h in states[k].phase && states[k].phase[h].Completing?
    ensures h in states[k].ran <==> states[k].phase[h].ownRan
    ensures states[k].phase[h].ownRan ==> states[k].phase[h].ok
  {
    var place, owner := RunKeepsInv(states, k);
    assert PlacedAt(states[k], place[h], h);
  }

  /** A successful owner is completed before everybody who waited for it, a failed one after them. */
  lemma OwnerFirstIff(s: State, w: Handler, i: nat, j: nat)
    requires Reachable(s) && w in s.behind && s.behind[w] in s.runs
    requires i < |s.ran| && s.ran[i] == s.runs[s.behind[w]].owner && j < |s.ran| && s.ran[j] == w
    ensures i < j <==> s.runs[s.behind[w]].ok
  {
    var states :| IsRun(states) && states[|states| - 1] == s;
    var n := |states| - 1;
    var k, step := CompletedByRun(states, n, w);
    OwnerRanWhen(states, k, step.h);
    LeftIsBehind(states, k, step.h, w);
    BehindIsQueued(states, k, w);
    RanInOrder(states, k, n, w, step.h, i, j);
  }

  // ----- The order of completion

  /** v was in the queue, or past it, by the time w joined. */
  ghost predicate CameBefore(states: seq<State>, k: nat, v: Handler, w: Handler)
    requires k < |states|
  {
    forall j :: 0 <= j <= k && w in states[j].behind ==> v in states[j].behind
  }

  ghost predicate InLine(states: seq<State>, k: nat, line: seq<Handler>)
    requires k < |states|
  {
    forall x, y :: 0 <= x < y < |line| ==> CameBefore(states, k, line[x], line[y])
  }

  lemma StaysInLine(states: seq<State>, k: nat, line: seq<Handler>)
    requires IsRun(states) && k + 1 < |states| && InLine(states, k, line)
    requires forall x :: 0 <= x < |line| ==> line[x] in states[k + 1].behind
    ensures InLine(states, k + 1, line)
  {
    forall x, y | 0 <= x < y < |line| ensures CameBefore(states, k + 1, line[x], line[y]) {
      assert CameBefore(states, k, line[x], line[y]);
    }
  }

  /** One who queues now has not queued before. */
  lemma JoinsLine(states: seq<State>, k: nat, line: seq<Handler>, h: Handler)
    requires IsRun(states) && k + 1 < |states| && InLine(states, k, line)
    requires forall x :: 0 <= x < |line| ==> line[x] in states[k + 1].behind
    requires h in states[k].phase && !states[k].phase[h].Queued?
    ensures InLine(states, k + 1, line + [h])
  {
    StaysInLine(states, k, line);
    forall j | 0 <= j <= k ensures h !in states[j].behind {
      if h in states[j].behind {
        BehindStays(states, j, k, h);
        BehindIsQueued(states, k, h);
      }
    }
    var longer := line + [h];
    forall x, y | 0 <= x < y < |longer| ensures CameBefore(states, k + 1, longer[x], longer[y]) {
      assert y < |line| ==> CameBefore(states, k + 1, line[x], line[y]);
    }
  }

  lemma ListedAreBehind(states: seq<State>, k: nat, o: Handler)
    requires IsRun(states) && k < |states|
    ensures forall w :: w in states[k].env.waiters ==> w in states[k].behind
    ensures forall w :: w in LeftOf(states[k], o) ==> w in states[k].behind
  {
    var place, owner := RunKeepsInv(states, k);
    assert LeftMatched(states[k], o);
  }

  /** A step leaves the queue as it is, takes all of it, or adds one to its end. */
  lemma QueueChanges(s: State, step: Step)
    requires Enabled(s, step)
    ensures var waiters := Next(s, step).env.waiters;
            waiters == s.env.waiters || waiters == [] ||
            (step.EnterLock? && waiters == s.env.waiters + [step.h] && s.phase[step.h].Arriving?)
  {
  }

  lemma {:induction false} QueueInLine(states: seq<State>, k: nat)
    requires IsRun(states) && k < |states|
    ensures InLine(states, k, states[k].env.waiters)
  {
    if k > 0 {
      QueueInLine(states, k - 1);
      var step := StepTaken(states, k);
      QueueChanges(states[k - 1], step);
      ListedAreBehind(states, k, 0);
      var line, now := states[k - 1].env.waiters, states[k].env.waiters;
      if now == line {
        StaysInLine(states, k - 1, line);
      } else if now != [] {
        assert forall x :: 0 <= x < |line| ==> line[x] == now[x] && now[x] in now;
        JoinsLine(states, k - 1, line, step.h);
      }
    }
  }

  lemma TailInLine(states: seq<State>, k: nat, line: seq<Handler>)
    requires k < |states| && InLine(states, k, line) && line != []
    ensures InLine(states, k, line[1..])
  {
    forall x, y | 0 <= x < y < |line[1..]| ensures CameBefore(states, k, line[1..][x], line[1..][y]) {
      assert CameBefore(states, k, line[x + 1], line[y + 1]);
    }
  }

  lemma NextInLine(states: seq<State>, k: nat, line: seq<Handler>, waiters: seq<Handler>, left: seq<Handler>)
    requires k < |states| && InLine(states, k, line) && InLine(states, k, waiters)
    requires left == line || left == [] || left == waiters || (line != [] && left == line[1..])
    ensures InLine(states, k, left)
  {
    if line != [] {
      TailInLine(states, k, line);
    }
  }

  /** A list is kept, shortened from the front, or taken from the queue. */
  lemma ListChanges(s: State, step: Step, o: Handler)
    requires Enabled(s, step)
    ensures var left := LeftOf(Next(s, step), o);
            left == LeftOf(s, o) || left == [] || left == s.env.waiters ||
            (LeftOf(s, o) != [] && left == LeftOf(s, o)[1..])
  {
  }

  lemma {:induction false} ListInLine(states: seq<State>, k: nat, o: Handler)
    requires IsRun(states) && k < |states|
    ensures InLine(states, k, LeftOf(states[k], o))
  {
    if k > 0 {
      ListInLine(states, k - 1, o);
      QueueInLine(states, k - 1);
      ListComesFrom(states, k, o);
      ListedAreBehind(states, k, o);
      NextInLine(states, k - 1, LeftOf(states[k - 1], o), states[k - 1].env.waiters, LeftOf(states[k], o));
      StaysInLine(states, k - 1, LeftOf(states[k], o));
    }
  }

  lemma ListComesFrom(states: seq<State>, k: nat, o: Handler)
    requires IsRun(states) && 0 < k < |states|
    ensures var line, left := LeftOf(states[k - 1], o), LeftOf(states[k], o);
            left == line || left == [] || left == states[k - 1].env.waiters || (line != [] && left == line[1..])
  {
    var step := StepTaken(states, k);
    ListChanges(states[k - 1], step, o);
  }

  /** While one who waited for a run is completed, all others of that run are done or on the same list. */
  lemma SameList(states: seq<State>, k: nat, h: Handler, v: Handler)
    requires IsRun(states) && k < |states| && h in states[k].phase && states[k].phase[h].Completing?
    requires v in states[k].behind && states[k].behind[v] == states[k].phase[h].run
    ensures v in states[k].ran || v in LeftOf(states[k], h)
  {
    CompletingIsRecorded(states, k, h);
    BehindIsQueued(states, k, v);
    var place, owner := RunKeepsInv(states, k);
    SameListNow(states[k], place, h, v);
  }

  lemma SameListNow(s: State, place: map<Handler, Place>, h: Handler, v: Handler)
    requires Placed(s, place) && Numbered(s) && Matched(s) && RunsArePast(s)
    requires h in s.phase && s.phase[h].Completing? && s.phase[h].run in s.runs
    requires v in s.phase && s.phase[v].Queued? && v in s.behind && s.behind[v] == s.phase[h].run
    ensures v in s.ran || v in LeftOf(s, h)
  {
    assert PlacedAt(s, place[v], v);
    if place[v].Drained? {
      assert LeftMatched(s, place[v].owner);
    }
  }

  lemma FirstCameFirst(states: seq<State>, k: nat, m: nat, line: seq<Handler>, v: Handler, w: Handler)
    requires k < |states| && m <= k && InLine(states, k, line) && line != [] && line[0] == w && v in line
    requires v in states[m].behind
    ensures w in states[m].behind
  {
    var x :| 0 <= x < |line| && line[x] == v;
    assert x > 0 ==> CameBefore(states, k, line[0], line[x]);
  }

  /** Those who waited for one run are completed in the order they joined the queue. */
  lemma WaitersInOrder(states: seq<State>, m: nat, n: nat, v: Handler, w: Handler, i: nat, j: nat)
    requires IsRun(states) && m <= n < |states| && v in states[m].behind && w !in states[m].behind
    requires w in states[n].behind && states[m].behind[v] == states[n].behind[w]
    requires i < |states[n].ran| && states[n].ran[i] == v && j < |states[n].ran| && states[n].ran[j] == w
    ensures i < j
  {
    var k, step := CompletedByRun(states, n, w);
    LeftIsBehind(states, k, step.h, w);
    if k < m {
      BehindStays(states, k, m, w);
    }
    BehindStays(states, m, k, v);
    BehindStays(states, k, n, w);
    SameList(states, k, step.h, v);
    if v !in states[k].ran {
      ListInLine(states, k, step.h);
      FirstCameFirst(states, k, m, LeftOf(states[k], step.h), v, w);
    }
    RanInOrder(states, k, n, w, v, i, j);
  }

  predicate Hits(s: State, h: Handler) {
    Enabled(s, EnterLock(h)) && Enter(s.env, h, s.phase[h].profId).1.Hit?
  }

  /** A hit returns the page of the finished run whose id the request carries. */
  lemma HitFindsRun(states: seq<State>, i: nat, h: Handler)
    requires IsRun(states) && i < |states| && Hits(states[i], h)
    ensures var s := states[i]; var id := s.phase[h].profId;
            && id in s.runs && s.runs[id].owner in s.page
            && Enter(s.env, h, id).1 == Hit(if s.runs[id].ok then BLANK else s.page[s.runs[id].owner])
  {
    var place, owner := RunKeepsInv(states, i);
  }

  /**
    When a hit at point i is compared with what the owner of that run has ended
    with, at any point j of the same run of the system: they agree if and only if
    the run failed or its own page is blank. A successful run is cached before its
    profile is displayed.
  */
  lemma HitAgreesIff(states: seq<State>, i: nat, h: Handler, j: nat)
    requires IsRun(states) && i < |states| && Hits(states[i], h) && states[i].phase[h].profId in states[i].runs
    requires j < |states| && states[i].runs[states[i].phase[h].profId].owner in states[j].ran
    ensures var r := states[i].runs[states[i].phase[h].profId];
            && r.owner in states[j].page
            && (Enter(states[i].env, h, states[i].phase[h].profId).1.page == states[j].page[r.owner] <==>
                  !r.ok || states[j].page[r.owner] == BLANK)
  {
    var id := states[i].phase[h].profId;
    HitFindsRun(states, i, h);
    HasPage(states, j, states[i].runs[id].owner);
    if !states[i].runs[id].ok {
      if i <= j {
        FailedPageStays(states, i, j, id);
      } else {
        PageAfterDone(states, j, i, states[i].runs[id].owner);
      }
    }
  }

  lemma LeavingKeepsPage(s: State, step: Step, place: map<Handler, Place>, h: Handler)
    requires Placed(s, place) && Enabled(s, step) && h in s.phase && s.phase[h].Leaving? && h in s.page
    ensures h in Next(s, step).page && Next(s, step).page[h] == s.page[h]
    ensures h in Next(s, step).phase && (Next(s, step).phase[h].Leaving? || h in Next(s, step).ran)
  {
    if step.ShowNext? || step.NotifyNext? {
      FirstLeftIsPlaced(s, place, step.h);
      assert PlacedAt(s, place[h], h);
    }
  }

  /** The page a handler leaves with is the page its client receives. */
  lemma {:induction false} LeavingPage(states: seq<State>, j: nat, k: nat, h: Handler)
    requires IsRun(states) && j <= k < |states| && h in states[j].phase && states[j].phase[h].Leaving?
    ensures h in states[j].page && h in states[k].page && states[k].page[h] == states[j].page[h]
    ensures h in states[k].phase && (states[k].phase[h].Leaving? || h in states[k].ran)
    decreases k
  {
    if j == k {
      StepperHasPage(states, j, h);
    } else {
      LeavingPage(states, j, k - 1, h);
      if h in states[k - 1].ran {
        NextAfterDone(states, k, h);
        var p := PhaseStays(states, k, h);
      } else {
        var step := StepTaken(states, k);
        var place, owner := RunKeepsInv(states, k - 1);
        LeavingKeepsPage(states[k - 1], step, place, h);
      }
    }
  }

  lemma PhaseStays(states: seq<State>, k: nat, h: Handler) returns (p: Phase)
    requires IsRun(states) && 0 < k < |states| && h in states[k - 1].phase
    ensures h in states[k].phase && states[k].phase[h] == p
  {
    var step := StepTaken(states, k);
    p := states[k].phase[h];
  }

  /** From a hit on, the response holds the page of the run: the owner's error page, or a blank one. */
  lemma HitReceives(states: seq<State>, i: nat, n: nat, h: Handler)
    requires IsRun(states) && i < n < |states| && Hits(states[i], h)
    requires states[i + 1] == Next(states[i], EnterLock(h))
    ensures var s := states[i]; var id := s.phase[h].profId;
            && id in s.runs && s.runs[id].owner in s.page && h in states[n].page
            && states[n].page[h] == if s.runs[id].ok then BLANK else s.page[s.runs[id].owner]
  {
    HitFindsRun(states, i, h);
    ArrivingIsBlank(states, i, h);
    LeavingPage(states, i + 1, n, h);
  }

  // ----- Where a page comes from

  /** A handler that will complete itself with the page it has: on its way out, or failed. */
  predicate KeepsOwnPage(p: Phase) {
    p.Leaving? || (p.Consuming? && !p.ok) || (p.Completing? && !p.ok)
  }

  lemma OthersKeepPage(s: State, step: Step, place: map<Handler, Place>, c: Handler)
    requires Placed(s, place) && Enabled(s, step) && c in s.phase && HoldsOwnDone(s.phase[c]) && c in s.page
    requires step.h != c
    ensures c in Next(s, step).page && Next(s, step).page[c] == s.page[c]
    ensures c in Next(s, step).phase && Next(s, step).phase[c] == s.phase[c]
  {
    if step.ShowNext? || step.NotifyNext? {
      FirstLeftIsPlaced(s, place, step.h);
      assert PlacedAt(s, place[c], c);
    }
  }

  /** A step of c that puts it on its way out or lets it fail, or leaves it there. */
  lemma OwnStepKeepsPage(s: State, step: Step, place: map<Handler, Place>)
    requires Placed(s, place) && Ordered(s) && Enabled(s, step) && KeepsOwnPage(Next(s, step).phase[step.h])
    requires step.h in s.phase && step.h in s.page && !step.Fail? && !step.EnterLock?
    ensures KeepsOwnPage(s.phase[step.h]) && HoldsOwnDone(s.phase[step.h])
    ensures s.phase[step.h].Leaving? <==> Next(s, step).phase[step.h].Leaving?
    ensures step.h in Next(s, step).page && Next(s, step).page[step.h] == s.page[step.h]
  {
    if step.ShowNext? || step.NotifyNext? {
      FirstLeftIsPlaced(s, place, step.h);
      assert PlacedAt(s, place[step.h], step.h);
    }
  }

  /** The page of such a handler was written when it became one. */
  ghost predicate WrittenBy(s: State, step: Step, c: Handler, page: Page) {
    && Enabled(s, step)
    && match step
       case ArriveAndLeave(h, p) => h == c && page == p
       case Fail(h, p) => h == c && page == p
       case EnterLock(h) => h == c && Hits(s, h)
       case _ => false
  }

  lemma {:induction false} OwnPageFrom(states: seq<State>, k: nat, c: Handler) returns (j: nat, step: Step)
    requires IsRun(states) && k < |states| && c in states[k].phase && KeepsOwnPage(states[k].phase[c])
    ensures c in states[k].page && j < k && WrittenBy(states[j], step, c, states[k].page[c])
    ensures states[j + 1] == Next(states[j], step) && (step.Fail? <==> !states[k].phase[c].Leaving?)
  {
    step := StepTaken(states, k);
    StepperHasPage(states, k, c);
    j := k - 1;
    if !WrittenBy(states[j], step, c, states[k].page[c]) {
      OwnPageStays(states, k, step, c);
      j, step := OwnPageFrom(states, k - 1, c);
    }
  }

  lemma OwnPageStays(states: seq<State>, k: nat, step: Step, c: Handler)
    requires IsRun(states) && 0 < k < |states| && Enabled(states[k - 1], step) && states[k] == Next(states[k - 1], step)
    requires c in states[k].phase && KeepsOwnPage(states[k].phase[c]) && c in states[k].page
    requires !WrittenBy(states[k - 1], step, c, states[k].page[c])
    ensures c in states[k - 1].phase && KeepsOwnPage(states[k - 1].phase[c]) && c in states[k - 1].page
    ensures states[k].page[c] == states[k - 1].page[c]
    ensures states[k].phase[c].Leaving? <==> states[k - 1].phase[c].Leaving?
  {
    var place := PlacedInRun(states, k - 1);
    OwnPageKept(states[k - 1], step, place, c);
  }

  lemma PlacedInRun(states: seq<State>, k: nat) returns (place: map<Handler, Place>)
    requires IsRun(states) && k < |states|
    ensures Placed(states[k], place) && Ordered(states[k]) && Paged(states[k])
  {
    var owner;
    place, owner := RunKeepsInv(states, k);
  }

  lemma OwnPageKept(s: State, step: Step, place: map<Handler, Place>, c: Handler)
    requires Placed(s, place) && Ordered(s) && Paged(s) && Enabled(s, step)
    requires var t := Next(s, step);
             c in t.phase && KeepsOwnPage(t.phase[c]) && c in t.page && !WrittenBy(s, step, c, t.page[c])
    ensures c in s.phase && KeepsOwnPage(s.phase[c]) && c in s.page && Next(s, step).page[c] == s.page[c]
    ensures Next(s, step).phase[c].Leaving? <==> s.phase[c].Leaving?
  {
    if step.h == c {
      WasThereBefore(s, step);
      OwnStepKeepsPage(s, step, place);
    } else {
      OthersKeepPage(s, step, place, c);
    }
  }

  lemma WasThereBefore(s: State, step: Step)
    requires Enabled(s, step) && KeepsOwnPage(Next(s, step).phase[step.h]) && step.h in Next(s, step).page
    requires !WrittenBy(s, step, step.h, Next(s, step).page[step.h])
    ensures step.h in s.phase && !step.Fail? && !step.EnterLock?
  {
  }

  /** c waited for a run of o. */
  ghost predicate WaitedFor(t: State, c: Handler, o: Handler) {
    c in t.behind && t.behind[c] in t.runs && t.runs[t.behind[c]].owner == o
  }

  /** The step that decided on the page: by c itself, or by the owner of the run it waited for. */
  ghost predicate DecidedBy(s: State, step: Step, t: State, c: Handler, page: Page) {
    match step
    case ArriveAndLeave(h, p) => h == c && page == p
    case ShowOwn(h, p) => h == c && page == p
    case ShowNext(h, p) => WaitedFor(t, c, h) && t.runs[t.behind[c]].ok && page == p
    case Fail(h, p) => (h == c || (WaitedFor(t, c, h) && !t.runs[t.behind[c]].ok)) && page == p
    case EnterLock(h) => h == c && Hits(s, h)
    case _ => false
  }

  /**
    In every run, every page a client has received was decided on by one step: the
    display of a profile or an error, for itself or for a run it waited for; or, as
    HitReceives says of it, a hit in the cache.
  */
  lemma PageIsDecided(states: seq<State>, n: nat, c: Handler) returns (j: nat, step: Step)
    requires IsRun(states) && n < |states| && c in states[n].ran
    ensures j < n && Enabled(states[j], step) && states[j + 1] == Next(states[j], step)
    ensures c in states[n].page && DecidedBy(states[j], step, states[n], c, states[n].page[c])
  {
    j, step := ReceivedPage(states, n, c);
    if step.RunDone? {
      j, step := OwnPageFrom(states, j, c);
    } else if step.ShowNext? || step.NotifyNext? {
      assert c in LeftOf(states[j], step.h);
      LeftIsBehind(states, j, step.h, c);
      BehindStays(states, j, n, c);
      j, step := WaiterPageIsDecided(states, n, c);
    }
  }

  lemma WaiterPageIsDecided(states: seq<State>, n: nat, c: Handler) returns (j: nat, step: Step)
    requires IsRun(states) && n < |states| && c in states[n].ran && c in states[n].behind
    ensures j < n && Enabled(states[j], step) && states[j + 1] == Next(states[j], step)
    ensures c in states[n].page && DecidedBy(states[j], step, states[n], c, states[n].page[c])
  {
    j, step := CompletedByRun(states, n, c);
    if step.NotifyNext? {
      j, step := OwnPageFrom(states, j, step.h);
    }
  }

  lemma RunNext(states: seq<State>, step: Step)
    requires IsRun(states) && Enabled(states[|states| - 1], step)
    ensures IsRun(states + [Next(states[|states| - 1], step)])
  {
    var n := |states|;
    var longer := states + [Next(states[n - 1], step)];
    assert Follows(states[n - 1], longer[n]);
    forall j, k | 0 <= j && k == j + 1 < |longer| ensures Follows(longer[j], longer[k]) {
      if k < n {
        assert Follows(states[j], states[k]);
      }
    }
  }

  lemma ExtendRun(states: seq<State>, step: Step) returns (longer: seq<State>)
    requires IsRun(states) && Enabled(states[|states| - 1], step)
    ensures IsRun(longer) && longer[|longer| - 1] == Next(states[|states| - 1], step)
  {
    longer := states + [Next(states[|states| - 1], step)];
    RunNext(states, step);
  }

  /** A first run that is about to release the client. */
  lemma FirstClaim() returns (states: seq<State>)
    ensures IsRun(states)
    ensures states[|states| - 1] == State(Env(1, Some(1), [], None), map[0 := Consuming(1, true)], map[0 := BLANK],
                                          [], map[], map[], false)
  {
    states := [State(Env(0, None, [], None), map[], map[], [], map[], map[], false)];
    states := ExtendRun(states, Arrive(0, 0));
    states := ExtendRun(states, EnterLock(0));
    states := ExtendRun(states, Succeed(0));
  }

  /** A first run that wrote and showed its profile. */
  lemma FirstRun(page: Page) returns (states: seq<State>)
    ensures IsRun(states)
    ensures var s := states[|states| - 1];
            && s.phase == map[0 := Completing(1, true, [], true)] && s.page == map[0 := page] && s.ran == [0]
            && s.env == Env(1, None, [], Some(CachedResult(1, BLANK))) && s.runs == map[1 := Run(0, true)]
  {
    states := FirstClaim();
    states := ExtendRun(states, ConsumeLocked(0));
    states := ExtendRun(states, ShowOwn(0, page));
  }

  /** Whatever page the first run has shown, a later request for its result is given a blank one. */
  lemma HitIsBlank(page: Page) returns (states: seq<State>)
    ensures IsRun(states)
    ensures var s := states[|states| - 1];
            && Hits(s, 1) && Enter(s.env, 1, s.phase[1].profId).1 == Hit(BLANK)
            && s.runs == map[1 := Run(0, true)] && s.phase[1].profId == 1
            && 0 in s.ran && 0 in s.page && s.page[0] == page
  {
    states := FirstRun(page);
    states := ExtendRun(states, Arrive(1, 1));
  }

  // ----- Progress

  /** A step of a handler that is already there. */
  predicate IsOwnStep(step: Step) {
    !step.Arrive? && !step.ArriveAndLeave?
  }

  /** What a handler with code left does next, if its profiling succeeds. */
  function NextOwnStep(h: Handler, p: Phase): (step: Step)
    ensures IsOwnStep(step) && step.h == h
  {
    match p
    case Arriving(_) => EnterLock(h)
    case Owning(_) => Succeed(h)
    case Consuming(_, _) => ConsumeLocked(h)
    case Completing(_, ok, left, ownRan) =>
      if ok && !ownRan then ShowOwn(h, BLANK)
      else if left == [] then (if ok then Return(h) else RunDone(h))
      else if ok then ShowNext(h, BLANK)
      else NotifyNext(h)
    case _ => RunDone(h)
  }

  lemma NextOwnStepEnabled(s: State, h: Handler)
    requires h in s.phase && h in s.page && !IsFinished(s.phase[h])
    ensures Enabled(s, NextOwnStep(h, s.phase[h])) <==>
            (s.phase[h].Arriving? ==> CanEnter(s.env, s.phase[h].profId))
  {
  }

  lemma HandlerHasPage(s: State, h: Handler)
    requires Reachable(s) && h in s.phase
    ensures h in s.page
  {
    var place, owner := ReachableInv(s);
  }

  /** A handler with code left can always take a step; only an exhausted id counter keeps it from entering. */
  lemma NobodyIsStuck(s: State, h: Handler)
    requires Reachable(s) && h in s.phase && !IsFinished(s.phase[h])
    ensures (exists step :: IsOwnStep(step) && step.h == h && Enabled(s, step)) <==>
            (s.phase[h].Arriving? ==> CanEnter(s.env, s.phase[h].profId))
  {
    HandlerHasPage(s, h);
    NextOwnStepEnabled(s, h);
    assert IsOwnStep(NextOwnStep(h, s.phase[h]));
  }

  /** How many steps a handler has left at most, counting one for each waiter on its list. */
  function StepsLeft(p: Phase): nat {
    match p
    case Arriving(_) => 5
    case Leaving => 1
    case Queued => 0
    case Owning(_) => 4
    case Consuming(_, _) => 3
    case Completing(_, ok, left, ownRan) => 1 + |left| + if ok && !ownRan then 1 else 0
    case Returned => 0
  }

  function TotalLeft(phase: map<Handler, Phase>, n: nat): nat {
    if n == 0 then 0 else TotalLeft(phase, n - 1) + if n - 1 in phase then StepsLeft(phase[n - 1]) else 0
  }

  /** The steps left to handlers below n, and one for each waiter in the queue. */
  function Work(s: State, n: nat): nat {
    |s.env.waiters| + TotalLeft(s.phase, n)
  }

  lemma {:induction false} TotalChange(phase: map<Handler, Phase>, h: Handler, p: Phase, n: nat)
    requires h in phase
    ensures TotalLeft(phase[h := p], n) ==
            TotalLeft(phase, n) + if h < n then StepsLeft(p) - StepsLeft(phase[h]) else 0
  {
    if n > 0 {
      TotalChange(phase, h, p, n - 1);
    }
  }

  lemma EnterIsWork(s: State, h: Handler)
    requires Enabled(s, EnterLock(h))
    ensures var t := Next(s, EnterLock(h));
            |t.env.waiters| + StepsLeft(t.phase[h]) < |s.env.waiters| + StepsLeft(s.phase[h])
  {
    var t := Next(s, EnterLock(h));
    if s.env.client.Some? {
      assert t.phase[h] == Queued && |t.env.waiters| == |s.env.waiters| + 1;
    } else {
      assert StepsLeft(t.phase[h]) < 5 && t.env.waiters == s.env.waiters;
    }
  }

  lemma ConsumeIsWork(s: State, h: Handler)
    requires Enabled(s, ConsumeLocked(h))
    ensures var t := Next(s, ConsumeLocked(h));
            |t.env.waiters| + StepsLeft(t.phase[h]) < |s.env.waiters| + StepsLeft(s.phase[h])
  {
  }

  lemma OtherStepIsWork(s: State, step: Step)
    requires Enabled(s, step) && IsOwnStep(step) && !step.EnterLock? && !step.ConsumeLocked?
    ensures var t := Next(s, step);
            t.env.waiters == s.env.waiters && StepsLeft(t.phase[step.h]) < StepsLeft(s.phase[step.h])
  {
  }

  /** Every step but an arrival uses up work. */
  lemma WorkShrinks(s: State, step: Step, n: nat)
    requires Enabled(s, step) && IsOwnStep(step) && step.h < n
    ensures Work(Next(s, step), n) < Work(s, n)
  {
    var p := MovesOne(s, step);
    TotalChange(s.phase, step.h, p, n);
    if step.EnterLock? {
      EnterIsWork(s, step.h);
    } else if step.ConsumeLocked? {
      ConsumeIsWork(s, step.h);
    } else {
      OtherStepIsWork(s, step);
    }
  }

  ghost predicate QuietlyFollows(s: State, t: State) {
    exists step :: Enabled(s, step) && IsOwnStep(step) && t == Next(s, step)
  }

  /** A run without arrivals, from any state. */
  ghost predicate IsQuiet(states: seq<State>) {
    && states != []
    && (forall j, k {:trigger QuietlyFollows(states[j], states[k])} ::
          0 <= j && k == j + 1 < |states| ==> QuietlyFollows(states[j], states[k]))
  }

  lemma QuietStepShrinks(s: State, t: State, n: nat)
    requires QuietlyFollows(s, t) && forall h :: h in s.phase ==> h < n
    ensures Work(t, n) < Work(s, n) && t.phase.Keys == s.phase.Keys
  {
    var step :| Enabled(s, step) && IsOwnStep(step) && t == Next(s, step);
    WorkShrinks(s, step, n);
    var p := MovesOne(s, step);
    assert step.h in s.phase;
  }

  lemma QuietPrefix(states: seq<State>, n: nat)
    requires IsQuiet(states) && 0 < n <= |states|
    ensures IsQuiet(states[..n])
  {
    forall j, k | 0 <= j && k == j + 1 < n ensures QuietlyFollows(states[..n][j], states[..n][k]) {
      assert QuietlyFollows(states[j], states[k]);
    }
  }

  /** Without arrivals there are at most as many steps as there was work. */
  lemma {:induction false} QuietRunEnds(states: seq<State>, n: nat)
    requires IsQuiet(states) && forall h :: h in states[0].phase ==> h < n
    ensures |states| - 1 + Work(states[|states| - 1], n) <= Work(states[0], n)
    ensures states[|states| - 1].phase.Keys == states[0].phase.Keys
  {
    var k := |states| - 1;
    if k > 0 {
      QuietPrefix(states, k);
      QuietRunEnds(states[..k], n);
      assert QuietlyFollows(states[k - 1], states[k]);
      assert forall h :: h in states[k - 1].phase ==> h in states[0].phase.Keys;
      QuietStepShrinks(states[k - 1], states[k], n);
    }
  }

  /** And where no handler can go on, ids not being exhausted, every `done` has run. */
  lemma AllDoneRunAtRest(s: State)
    requires Reachable(s) && s.env.curId < INT64_MAX
    requires forall step :: IsOwnStep(step) ==> !Enabled(s, step)
    ensures Distinct(s.ran) && (forall h :: h in s.phase <==> h in s.ran)
    ensures s.env.client.None? && s.env.waiters == []
  {
    forall h | h in s.phase ensures IsFinished(s.phase[h]) {
      if !IsFinished(s.phase[h]) {
        NobodyIsStuck(s, h);
      }
    }
    AllDoneRan(s);
  }

  lemma {:induction false} QuietRunKeepsReachable(states: seq<State>)
    requires IsQuiet(states) && Reachable(states[0])
    ensures Reachable(states[|states| - 1])
  {
    var k := |states| - 1;
    if k > 0 {
      QuietPrefix(states, k);
      QuietRunKeepsReachable(states[..k]);
      assert QuietlyFollows(states[k - 1], states[k]);
      ReachableNext(states[k - 1], states[k]);
    }
  }

  lemma ReachableNext(s: State, t: State)
    requires Reachable(s) && QuietlyFollows(s, t)
    ensures Reachable(t)
  {
    var step :| Enabled(s, step) && IsOwnStep(step) && t == Next(s, step);
    var states :| IsRun(states) && states[|states| - 1] == s;
    var longer := ExtendRun(states, step);
  }

  /** A step gives out at most one id. */
  lemma OneIdPerStep(s: State, t: State)
    requires QuietlyFollows(s, t) && s.env.curId >= 0
    ensures s.env.curId <= t.env.curId <= s.env.curId + 1
  {
  }

  /** So the ids given out are paid for by work. */
  lemma {:induction false} IdsBoundedByWork(states: seq<State>, n: nat)
    requires IsQuiet(states) && states[0].env.curId >= 0 && forall h :: h in states[0].phase ==> h < n
    ensures 0 <= states[|states| - 1].env.curId
    ensures states[|states| - 1].env.curId + Work(states[|states| - 1], n) <= states[0].env.curId + Work(states[0], n)
  {
    var k := |states| - 1;
    if k > 0 {
      QuietPrefix(states, k);
      IdsBoundedByWork(states[..k], n);
      QuietRunEnds(states[..k], n);
      assert QuietlyFollows(states[k - 1], states[k]);
      assert forall h :: h in states[k - 1].phase ==> h in states[0].phase.Keys;
      QuietStepShrinks(states[k - 1], states[k], n);
      OneIdPerStep(states[k - 1], states[k]);
    }
  }

  lemma ReachableIdNotNegative(s: State)
    requires Reachable(s)
    ensures s.env.curId >= 0
  {
    var place, owner := ReachableInv(s);
  }

  /**
    From every reachable state with ids left for the work at hand: however the
    handlers interleave, if nobody arrives any more they stop after at most as many
    steps as there is work, and where they stop every `done` has run exactly once.
  */
  lemma EveryDoneRuns(states: seq<State>, n: nat)
    requires IsQuiet(states) && Reachable(states[0]) && forall h :: h in states[0].phase ==> h < n
    requires states[0].env.curId + Work(states[0], n) < INT64_MAX
    ensures |states| - 1 <= Work(states[0], n)
    ensures var t := states[|states| - 1];
            (forall step :: IsOwnStep(step) ==> !Enabled(t, step)) ==>
              && t.phase.Keys == states[0].phase.Keys
              && Distinct(t.ran) && (forall h :: h in t.phase <==> h in t.ran)
              && t.env.client.None? && t.env.waiters == []
  {
    var t := states[|states| - 1];
    QuietRunEnds(states, n);
    ReachableIdNotNegative(states[0]);
    IdsBoundedByWork(states, n);
    QuietRunKeepsReachable(states);
    if forall step :: IsOwnStep(step) ==> !Enabled(t, step) {
      AllDoneRunAtRest(t);
    }
  }
}
