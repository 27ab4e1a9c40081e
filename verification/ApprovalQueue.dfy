/**
 The approval queue as concurrent processes see it: every rename, write and removal is one
 step, resolvers and redeemers hold the store lock, invalidators do not, and any process may
 die between two steps.
 */
module ApprovalQueue {
  import opened Wrappers
  import opened Approvals

  type Actor = nat
  type Nonce = nat

  datatype Claim = Claim(id: Id, request: Request)

  /** What a process is in the middle of. */
  datatype Work =
    | Claimed(nonce: Nonce, id: Id, request: Request, resolver: bool)
    | Written(nonce: Nonce, id: Id)
    | Loaded(id: Id, next: Resolved)
    | Spent(id: Id, grant: Resolved)
    | Gathering(todo: seq<Piece>, moved: seq<Piece>)
    | Undoing(moved: seq<Piece>)

  /** One approved file of a set that is redeemed whole, as the scan read it. */
  datatype Piece = Piece(id: Id, file: Resolved)

  /** The directories, who is doing what, and a history: claims, decisions, uses, grants handed out. */
  datatype Queue = Queue(
    w: Approvals.World,
    pending: map<Id, Request>,
    scratch: map<Nonce, Claim>,
    approved: map<Id, Resolved>,
    denied: map<Id, Resolved>,
    consumed: map<Id, Resolved>,
    work: map<Actor, Work>,
    lock: Option<Actor>,
    submitted: set<Id>,
    nonces: set<Nonce>,
    lastClaim: map<Id, Nonce>,
    decisions: map<Id, nat>,
    spent: map<Id, nat>,
    redeemed: map<Id, nat>,
    ledger: seq<Resolved>)

  function Count(m: map<Id, nat>, id: Id): nat {
    if id in m then m[id] else 0
  }

  function Bump(m: map<Id, nat>, id: Id, n: nat): map<Id, nat> {
    m[id := Count(m, id) + n]
  }

  function Start(w: Approvals.World): Queue {
    Queue(w, map[], map[], map[], map[], map[], map[], None, {}, {}, map[], map[], map[], map[], [])
  }

  datatype Step =
    | Submit(request: Request)
    | TakeLock(actor: Actor)
    | FreeLock(actor: Actor)
    | ClaimPending(actor: Actor, id: Id, nonce: Nonce, resolver: bool)
    | Resolve(actor: Actor, outcome: Outcome, duration: Option<Duration>, policyCurrent: bool)
    | RemoveScratch(actor: Actor, succeeds: bool)
    | LoadGrant(actor: Actor, id: Id, demand: Demand, retireAll: bool)
    | Spend(actor: Actor)
    | Return(actor: Actor)
    | RetireFile(actor: Actor, id: Id)
    | SetStep(actor: Actor, move: SetMove)
    | Die(actor: Actor)
    | Tick(world: Approvals.World)
    | Raise(actor: Actor, generations: Generations)
    | PutBackCopy(id: Id, copy: Resolved)

  /** Redeeming a set: scan, move the files out one by one, and hand out all or move them back. */
  datatype SetMove =
    | ClaimSet(pieces: seq<Piece>, demands: seq<Demand>)
    | MoveOne
    | RefuseMove
    | MoveBack(succeeds: bool)
    | FinishSet
    | FinishUndo

  predicate Idle(q: Queue, a: Actor) {
    a !in q.work
  }

  /** The clock and the revocations only move forward. Generations are raised under the store lock,
      while the marker that revokes an execution is written without it. */
  ghost predicate Advances(w: Approvals.World, x: Approvals.World) {
    w.now <= x.now && w.revoked <= x.revoked && GenerationsAdvance(w.generations, x.generations)
  }

  predicate DistinctIds(pieces: seq<Piece>) {
    forall i, j :: 0 <= i < j < |pieces| ==> pieces[i].id != pieces[j].id
  }

  /** A file of its own for every demand, none of them an agent's. */
  predicate Claimable(q: Queue, pieces: seq<Piece>, demands: seq<Demand>) {
    && DistinctIds(pieces) && |demands| == |pieces|
    && forall i :: 0 <= i < |pieces| ==>
         && pieces[i].id in q.approved && q.approved[pieces[i].id] == pieces[i].file
         && demands[i].execution.None? && Matches(q.w, pieces[i].file, demands[i])
  }

  predicate SetEnabled(q: Queue, a: Actor, m: SetMove) {
    match m
    case ClaimSet(pieces, demands) => Idle(q, a) && Claimable(q, pieces, demands)
    case MoveOne => a in q.work && q.work[a].Gathering? && q.work[a].todo != []
    case RefuseMove => a in q.work && q.work[a].Gathering? && q.work[a].todo != []
    case MoveBack(_) => a in q.work && q.work[a].Undoing? && q.work[a].moved != []
    case FinishSet => a in q.work && q.work[a].Gathering? && q.work[a].todo == []
    case FinishUndo => a in q.work && q.work[a].Undoing? && q.work[a].moved == []
  }

  ghost predicate Enabled(q: Queue, s: Step) {
    match s
    case Submit(r) => r.id !in q.submitted
    case TakeLock(a) => q.lock.None? && Idle(q, a)
    case FreeLock(a) => q.lock == Some(a) && Idle(q, a)
    case ClaimPending(a, id, nonce, resolver) =>
      Idle(q, a) && id in q.pending && nonce !in q.nonces && (resolver ==> q.lock == Some(a))
    case Resolve(a, outcome, _, _) =>
      a in q.work && q.work[a].Claimed? && (if q.work[a].resolver then q.lock == Some(a) else outcome == Denied)
    case RemoveScratch(a, _) => a in q.work && q.work[a].Written?
    case LoadGrant(a, id, demand, _) =>
      q.lock == Some(a) && Idle(q, a) && id in q.approved && Matches(q.w, q.approved[id], demand)
    case Spend(a) => q.lock == Some(a) && a in q.work && q.work[a].Loaded?
    case Return(a) => q.lock == Some(a) && a in q.work && q.work[a].Spent?
    case RetireFile(a, id) => q.lock == Some(a) && Idle(q, a) && id in q.approved
    case SetStep(a, m) => q.lock == Some(a) && SetEnabled(q, a, m)
    case Die(a) => true
    case Tick(world) => Advances(q.w, world) && world.generations == q.w.generations
    case Raise(a, generations) => q.lock == Some(a) && Idle(q, a) && GenerationsAdvance(q.w.generations, generations)
    case PutBackCopy(_, _) => true
  }

  /** The grant with its budget cut by one use, or to nothing. */
  function Decremented(f: Resolved, retireAll: bool): Resolved
    requires f.decision.grant.Some?
  {
    var g := f.decision.grant.value;
    var left := if retireAll || g.uses == 0 then 0 else g.uses - 1;
    f.(decision := f.decision.(grant := Some(g.(uses := left))))
  }

  function Leave<T>(m: map<Actor, T>, a: Actor): map<Actor, T> {
    map k <- m | k != a :: m[k]
  }

  function Without<T>(m: map<nat, T>, k: nat): map<nat, T> {
    map j <- m | j != k :: m[j]
  }

  /** Invalidators only ever deny. */
  function ResolvePlan(q: Queue, c: Work, outcome: Outcome, duration: Option<Duration>, policyCurrent: bool): Plan
    requires c.Claimed?
  {
    if c.resolver then DecisionPlan(q.w, c.request, outcome, duration, policyCurrent) else Invalidate(c.request)
  }

  function Claiming(q: Queue, a: Actor, id: Id, nonce: Nonce, resolver: bool): Queue
    requires id in q.pending
  {
    q.(pending := Without(q.pending, id), scratch := q.scratch[nonce := Claim(id, q.pending[id])],
       nonces := q.nonces + {nonce}, lastClaim := q.lastClaim[id := nonce],
       work := q.work[a := Claimed(nonce, id, q.pending[id], resolver)])
  }

  function PuttingBack(q: Queue, a: Actor): Queue
    requires a in q.work && q.work[a].Claimed?
  {
    q.(pending := q.pending[q.work[a].id := q.work[a].request], scratch := Without(q.scratch, q.work[a].nonce),
       work := Leave(q.work, a))
  }

  /** The decision is written under its outcome; the scratch file is still there. */
  function Deciding(q: Queue, a: Actor, f: Resolved): Queue
    requires a in q.work && q.work[a].Claimed?
  {
    if f.decision.outcome == Approved then Approving(q, a, f) else Denying(q, a, f)
  }

  function Approving(q: Queue, a: Actor, f: Resolved): Queue
    requires a in q.work && q.work[a].Claimed?
  {
    q.(approved := q.approved[q.work[a].id := f], work := q.work[a := Written(q.work[a].nonce, q.work[a].id)],
       decisions := Bump(q.decisions, q.work[a].id, 1))
  }

  function Denying(q: Queue, a: Actor, f: Resolved): Queue
    requires a in q.work && q.work[a].Claimed?
  {
    q.(denied := q.denied[q.work[a].id := f], work := q.work[a := Written(q.work[a].nonce, q.work[a].id)],
       decisions := Bump(q.decisions, q.work[a].id, 1))
  }

  function Removing(q: Queue, a: Actor, succeeds: bool): Queue
    requires a in q.work && q.work[a].Written?
  {
    q.(scratch := if succeeds then Without(q.scratch, q.work[a].nonce) else q.scratch, work := Leave(q.work, a))
  }

  function Retiring(q: Queue, id: Id): Queue
    requires id in q.approved
  {
    q.(approved := Without(q.approved, id), consumed := q.consumed[id := q.approved[id]])
  }

  /** Rewrite the file with its smaller budget, or move it out unchanged when nothing is left. */
  function Spending(q: Queue, a: Actor): Queue
    requires a in q.work && q.work[a].Loaded?
  {
    if q.work[a].id !in q.approved then q.(work := Leave(q.work, a))
    else if UsesLeft(q.work[a].next) == 0 then SpendingLast(q, a)
    else SpendingOne(q, a)
  }

  function SpendingLast(q: Queue, a: Actor): Queue
    requires a in q.work && q.work[a].Loaded? && q.work[a].id in q.approved
  {
    q.(approved := Without(q.approved, q.work[a].id), consumed := q.consumed[q.work[a].id := q.approved[q.work[a].id]],
       work := q.work[a := Spent(q.work[a].id, q.work[a].next)], spent := Bump(q.spent, q.work[a].id, Burnt(q, a)))
  }

  function SpendingOne(q: Queue, a: Actor): Queue
    requires a in q.work && q.work[a].Loaded? && q.work[a].id in q.approved
  {
    q.(approved := q.approved[q.work[a].id := q.work[a].next],
       work := q.work[a := Spent(q.work[a].id, q.work[a].next)], spent := Bump(q.spent, q.work[a].id, Burnt(q, a)))
  }

  /** The uses a spend takes off the file. */
  function Burnt(q: Queue, a: Actor): nat
    requires a in q.work && q.work[a].Loaded? && q.work[a].id in q.approved
  {
    var before, after := UsesLeft(q.approved[q.work[a].id]), UsesLeft(q.work[a].next);
    if after <= before then before - after else 0
  }

  function UsesLeft(f: Resolved): nat {
    if f.decision.grant.Some? then f.decision.grant.value.uses else 0
  }

  function Ids(pieces: seq<Piece>): set<Id> {
    set p <- pieces :: p.id
  }

  function Files(pieces: seq<Piece>): seq<Resolved> {
    seq(|pieces|, i requires 0 <= i < |pieces| => pieces[i].file)
  }

  function BumpEach(m: map<Id, nat>, ids: set<Id>): map<Id, nat> {
    map id <- m.Keys + ids :: Count(m, id) + if id in ids then 1 else 0
  }

  function MovingOut(q: Queue, a: Actor): Queue
    requires a in q.work && q.work[a].Gathering? && q.work[a].todo != [] && q.work[a].todo[0].id in q.approved
  {
    q.(approved := Without(q.approved, q.work[a].todo[0].id),
       consumed := q.consumed[q.work[a].todo[0].id := q.approved[q.work[a].todo[0].id]],
       work := q.work[a := Gathering(q.work[a].todo[1..], q.work[a].moved + [q.work[a].todo[0]])])
  }

  function MovingBack(q: Queue, a: Actor): Queue
    requires a in q.work && q.work[a].Undoing? && q.work[a].moved != [] && q.work[a].moved[0].id in q.consumed
  {
    q.(approved := q.approved[q.work[a].moved[0].id := q.consumed[q.work[a].moved[0].id]],
       consumed := Without(q.consumed, q.work[a].moved[0].id),
       work := q.work[a := Undoing(q.work[a].moved[1..])])
  }

  function HandingOut(q: Queue, a: Actor): Queue
    requires a in q.work && q.work[a].Gathering?
  {
    q.(work := Leave(q.work, a), spent := BumpEach(q.spent, Ids(q.work[a].moved)),
       redeemed := BumpEach(q.redeemed, Ids(q.work[a].moved)), ledger := q.ledger + Files(q.work[a].moved))
  }

  /** Only what the process is in the middle of changes. */
  function Working(q: Queue, work: map<Actor, Work>): Queue {
    q.(work := work)
  }

  /** A file that is gone is a refused rename; a file that will not move back is left where it is. */
  function SetNext(q: Queue, a: Actor, m: SetMove): Queue
    requires SetEnabled(q, a, m)
  {
    match m
    case ClaimSet(pieces, _) => Working(q, q.work[a := Gathering(pieces, [])])
    case MoveOne =>
      if q.work[a].todo[0].id in q.approved then MovingOut(q, a)
      else Working(q, q.work[a := Undoing(q.work[a].moved)])
    case RefuseMove => Working(q, q.work[a := Undoing(q.work[a].moved)])
    case MoveBack(succeeds) =>
      if succeeds && q.work[a].moved[0].id in q.consumed then MovingBack(q, a)
      else Working(q, q.work[a := Undoing(q.work[a].moved[1..])])
    case FinishSet => HandingOut(q, a)
    case FinishUndo => Working(q, Leave(q.work, a))
  }

  function Next(q: Queue, s: Step): Queue
    requires Enabled(q, s)
  {
    match s
    case Submit(r) => q.(pending := q.pending[r.id := r], submitted := q.submitted + {r.id})
    case TakeLock(a) => q.(lock := Some(a))
    case FreeLock(a) => q.(lock := None)
    case ClaimPending(a, id, nonce, resolver) => Claiming(q, a, id, nonce, resolver)
    case Resolve(a, outcome, duration, policyCurrent) => (
      match ResolvePlan(q, q.work[a], outcome, duration, policyCurrent)
      case PutBack => PuttingBack(q, a)
      case Write(f) => Deciding(q, a, f))
    case RemoveScratch(a, succeeds) => Removing(q, a, succeeds)
    case LoadGrant(a, id, _, retireAll) =>
      q.(work := q.work[a := Loaded(id, Decremented(q.approved[id], retireAll))])
    case Spend(a) => Spending(q, a)
    case Return(a) => q.(work := Leave(q.work, a), redeemed := Bump(q.redeemed, q.work[a].id, 1),
                          ledger := q.ledger + [q.work[a].grant])
    case RetireFile(a, id) => Retiring(q, id)
    case SetStep(a, m) => SetNext(q, a, m)
    case Die(a) => q.(work := Leave(q.work, a), lock := if q.lock == Some(a) then None else q.lock)
    case Tick(world) => q.(w := world)
    case Raise(_, generations) => q.(w := q.w.(generations := generations))
    case PutBackCopy(id, copy) => q.(approved := q.approved[id := copy])
  }

  // ---- decided once, never lost -----------------------------------------------------------------

  predicate Decided(q: Queue, id: Id) {
    Count(q.decisions, id) > 0
  }

  function RestingIds(q: Queue): set<Id> {
    q.approved.Keys + q.denied.Keys + q.consumed.Keys
  }

  predicate Resting(q: Queue, id: Id) {
    id in RestingIds(q)
  }

  predicate InScratch(q: Queue, id: Id) {
    id in q.lastClaim && q.lastClaim[id] in q.scratch && q.scratch[q.lastClaim[id]].id == id
  }

  /** Decided ids rest in a final directory; undecided ones wait in pending or scratch. */
  predicate Placed(q: Queue, id: Id) {
    && Count(q.decisions, id) <= 1
    && (id in q.submitted ==> if Decided(q, id) then Resting(q, id) else id in q.pending || InScratch(q, id))
    && (id !in q.submitted ==> !Decided(q, id))
    && (!Decided(q, id) ==> !Resting(q, id))
    && (id in q.pending ==> id in q.submitted && !Decided(q, id) && q.pending[id].id == id)
    && (id in q.lastClaim ==> q.lastClaim[id] in q.nonces)
  }

  predicate ClaimHeld(q: Queue, a: Actor)
    requires a in q.work
  {
    match q.work[a]
    case Claimed(nonce, id, request, _) =>
      && id in q.submitted && !Decided(q, id) && id !in q.pending
      && id in q.lastClaim && q.lastClaim[id] == nonce && nonce in q.scratch && q.scratch[nonce].id == id
      && request.id == id
    case Written(nonce, id) => Decided(q, id) && nonce in q.nonces && (nonce in q.scratch ==> q.scratch[nonce].id == id)
    case _ => true
  }

  ghost predicate Orderly(q: Queue) {
    && (forall id :: Placed(q, id))
    && (forall a <- q.work :: ClaimHeld(q, a))
    && (forall a <- q.work, b <- q.work ::
          q.work[a].Claimed? && q.work[b].Claimed? && q.work[a].id == q.work[b].id ==> a == b)
    && q.scratch.Keys <= q.nonces
  }

  /** Steps of the code and its environment, as opposed to copies of old files put back by hand. */
  predicate Honest(s: Step) {
    !s.PutBackCopy?
  }

  /** Only the fields the invariant reads, and only through these. */
  lemma KeepOrderly(q: Queue, t: Queue)
    requires Orderly(q)
    requires t.pending == q.pending && t.scratch == q.scratch && t.submitted == q.submitted
    requires t.nonces == q.nonces && t.lastClaim == q.lastClaim && t.decisions == q.decisions
    requires RestingIds(t) == RestingIds(q)
    requires forall a <- t.work ::
               (a in q.work && t.work[a] == q.work[a]) || (!t.work[a].Claimed? && !t.work[a].Written?)
    ensures Orderly(t)
  {
    forall id
      ensures Placed(t, id)
    {
      assert Placed(q, id);
    }
    forall a <- t.work
      ensures ClaimHeld(t, a)
    {
      if a in q.work {
        assert ClaimHeld(q, a);
      }
    }
  }

  lemma SubmitOrderly(q: Queue, r: Request)
    requires Orderly(q) && r.id !in q.submitted
    ensures Orderly(q.(pending := q.pending[r.id := r], submitted := q.submitted + {r.id}))
  {
    var t := q.(pending := q.pending[r.id := r], submitted := q.submitted + {r.id});
    forall id
      ensures Placed(t, id)
    {
      assert Placed(q, id);
    }
    forall a <- t.work
      ensures ClaimHeld(t, a)
    {
      assert ClaimHeld(q, a);
    }
  }

  lemma ClaimOrderly(q: Queue, actor: Actor, id: Id, nonce: Nonce, resolver: bool)
    requires Orderly(q) && Idle(q, actor) && id in q.pending && nonce !in q.nonces
    ensures Orderly(Claiming(q, actor, id, nonce, resolver))
  {
    var t := Claiming(q, actor, id, nonce, resolver);
    assert Placed(q, id);
    forall i
      ensures Placed(t, i)
    {
      assert Placed(q, i);
      ClaimedPlaced(q, actor, id, nonce, resolver, i);
    }
    hide Placed;
    forall a <- t.work
      ensures ClaimHeld(t, a)
      ensures a != actor && t.work[a].Claimed? ==> t.work[a].id != id
    {
      if a != actor {
        assert ClaimHeld(q, a);
      }
    }
  }

  lemma ClaimedPlaced(q: Queue, actor: Actor, id: Id, nonce: Nonce, resolver: bool, i: Id)
    requires Placed(q, id) && Placed(q, i) && id in q.pending && nonce !in q.nonces
    ensures Placed(Claiming(q, actor, id, nonce, resolver), i)
  {
  }

  lemma PutBackOrderly(q: Queue, actor: Actor)
    requires Orderly(q) && actor in q.work && q.work[actor].Claimed?
    ensures Orderly(PuttingBack(q, actor))
  {
    var t := PuttingBack(q, actor);
    assert ClaimHeld(q, actor);
    forall id
      ensures Placed(t, id)
    {
      assert Placed(q, id);
    }
    forall a <- t.work
      ensures ClaimHeld(t, a)
    {
      assert a in q.work && ClaimHeld(q, a);
    }
  }

  /** Field by field, what a decision changes. */
  ghost predicate Decides(q: Queue, t: Queue, a: Actor, f: Resolved)
    requires a in q.work && q.work[a].Claimed?
  {
    && t.w == q.w && t.pending == q.pending && t.scratch == q.scratch && t.consumed == q.consumed && t.lock == q.lock
    && t.submitted == q.submitted && t.nonces == q.nonces && t.lastClaim == q.lastClaim
    && t.spent == q.spent && t.redeemed == q.redeemed && t.ledger == q.ledger
    && t.work == q.work[a := Written(q.work[a].nonce, q.work[a].id)]
    && t.decisions == Bump(q.decisions, q.work[a].id, 1)
    && (if f.decision.outcome == Approved
        then t.approved == q.approved[q.work[a].id := f] && t.denied == q.denied
        else t.denied == q.denied[q.work[a].id := f] && t.approved == q.approved)
  }

  lemma DecideFields(q: Queue, a: Actor, f: Resolved)
    requires a in q.work && q.work[a].Claimed?
    ensures Decides(q, Deciding(q, a, f), a, f)
  {
    hide Bump;
    if f.decision.outcome == Approved {
      ApproveFields(q, a, f);
      hide Approving, Decides;
    } else {
      DenyFields(q, a, f);
      hide Denying, Decides;
    }
  }

  lemma ApproveFields(q: Queue, a: Actor, f: Resolved)
    requires a in q.work && q.work[a].Claimed? && f.decision.outcome == Approved
    ensures Decides(q, Approving(q, a, f), a, f)
  {
    hide Bump;
  }

  lemma DenyFields(q: Queue, a: Actor, f: Resolved)
    requires a in q.work && q.work[a].Claimed? && f.decision.outcome != Approved
    ensures Decides(q, Denying(q, a, f), a, f)
  {
    hide Bump;
  }

  lemma DecideOrderly(q: Queue, actor: Actor, f: Resolved)
    requires Orderly(q) && actor in q.work && q.work[actor].Claimed?
    ensures Orderly(Deciding(q, actor, f))
  {
    hide Deciding;
    DecideFields(q, actor, f);
    DecidedOrderly(q, Deciding(q, actor, f), actor, f);
  }

  lemma DecidedOrderly(q: Queue, t: Queue, actor: Actor, f: Resolved)
    requires Orderly(q) && actor in q.work && q.work[actor].Claimed? && Decides(q, t, actor, f)
    ensures Orderly(t)
  {
    assert ClaimHeld(q, actor);
    forall id
      ensures Placed(t, id)
    {
      assert Placed(q, id);
      DecidedPlaced(q, t, actor, f, id);
    }
    forall a <- t.work
      ensures ClaimHeld(t, a)
    {
      if a != actor {
        assert ClaimHeld(q, a);
      }
    }
    hide Placed;
  }

  lemma DecidedPlaced(q: Queue, t: Queue, actor: Actor, f: Resolved, id: Id)
    requires actor in q.work && q.work[actor].Claimed? && Decides(q, t, actor, f)
    requires Placed(q, id) && ClaimHeld(q, actor)
    ensures Placed(t, id)
  {
    assert RestingIds(t) == RestingIds(q) + {q.work[actor].id};
  }

  lemma RemoveOrderly(q: Queue, actor: Actor, succeeds: bool)
    requires Orderly(q) && actor in q.work && q.work[actor].Written?
    ensures Orderly(Removing(q, actor, succeeds))
  {
    var t := Removing(q, actor, succeeds);
    assert ClaimHeld(q, actor);
    forall id
      ensures Placed(t, id)
    {
      assert Placed(q, id);
    }
    forall a <- t.work
      ensures ClaimHeld(t, a)
    {
      assert ClaimHeld(q, a);
    }
  }

  /** Field by field, what a spend changes while the file is still there. */
  ghost predicate Spends(q: Queue, t: Queue, a: Actor)
    requires a in q.work && q.work[a].Loaded? && q.work[a].id in q.approved
  {
    && t.w == q.w && t.pending == q.pending && t.scratch == q.scratch && t.denied == q.denied && t.lock == q.lock
    && t.submitted == q.submitted && t.nonces == q.nonces && t.lastClaim == q.lastClaim
    && t.decisions == q.decisions && t.redeemed == q.redeemed && t.ledger == q.ledger
    && t.work == q.work[a := Spent(q.work[a].id, q.work[a].next)]
    && t.spent == Bump(q.spent, q.work[a].id, Burnt(q, a))
    && (if UsesLeft(q.work[a].next) == 0
        then && t.approved == Without(q.approved, q.work[a].id)
             && t.consumed == q.consumed[q.work[a].id := q.approved[q.work[a].id]]
        else t.approved == q.approved[q.work[a].id := q.work[a].next] && t.consumed == q.consumed)
  }

  lemma SpendFields(q: Queue, a: Actor)
    requires a in q.work && q.work[a].Loaded? && q.work[a].id in q.approved
    ensures Spends(q, Spending(q, a), a)
  {
    hide Bump, Burnt, UsesLeft, Without;
    if UsesLeft(q.work[a].next) == 0 {
      LastFields(q, a);
      hide SpendingLast, Spends;
    } else {
      OneFields(q, a);
      hide SpendingOne, Spends;
    }
  }

  lemma LastFields(q: Queue, a: Actor)
    requires a in q.work && q.work[a].Loaded? && q.work[a].id in q.approved && UsesLeft(q.work[a].next) == 0
    ensures Spends(q, SpendingLast(q, a), a)
  {
    hide Bump, Burnt, UsesLeft, Without;
  }

  lemma OneFields(q: Queue, a: Actor)
    requires a in q.work && q.work[a].Loaded? && q.work[a].id in q.approved && UsesLeft(q.work[a].next) != 0
    ensures Spends(q, SpendingOne(q, a), a)
  {
    hide Bump, Burnt, UsesLeft, Without;
  }

  lemma SpendOrderly(q: Queue, a: Actor)
    requires Orderly(q) && a in q.work && q.work[a].Loaded?
    ensures Orderly(Spending(q, a))
  {
    hide Orderly, UsesLeft, Bump, Burnt;
    if q.work[a].id !in q.approved {
      KeepOrderly(q, Spending(q, a));
    } else {
      SpendFields(q, a);
      SpentOrderly(q, Spending(q, a), a);
    }
  }

  lemma SpentOrderly(q: Queue, t: Queue, a: Actor)
    requires Orderly(q) && a in q.work && q.work[a].Loaded? && q.work[a].id in q.approved && Spends(q, t, a)
    ensures Orderly(t)
  {
    hide Orderly, UsesLeft, Bump, Burnt, Without;
    LastSpendKeeps(q, q.work[a].id);
    KeepOrderly(q, t);
  }

  lemma LastSpendKeeps(q: Queue, id: Id)
    requires id in q.approved
    ensures Without(q.approved, id).Keys + q.denied.Keys + q.consumed[id := q.approved[id]].Keys == RestingIds(q)
  {
  }

  lemma RetireOrderly(q: Queue, id: Id)
    requires Orderly(q) && id in q.approved
    ensures Orderly(Retiring(q, id))
  {
    hide Orderly;
    LastSpendKeeps(q, id);
    KeepOrderly(q, Retiring(q, id));
  }

  /** Field by field, what no set step changes. */
  ghost predicate SetFrame(q: Queue, t: Queue) {
    && t.w == q.w && t.pending == q.pending && t.scratch == q.scratch && t.denied == q.denied && t.lock == q.lock
    && t.submitted == q.submitted && t.nonces == q.nonces && t.lastClaim == q.lastClaim && t.decisions == q.decisions
  }

  ghost predicate SameBooks(q: Queue, t: Queue) {
    t.spent == q.spent && t.redeemed == q.redeemed && t.ledger == q.ledger
  }

  ghost predicate MovedOut(q: Queue, t: Queue, a: Actor)
    requires a in q.work && q.work[a].Gathering? && q.work[a].todo != [] && q.work[a].todo[0].id in q.approved
  {
    && SetFrame(q, t) && SameBooks(q, t)
    && t.approved == Without(q.approved, q.work[a].todo[0].id)
    && t.consumed == q.consumed[q.work[a].todo[0].id := q.approved[q.work[a].todo[0].id]]
    && t.work == q.work[a := Gathering(q.work[a].todo[1..], q.work[a].moved + [q.work[a].todo[0]])]
  }

  ghost predicate MovedBack(q: Queue, t: Queue, a: Actor)
    requires a in q.work && q.work[a].Undoing? && q.work[a].moved != [] && q.work[a].moved[0].id in q.consumed
  {
    && SetFrame(q, t) && SameBooks(q, t)
    && t.approved == q.approved[q.work[a].moved[0].id := q.consumed[q.work[a].moved[0].id]]
    && t.consumed == Without(q.consumed, q.work[a].moved[0].id)
    && t.work == q.work[a := Undoing(q.work[a].moved[1..])]
  }

  ghost predicate HandedOut(q: Queue, t: Queue, a: Actor)
    requires a in q.work && q.work[a].Gathering?
  {
    && SetFrame(q, t) && t.approved == q.approved && t.consumed == q.consumed
    && t.work == Leave(q.work, a)
    && t.spent == BumpEach(q.spent, Ids(q.work[a].moved)) && t.redeemed == BumpEach(q.redeemed, Ids(q.work[a].moved))
    && t.ledger == q.ledger + Files(q.work[a].moved)
  }

  ghost predicate OnlyWorked(q: Queue, t: Queue, work: map<Actor, Work>) {
    SetFrame(q, t) && SameBooks(q, t) && t.approved == q.approved && t.consumed == q.consumed && t.work == work
  }

  lemma MovingOutFields(q: Queue, a: Actor)
    requires a in q.work && q.work[a].Gathering? && q.work[a].todo != [] && q.work[a].todo[0].id in q.approved
    ensures MovedOut(q, MovingOut(q, a), a)
  {
    hide Without;
  }

  lemma MovingBackFields(q: Queue, a: Actor)
    requires a in q.work && q.work[a].Undoing? && q.work[a].moved != [] && q.work[a].moved[0].id in q.consumed
    ensures MovedBack(q, MovingBack(q, a), a)
  {
    hide Without;
  }

  lemma HandingOutFields(q: Queue, a: Actor)
    requires a in q.work && q.work[a].Gathering?
    ensures HandedOut(q, HandingOut(q, a), a)
  {
    hide BumpEach, Ids, Files, Leave;
  }

  lemma WorkingFields(q: Queue, work: map<Actor, Work>)
    ensures OnlyWorked(q, Working(q, work), work)
  {
  }

  lemma WorkedOrderly(q: Queue, t: Queue, work: map<Actor, Work>)
    requires Orderly(q) && OnlyWorked(q, t, work)
    requires forall b <- work ::
               (b in q.work && work[b] == q.work[b]) || (!work[b].Claimed? && !work[b].Written?)
    ensures Orderly(t)
  {
    hide Orderly;
    KeepOrderly(q, t);
  }

  lemma MovedOutOrderly(q: Queue, t: Queue, a: Actor)
    requires a in q.work && q.work[a].Gathering? && q.work[a].todo != [] && q.work[a].todo[0].id in q.approved
    requires Orderly(q) && MovedOut(q, t, a)
    ensures Orderly(t)
  {
    hide Orderly, Without;
    LastSpendKeeps(q, q.work[a].todo[0].id);
    KeepOrderly(q, t);
  }

  lemma MovedBackOrderly(q: Queue, t: Queue, a: Actor)
    requires a in q.work && q.work[a].Undoing? && q.work[a].moved != [] && q.work[a].moved[0].id in q.consumed
    requires Orderly(q) && MovedBack(q, t, a)
    ensures Orderly(t)
  {
    hide Orderly;
    assert RestingIds(t) == RestingIds(q);
    KeepOrderly(q, t);
  }

  lemma HandedOutOrderly(q: Queue, t: Queue, a: Actor)
    requires a in q.work && q.work[a].Gathering? && Orderly(q) && HandedOut(q, t, a)
    ensures Orderly(t)
  {
    hide Orderly, BumpEach, Files;
    KeepOrderly(q, t);
  }

  lemma SetOrderly(q: Queue, a: Actor, m: SetMove)
    requires Orderly(q) && SetEnabled(q, a, m)
    ensures Orderly(SetNext(q, a, m))
  {
    hide Orderly, Claimable, MovedOut, MovedBack, HandedOut, OnlyWorked;
    hide MovingOut, MovingBack, HandingOut, Working, Leave;
    match m
    case MoveOne =>
      if q.work[a].todo[0].id in q.approved {
        MovingOutFields(q, a);
        MovedOutOrderly(q, MovingOut(q, a), a);
      } else {
        IdleWorkOrderly(q, a, Undoing(q.work[a].moved));
      }
    case MoveBack(succeeds) =>
      if succeeds && q.work[a].moved[0].id in q.consumed {
        MovingBackFields(q, a);
        MovedBackOrderly(q, MovingBack(q, a), a);
      } else {
        IdleWorkOrderly(q, a, Undoing(q.work[a].moved[1..]));
      }
    case FinishSet =>
      HandingOutFields(q, a);
      HandedOutOrderly(q, HandingOut(q, a), a);
    case ClaimSet(pieces, _) => IdleWorkOrderly(q, a, Gathering(pieces, []));
    case RefuseMove => IdleWorkOrderly(q, a, Undoing(q.work[a].moved));
    case FinishUndo => IdleWorkOrderly(q, a, Undoing([]));
  }

  lemma IdleWorkOrderly(q: Queue, a: Actor, k: Work)
    requires Orderly(q) && !k.Claimed? && !k.Written?
    ensures Orderly(Working(q, q.work[a := k])) && Orderly(Working(q, Leave(q.work, a)))
  {
    hide Orderly, Working;
    WorkingFields(q, q.work[a := k]);
    WorkedOrderly(q, Working(q, q.work[a := k]), q.work[a := k]);
    WorkingFields(q, Leave(q.work, a));
    WorkedOrderly(q, Working(q, Leave(q.work, a)), Leave(q.work, a));
  }

  /** Every step of every process, in any order, keeps requests in their places. */
  lemma StepOrderly(q: Queue, s: Step)
    requires Orderly(q) && Enabled(q, s) && Honest(s)
    ensures Orderly(Next(q, s))
  {
    hide Orderly, Claiming, PuttingBack, Deciding, Removing, Spending, Retiring, SetNext, SetEnabled;
    hide DecisionPlan, Matches, RestingIds;
    match s
    case Submit(r) => SubmitOrderly(q, r);
    case ClaimPending(a, id, nonce, resolver) => ClaimOrderly(q, a, id, nonce, resolver);
    case Resolve(a, outcome, duration, policyCurrent) =>
      match ResolvePlan(q, q.work[a], outcome, duration, policyCurrent) {
        case PutBack => PutBackOrderly(q, a);
        case Write(f) => DecideOrderly(q, a, f);
      }
    case RemoveScratch(a, succeeds) => RemoveOrderly(q, a, succeeds);
    case Spend(a) => SpendOrderly(q, a);
    case RetireFile(_, id) => RetireOrderly(q, id);
    case SetStep(a, m) => SetOrderly(q, a, m);
    case _ => QuietOrderly(q, s);
  }

  lemma QuietOrderly(q: Queue, s: Step)
    requires Orderly(q) && Enabled(q, s)
    requires s.TakeLock? || s.FreeLock? || s.LoadGrant? || s.Return? || s.Die? || s.Tick? || s.Raise?
    ensures Orderly(Next(q, s))
  {
    hide Orderly, Matches;
    KeepOrderly(q, Next(q, s));
  }

  // ---- the use budget -----------------------------------------------------------------------------

  /** One redemption is about to be reported by the lock holder. */
  function InFlight(q: Queue, id: Id): nat {
    if q.lock.Some? && q.lock.value in q.work && q.work[q.lock.value].Spent? && q.work[q.lock.value].id == id
    then 1 else 0
  }

  predicate FileThrifty(q: Queue, id: Id) {
    && (id in q.approved && q.approved[id].decision.grant.Some? ==>
          && Count(q.spent, id) + UsesLeft(q.approved[id]) == Budget(q.approved[id])
          && UsesLeft(q.approved[id]) >= 1
          && (AttendedCritical(q.approved[id].request) ==> Budget(q.approved[id]) == 1))
    && (id in q.consumed && q.consumed[id].decision.grant.Some? ==>
          && Count(q.spent, id) <= Budget(q.consumed[id])
          && UsesLeft(q.consumed[id]) >= 1
          && (AttendedCritical(q.consumed[id].request) ==> Budget(q.consumed[id]) == 1))
    && (id in q.approved ==> id !in q.consumed)
    && (id in q.approved && q.approved[id].decision.grant.None? ==> Count(q.spent, id) == 0)
    && (id in q.consumed && q.consumed[id].decision.grant.None? ==> Count(q.spent, id) == 0)
    && (id !in q.approved && id !in q.consumed ==> Count(q.spent, id) == 0)
    && Count(q.redeemed, id) + InFlight(q, id) <= Count(q.spent, id)
  }

  predicate WorkThrifty(q: Queue, a: Actor)
    requires a in q.work
  {
    match q.work[a]
    case Loaded(id, next) =>
      && q.lock == Some(a) && id in q.approved && q.approved[id].decision.grant.Some?
      && (next == Decremented(q.approved[id], true) || next == Decremented(q.approved[id], false))
    case Spent(_, _) => q.lock == Some(a)
    case Gathering(todo, moved) =>
      && q.lock == Some(a) && DistinctIds(moved + todo)
      && (forall p <- todo :: Unmoved(q, p)) && (forall p <- moved :: MovedWhole(q, p))
    case Undoing(moved) => q.lock == Some(a) && DistinctIds(moved) && forall p <- moved :: MovedWhole(q, p)
    case _ => true
  }

  predicate Unmoved(q: Queue, p: Piece) {
    p.id in q.approved && q.approved[p.id] == p.file && p.file.decision.grant.Some?
  }

  /** Moved out with every use it had. */
  predicate MovedWhole(q: Queue, p: Piece) {
    && p.id in q.consumed && q.consumed[p.id] == p.file && p.file.decision.grant.Some?
    && Count(q.spent, p.id) + UsesLeft(p.file) == Budget(p.file)
  }

  /** Redeeming, and so holding the lock. */
  predicate Redeeming(k: Work) {
    !k.Claimed? && !k.Written?
  }

  ghost predicate Thrifty(q: Queue) {
    (forall id :: FileThrifty(q, id)) && (forall a <- q.work :: WorkThrifty(q, a))
  }

  /** Approved files, counters and the lock holder's errand unchanged. */
  lemma KeepThrifty(q: Queue, t: Queue)
    requires Thrifty(q)
    requires t.approved == q.approved && t.consumed == q.consumed && t.spent == q.spent && t.redeemed == q.redeemed
    requires t.lock == q.lock || t.lock.None? || q.lock.None?
    requires forall a <- t.work :: Redeeming(t.work[a]) ==>
                                     a in q.work && t.work[a] == q.work[a] && t.lock == Some(a)
    ensures Thrifty(t)
  {
    forall id
      ensures FileThrifty(t, id)
    {
      assert FileThrifty(q, id);
      assert InFlight(t, id) <= InFlight(q, id) by {
        if InFlight(t, id) == 1 {
          assert WorkThrifty(q, t.lock.value);
        }
      }
    }
    forall a <- t.work
      ensures WorkThrifty(t, a)
    {
      if a in q.work {
        assert WorkThrifty(q, a);
      }
    }
  }

  lemma DecideThrifty(q: Queue, actor: Actor, f: Resolved)
    requires Orderly(q) && Thrifty(q) && actor in q.work && q.work[actor].Claimed?
    requires f.decision.outcome == Approved && f.decision.grant.Some? ==>
               UsesLeft(f) == Budget(f) >= 1 && (AttendedCritical(f.request) ==> Budget(f) == 1)
    ensures Thrifty(Deciding(q, actor, f))
  {
    hide Deciding, FileThrifty, WorkThrifty;
    var t := Deciding(q, actor, f);
    DecideFields(q, actor, f);
    assert ClaimHeld(q, actor) && Placed(q, q.work[actor].id);
    forall id
      ensures FileThrifty(t, id)
    {
      DecidedFileThrifty(q, t, actor, f, id);
    }
    forall a <- t.work
      ensures WorkThrifty(t, a)
    {
      DecidedWorkThrifty(q, t, actor, f, a);
    }
  }

  lemma DecidedFileThrifty(q: Queue, t: Queue, actor: Actor, f: Resolved, id: Id)
    requires actor in q.work && q.work[actor].Claimed? && Decides(q, t, actor, f) && FileThrifty(q, id)
    requires q.work[actor].id !in q.approved && q.work[actor].id !in q.consumed
    requires f.decision.outcome == Approved && f.decision.grant.Some? ==>
               UsesLeft(f) == Budget(f) >= 1 && (AttendedCritical(f.request) ==> Budget(f) == 1)
    requires FileThrifty(q, q.work[actor].id)
    ensures FileThrifty(t, id)
  {
  }

  lemma DecidedWorkThrifty(q: Queue, t: Queue, actor: Actor, f: Resolved, a: Actor)
    requires Orderly(q) && Thrifty(q) && actor in q.work && q.work[actor].Claimed? && Decides(q, t, actor, f)
    requires a in t.work
    ensures WorkThrifty(t, a)
  {
    hide FileThrifty, DistinctIds, Orderly;
    if a != actor {
      assert WorkThrifty(q, a);
      OthersResting(q, actor, a);
    }
  }

  /** What redeemers are busy with has been decided. */
  lemma OthersResting(q: Queue, actor: Actor, a: Actor)
    requires Orderly(q) && Thrifty(q) && actor in q.work && q.work[actor].Claimed? && a in q.work
    ensures q.work[a].Loaded? ==> q.work[a].id != q.work[actor].id
    ensures q.work[a].Gathering? ==>
              forall p :: p in q.work[a].todo || p in q.work[a].moved ==> p.id != q.work[actor].id
    ensures q.work[a].Undoing? ==> forall p <- q.work[a].moved :: p.id != q.work[actor].id
  {
    assert ClaimHeld(q, actor) && Placed(q, q.work[actor].id) && WorkThrifty(q, a);
    hide FileThrifty;
  }

  lemma SpendThrifty(q: Queue, a: Actor)
    requires Thrifty(q) && a in q.work && q.work[a].Loaded?
    ensures Thrifty(Spending(q, a))
  {
    assert WorkThrifty(q, a) && FileThrifty(q, q.work[a].id);
    SpendFields(q, a);
    hide Spending;
    SpentThrifty(q, Spending(q, a), a);
  }

  lemma SpentThrifty(q: Queue, t: Queue, a: Actor)
    requires Thrifty(q) && a in q.work && q.work[a].Loaded? && q.work[a].id in q.approved && Spends(q, t, a)
    ensures Thrifty(t)
  {
    hide FileThrifty;
    forall id
      ensures FileThrifty(t, id)
    {
      assert FileThrifty(q, id) && WorkThrifty(q, a);
      if id == q.work[a].id {
        SpentFileThrifty(q, t, a);
      } else {
        OtherFileThrifty(q, t, a, id);
      }
    }
    forall b <- t.work
      ensures WorkThrifty(t, b)
    {
      assert WorkThrifty(q, a);
      if b != a {
        assert WorkThrifty(q, b);
      }
    }
  }

  lemma SpentFileThrifty(q: Queue, t: Queue, a: Actor)
    requires a in q.work && q.work[a].Loaded? && q.work[a].id in q.approved && Spends(q, t, a)
    requires FileThrifty(q, q.work[a].id) && WorkThrifty(q, a)
    ensures FileThrifty(t, q.work[a].id)
  {
  }

  lemma OtherFileThrifty(q: Queue, t: Queue, a: Actor, id: Id)
    requires a in q.work && q.work[a].Loaded? && q.work[a].id in q.approved && Spends(q, t, a)
    requires FileThrifty(q, id) && WorkThrifty(q, a) && id != q.work[a].id
    ensures FileThrifty(t, id)
  {
  }

  /** What one spend does to the file and the counter. */
  lemma SpendBurns(q: Queue, a: Actor)
    requires Thrifty(q) && a in q.work && q.work[a].Loaded?
    ensures var t, l := Spending(q, a), q.work[a];
            var f := q.approved[l.id];
            && l.id in q.approved && t.work == q.work[a := Spent(l.id, l.next)] && t.lock == q.lock == Some(a)
            && t.redeemed == q.redeemed && UsesLeft(l.next) < UsesLeft(f)
            && t.spent == Bump(q.spent, l.id, UsesLeft(f) - UsesLeft(l.next))
            && (if UsesLeft(l.next) == 0
                then t.approved == Without(q.approved, l.id) && t.consumed == q.consumed[l.id := f]
                else t.approved == q.approved[l.id := l.next] && t.consumed == q.consumed)
  {
    assert WorkThrifty(q, a) && FileThrifty(q, q.work[a].id);
    SpendFields(q, a);
    hide Spending, Bump, Without;
  }

  lemma RetireThrifty(q: Queue, a: Actor, id: Id)
    requires Thrifty(q) && q.lock == Some(a) && Idle(q, a) && id in q.approved
    ensures Thrifty(Retiring(q, id))
  {
    var t := Retiring(q, id);
    forall i
      ensures FileThrifty(t, i)
    {
      assert FileThrifty(q, i);
    }
    forall b <- t.work
      ensures WorkThrifty(t, b)
    {
      assert WorkThrifty(q, b);
    }
  }

  lemma LoadThrifty(q: Queue, a: Actor, id: Id, retireAll: bool)
    requires Thrifty(q) && q.lock == Some(a) && Idle(q, a) && id in q.approved && q.approved[id].decision.grant.Some?
    ensures Thrifty(q.(work := q.work[a := Loaded(id, Decremented(q.approved[id], retireAll))]))
  {
    var t := q.(work := q.work[a := Loaded(id, Decremented(q.approved[id], retireAll))]);
    forall i
      ensures FileThrifty(t, i)
    {
      assert FileThrifty(q, i);
    }
    forall b <- t.work
      ensures WorkThrifty(t, b)
    {
      if b != a {
        assert WorkThrifty(q, b);
      }
    }
  }

  lemma ReturnThrifty(q: Queue, a: Actor)
    requires Thrifty(q) && q.lock == Some(a) && a in q.work && q.work[a].Spent?
    ensures Thrifty(q.(work := Leave(q.work, a), redeemed := Bump(q.redeemed, q.work[a].id, 1),
                       ledger := q.ledger + [q.work[a].grant]))
  {
    var t := q.(work := Leave(q.work, a), redeemed := Bump(q.redeemed, q.work[a].id, 1),
                ledger := q.ledger + [q.work[a].grant]);
    forall i
      ensures FileThrifty(t, i)
    {
      assert FileThrifty(q, i);
    }
    forall b <- t.work
      ensures WorkThrifty(t, b)
    {
      assert WorkThrifty(q, b);
    }
  }

  lemma QuietThrifty(q: Queue, s: Step)
    requires Thrifty(q) && Enabled(q, s)
    requires s.Submit? || s.TakeLock? || s.FreeLock? || s.ClaimPending? || s.RemoveScratch? || s.Die?
             || s.Tick? || s.Raise?
    ensures Thrifty(Next(q, s))
  {
    var t := Next(q, s);
    forall a <- t.work | Redeeming(t.work[a])
      ensures a in q.work && t.work[a] == q.work[a] && t.lock == Some(a)
    {
      assert a in q.work && WorkThrifty(q, a);
    }
    hide Thrifty, Matches;
    KeepThrifty(q, t);
  }

  lemma PutBackThrifty(q: Queue, a: Actor)
    requires Thrifty(q) && a in q.work && q.work[a].Claimed?
    ensures Thrifty(PuttingBack(q, a))
  {
    var t := PuttingBack(q, a);
    forall b <- t.work | Redeeming(t.work[b])
      ensures b in q.work && t.work[b] == q.work[b] && t.lock == Some(b)
    {
      assert b in q.work && WorkThrifty(q, b);
    }
    KeepThrifty(q, t);
  }

  /** Nobody else redeems while one process holds the lock. */
  lemma OnlyHolder(q: Queue, a: Actor)
    requires Thrifty(q) && q.lock == Some(a)
    ensures forall b <- q.work :: Redeeming(q.work[b]) ==> b == a
  {
    hide FileThrifty;
    forall b <- q.work | Redeeming(q.work[b])
      ensures b == a
    {
      assert WorkThrifty(q, b);
    }
  }

  /** The lock holder changes only what it is in the middle of. */
  lemma WorkedThrifty(q: Queue, t: Queue, a: Actor, work: map<Actor, Work>)
    requires Thrifty(q) && q.lock == Some(a) && OnlyWorked(q, t, work)
    requires a in q.work ==> !q.work[a].Spent?
    requires forall b <- work :: b != a ==> b in q.work && work[b] == q.work[b]
    requires a in work ==> !work[a].Spent? && WorkThrifty(t, a)
    ensures Thrifty(t)
  {
    forall id
      ensures FileThrifty(t, id)
    {
      assert FileThrifty(q, id);
    }
    OnlyHolder(q, a);
    hide FileThrifty;
  }

  lemma ClaimSetThrifty(q: Queue, a: Actor, pieces: seq<Piece>, demands: seq<Demand>)
    requires Thrifty(q) && q.lock == Some(a) && Idle(q, a) && Claimable(q, pieces, demands)
    ensures Thrifty(Working(q, q.work[a := Gathering(pieces, [])]))
  {
    var t := Working(q, q.work[a := Gathering(pieces, [])]);
    WorkingFields(q, q.work[a := Gathering(pieces, [])]);
    hide Working, Thrifty;
    assert [] + pieces == pieces;
    WorkedThrifty(q, t, a, q.work[a := Gathering(pieces, [])]);
  }

  lemma DropPieceThrifty(q: Queue, a: Actor, moved: seq<Piece>)
    requires Thrifty(q) && q.lock == Some(a) && a in q.work
    requires (q.work[a].Gathering? && moved == q.work[a].moved)
             || (q.work[a].Undoing? && q.work[a].moved != [] && moved == q.work[a].moved[1..])
    ensures Thrifty(Working(q, q.work[a := Undoing(moved)]))
  {
    var t := Working(q, q.work[a := Undoing(moved)]);
    assert WorkThrifty(q, a);
    WorkingFields(q, q.work[a := Undoing(moved)]);
    hide Working, Thrifty;
    assert DistinctIds(moved) by {
      if q.work[a].Gathering? {
        assert forall i :: 0 <= i < |moved| ==> moved[i] == (moved + q.work[a].todo)[i];
      } else {
        assert forall i :: 0 <= i < |moved| ==> moved[i] == q.work[a].moved[i + 1];
      }
    }
    forall p <- moved
      ensures MovedWhole(t, p)
    {
      assert p in q.work[a].moved && MovedWhole(q, p);
    }
    WorkedThrifty(q, t, a, q.work[a := Undoing(moved)]);
  }

  lemma EndUndoThrifty(q: Queue, a: Actor)
    requires Thrifty(q) && q.lock == Some(a) && a in q.work && q.work[a].Undoing?
    ensures Thrifty(Working(q, Leave(q.work, a)))
  {
    WorkingFields(q, Leave(q.work, a));
    hide Working, Thrifty;
    WorkedThrifty(q, Working(q, Leave(q.work, a)), a, Leave(q.work, a));
  }

  lemma MovedOutThrifty(q: Queue, t: Queue, a: Actor)
    requires a in q.work && q.work[a].Gathering? && q.work[a].todo != [] && q.work[a].todo[0].id in q.approved
    requires Thrifty(q) && MovedOut(q, t, a)
    ensures Thrifty(t)
  {
    var todo, moved := q.work[a].todo, q.work[a].moved;
    hide FileThrifty, DistinctIds;
    assert WorkThrifty(q, a) && FileThrifty(q, todo[0].id) && Unmoved(q, todo[0]);
    forall id
      ensures FileThrifty(t, id)
    {
      MovedOutFileThrifty(q, t, a, id);
    }
    OnlyHolder(q, a);
    HeadApart(todo, moved);
  }

  lemma HeadApart(todo: seq<Piece>, moved: seq<Piece>)
    requires todo != [] && DistinctIds(moved + todo)
    ensures DistinctIds((moved + [todo[0]]) + todo[1..])
    ensures forall p <- todo[1..] :: p in todo && p.id != todo[0].id
    ensures forall p <- moved :: p.id != todo[0].id
  {
    var all := moved + todo;
    assert (moved + [todo[0]]) + todo[1..] == all && all[|moved|] == todo[0];
    forall i | 0 <= i < |todo| - 1
      ensures todo[1..][i].id != todo[0].id
    {
      assert all[|moved| + 1 + i] == todo[1..][i];
    }
    forall i | 0 <= i < |moved|
      ensures moved[i].id != todo[0].id
    {
      assert all[i] == moved[i];
    }
  }

  lemma MovedOutFileThrifty(q: Queue, t: Queue, a: Actor, id: Id)
    requires a in q.work && q.work[a].Gathering? && q.work[a].todo != [] && q.work[a].todo[0].id in q.approved
    requires MovedOut(q, t, a) && FileThrifty(q, id) && FileThrifty(q, q.work[a].todo[0].id)
    requires Unmoved(q, q.work[a].todo[0]) && q.lock == Some(a)
    ensures FileThrifty(t, id)
  {
  }

  lemma MovedBackThrifty(q: Queue, t: Queue, a: Actor)
    requires a in q.work && q.work[a].Undoing? && q.work[a].moved != [] && q.work[a].moved[0].id in q.consumed
    requires Thrifty(q) && MovedBack(q, t, a)
    ensures Thrifty(t)
  {
    var moved := q.work[a].moved;
    hide FileThrifty;
    assert WorkThrifty(q, a) && FileThrifty(q, moved[0].id) && MovedWhole(q, moved[0]);
    forall id
      ensures FileThrifty(t, id)
    {
      assert FileThrifty(q, id);
      MovedBackFileThrifty(q, t, a, id);
    }
    OnlyHolder(q, a);
    assert forall p <- moved[1..] :: p in moved && p.id != moved[0].id;
  }

  lemma MovedBackFileThrifty(q: Queue, t: Queue, a: Actor, id: Id)
    requires a in q.work && q.work[a].Undoing? && q.work[a].moved != [] && q.work[a].moved[0].id in q.consumed
    requires MovedBack(q, t, a) && FileThrifty(q, id) && FileThrifty(q, q.work[a].moved[0].id)
    requires MovedWhole(q, q.work[a].moved[0]) && q.lock == Some(a)
    ensures FileThrifty(t, id)
  {
  }

  lemma HandedOutThrifty(q: Queue, t: Queue, a: Actor)
    requires a in q.work && q.work[a].Gathering? && Thrifty(q) && HandedOut(q, t, a)
    ensures Thrifty(t)
  {
    hide FileThrifty, Ids, BumpEach, Files, DistinctIds;
    assert WorkThrifty(q, a);
    forall id
      ensures FileThrifty(t, id)
    {
      HandedOutFileThrifty(q, t, a, id);
    }
    OnlyHolder(q, a);
  }

  lemma HandedOutFileThrifty(q: Queue, t: Queue, a: Actor, id: Id)
    requires a in q.work && q.work[a].Gathering? && HandedOut(q, t, a) && FileThrifty(q, id)
    requires q.lock == Some(a) && forall p <- q.work[a].moved :: MovedWhole(q, p)
    ensures FileThrifty(t, id)
  {
    hide Files, BumpEach, Ids;
    var ids := Ids(q.work[a].moved);
    BumpEachCounts(q.spent, ids, id);
    BumpEachCounts(q.redeemed, ids, id);
    if id in ids {
      var p := PieceNamed(q.work[a].moved, id);
      assert MovedWhole(q, p);
    }
  }

  lemma BumpEachCounts(m: map<Id, nat>, ids: set<Id>, id: Id)
    ensures Count(BumpEach(m, ids), id) == Count(m, id) + if id in ids then 1 else 0
  {
  }

  lemma PieceNamed(pieces: seq<Piece>, id: Id) returns (p: Piece)
    requires id in Ids(pieces)
    ensures p in pieces && p.id == id
  {
    p :| p in pieces && p.id == id;
  }

  lemma SetThrifty(q: Queue, a: Actor, m: SetMove)
    requires Thrifty(q) && q.lock == Some(a) && SetEnabled(q, a, m)
    ensures Thrifty(SetNext(q, a, m))
  {
    hide Thrifty, Claimable, MovedOut, MovedBack, HandedOut, OnlyWorked;
    hide MovingOut, MovingBack, HandingOut, Working, Leave;
    match m
    case MoveOne =>
      if q.work[a].todo[0].id in q.approved {
        MovingOutFields(q, a);
        MovedOutThrifty(q, MovingOut(q, a), a);
      } else {
        DropPieceThrifty(q, a, q.work[a].moved);
      }
    case MoveBack(succeeds) =>
      if succeeds && q.work[a].moved[0].id in q.consumed {
        MovingBackFields(q, a);
        MovedBackThrifty(q, MovingBack(q, a), a);
      } else {
        DropPieceThrifty(q, a, q.work[a].moved[1..]);
      }
    case FinishSet =>
      HandingOutFields(q, a);
      HandedOutThrifty(q, HandingOut(q, a), a);
    case ClaimSet(pieces, demands) => ClaimSetThrifty(q, a, pieces, demands);
    case RefuseMove => DropPieceThrifty(q, a, q.work[a].moved);
    case FinishUndo => EndUndoThrifty(q, a);
  }

  lemma PlanIsBudgeted(q: Queue, c: Work, outcome: Outcome, duration: Option<Duration>, policyCurrent: bool)
    requires c.Claimed?
    ensures var p := ResolvePlan(q, c, outcome, duration, policyCurrent);
            p.Write? && p.resolved.decision.outcome == Approved && p.resolved.decision.grant.Some? ==>
              && UsesLeft(p.resolved) == Budget(p.resolved) >= 1
              && (AttendedCritical(p.resolved.request) ==> Budget(p.resolved) == 1)
  {
    ApprovalIsBounded(q.w, c.request, duration, policyCurrent);
  }

  /** Every step keeps the books: uses left plus uses spent is the budget, and nothing is handed out
      that was not first spent. */
  lemma StepThrifty(q: Queue, s: Step)
    requires Orderly(q) && Thrifty(q) && Enabled(q, s) && Honest(s)
    ensures Thrifty(Next(q, s))
  {
    hide Thrifty, Orderly, Deciding, PuttingBack, Spending, Retiring, Claiming, Removing, DecisionPlan;
    hide SetNext, SetEnabled;
    match s
    case Resolve(a, outcome, duration, policyCurrent) =>
      PlanIsBudgeted(q, q.work[a], outcome, duration, policyCurrent);
      match ResolvePlan(q, q.work[a], outcome, duration, policyCurrent) {
        case PutBack => PutBackThrifty(q, a);
        case Write(f) => DecideThrifty(q, a, f);
      }
    case LoadGrant(a, id, demand, retireAll) => LoadThrifty(q, a, id, retireAll);
    case Spend(a) => SpendThrifty(q, a);
    case Return(a) => ReturnThrifty(q, a);
    case RetireFile(a, id) => RetireThrifty(q, a, id);
    case SetStep(a, m) => SetThrifty(q, a, m);
    case _ => QuietThrifty(q, s);
  }

  // ---- runs ---------------------------------------------------------------------------------------

  ghost predicate Feasible(q: Queue, steps: seq<Step>)
    decreases |steps|, 0
  {
    |steps| == 0
    || (Feasible(q, steps[..|steps| - 1]) && Enabled(Run(q, steps[..|steps| - 1]), steps[|steps| - 1]))
  }

  ghost function Run(q: Queue, steps: seq<Step>): Queue
    requires Feasible(q, steps)
    decreases |steps|, 1
  {
    if |steps| == 0 then q else Next(Run(q, steps[..|steps| - 1]), steps[|steps| - 1])
  }

  predicate AllHonest(steps: seq<Step>) {
    forall i :: 0 <= i < |steps| ==> Honest(steps[i])
  }

  lemma {:induction false} RunKeepsInvariants(w: Approvals.World, steps: seq<Step>)
    requires Feasible(Start(w), steps) && AllHonest(steps)
    ensures Orderly(Run(Start(w), steps)) && Thrifty(Run(Start(w), steps))
  {
    if |steps| > 0 {
      hide Orderly, Thrifty, Next, Enabled;
      var init := steps[..|steps| - 1];
      RunKeepsInvariants(w, init);
      StepOrderly(Run(Start(w), init), steps[|steps| - 1]);
      StepThrifty(Run(Start(w), init), steps[|steps| - 1]);
    }
  }

  /** In every interleaving with crashes, a request is decided at most once and is always in pending,
      scratch, approved, denied or consumed. */
  lemma DecidedOnceNeverLost(w: Approvals.World, steps: seq<Step>, id: Id)
    requires Feasible(Start(w), steps) && AllHonest(steps)
    ensures var q := Run(Start(w), steps);
            && Count(q.decisions, id) <= 1
            && (id in q.submitted ==>
                  || id in q.pending
                  || (exists n :: n in q.scratch && q.scratch[n].id == id)
                  || id in q.approved || id in q.denied || id in q.consumed)
            && (id in q.pending ==> id !in q.approved && id !in q.denied && id !in q.consumed)
  {
    RunKeepsInvariants(w, steps);
    assert Placed(Run(Start(w), steps), id);
  }

  /** Redemptions of one approval, singly or as part of a set, never exceed its budget of 1 or 512; an
      approved file accounts for every use; an attended critical approval is redeemed at most once. */
  lemma BudgetHolds(w: Approvals.World, steps: seq<Step>, id: Id)
    requires Feasible(Start(w), steps) && AllHonest(steps)
    ensures var q := Run(Start(w), steps);
            && Count(q.redeemed, id) <= Count(q.spent, id) <= REPEATABLE_GRANT_USES
            && (id in q.approved && q.approved[id].decision.grant.Some? ==>
                  && Count(q.spent, id) + UsesLeft(q.approved[id]) == Budget(q.approved[id])
                  && UsesLeft(q.approved[id]) >= 1
                  && (AttendedCritical(q.approved[id].request) ==> Count(q.redeemed, id) == 0))
            && (id in q.consumed && q.consumed[id].decision.grant.Some? ==>
                  && Count(q.redeemed, id) <= Budget(q.consumed[id])
                  && UsesLeft(q.consumed[id]) >= 1
                  && (AttendedCritical(q.consumed[id].request) ==> Count(q.redeemed, id) <= 1))
            && (id !in q.approved && id !in q.consumed ==> Count(q.redeemed, id) == 0)
  {
    RunKeepsInvariants(w, steps);
    assert FileThrifty(Run(Start(w), steps), id);
  }

  // ---- a set cut short ----------------------------------------------------------------------------

  /** A process that dies half way through a set has redeemed nothing: what it moved out rests in consumed
      with every use it had, and what it had not reached is approved as before. */
  lemma SetCrashLeaves(w: Approvals.World, steps: seq<Step>, a: Actor)
    requires Feasible(Start(w), steps) && AllHonest(steps)
    requires a in Run(Start(w), steps).work && Run(Start(w), steps).work[a].Gathering?
    ensures var q := Run(Start(w), steps);
            var t := Next(q, Die(a));
            && (forall p <- q.work[a].moved ::
                  && p.id in t.consumed && t.consumed[p.id] == p.file && p.id !in t.approved
                  && Count(t.spent, p.id) + UsesLeft(p.file) == Budget(p.file))
            && (forall p <- q.work[a].todo :: p.id in t.approved && t.approved[p.id] == p.file)
            && t.redeemed == q.redeemed && t.ledger == q.ledger
            && forall p <- q.work[a].moved :: Settled(t, p.id)
  {
    var q := Run(Start(w), steps);
    var t := Next(q, Die(a));
    RunKeepsInvariants(w, steps);
    assert WorkThrifty(q, a);
    OnlyHolder(q, a);
    forall p <- q.work[a].moved
      ensures p.id in t.consumed && t.consumed[p.id] == p.file && p.id !in t.approved && Settled(t, p.id)
      ensures Count(t.spent, p.id) + UsesLeft(p.file) == Budget(p.file)
    {
      assert MovedWhole(q, p) && FileThrifty(q, p.id);
    }
    forall p <- q.work[a].todo
      ensures p.id in t.approved && t.approved[p.id] == p.file
    {
      assert Unmoved(q, p);
    }
  }

  predicate Touches(k: Work, id: Id) {
    match k
    case Loaded(i, _) => i == id
    case Spent(i, _) => i == id
    case Gathering(todo, moved) => exists p :: p in moved + todo && p.id == id
    case Undoing(moved) => exists p <- moved :: p.id == id
    case _ => false
  }

  /** In consumed, with nobody in the middle of redeeming it. */
  ghost predicate Settled(q: Queue, id: Id) {
    id in q.consumed && forall a <- q.work :: !Touches(q.work[a], id)
  }

  lemma StepSettled(q: Queue, s: Step, id: Id)
    requires Orderly(q) && Thrifty(q) && Enabled(q, s) && Honest(s) && Settled(q, id)
    ensures var t := Next(q, s); Settled(t, id) && Count(t.redeemed, id) == Count(q.redeemed, id)
  {
    hide Orderly, Thrifty, Settled, Deciding, PuttingBack, Spending, Retiring, DecisionPlan, SetNext, SetEnabled;
    match s
    case Resolve(a, outcome, duration, policyCurrent) =>
      match ResolvePlan(q, q.work[a], outcome, duration, policyCurrent) {
        case PutBack => PutBackSettled(q, a, id);
        case Write(f) => DecideSettled(q, a, f, id);
      }
    case LoadGrant(_, _, _, _) => LoadSettled(q, s, id);
    case Spend(a) => SpendSettled(q, a, id);
    case Return(a) => ReturnSettled(q, a, id);
    case RetireFile(_, other) => RetireSettled(q, other, id);
    case SetStep(a, m) => SetSettled(q, a, m, id);
    case _ => QuietSettled(q, s, id);
  }

  lemma PutBackSettled(q: Queue, a: Actor, id: Id)
    requires a in q.work && q.work[a].Claimed? && Settled(q, id)
    ensures var t := PuttingBack(q, a); Settled(t, id) && t.redeemed == q.redeemed
  {
    hide Touches;
  }

  lemma DecideSettled(q: Queue, a: Actor, f: Resolved, id: Id)
    requires a in q.work && q.work[a].Claimed? && Settled(q, id)
    ensures var t := Deciding(q, a, f); Settled(t, id) && t.redeemed == q.redeemed
  {
    hide Deciding;
    DecideFields(q, a, f);
  }

  lemma LoadSettled(q: Queue, s: Step, id: Id)
    requires Thrifty(q) && Enabled(q, s) && s.LoadGrant? && Settled(q, id)
    ensures var t := Next(q, s); Settled(t, id) && t.redeemed == q.redeemed
  {
    assert FileThrifty(q, s.id);
    hide Matches, FileThrifty;
  }

  lemma SpendSettled(q: Queue, a: Actor, id: Id)
    requires Thrifty(q) && a in q.work && q.work[a].Loaded? && Settled(q, id)
    ensures var t := Spending(q, a); Settled(t, id) && t.redeemed == q.redeemed
  {
    hide Spending, FileThrifty;
    assert WorkThrifty(q, a) && !Touches(q.work[a], id);
    SpendFields(q, a);
    hide UsesLeft, Bump, Burnt;
  }

  lemma ReturnSettled(q: Queue, a: Actor, id: Id)
    requires Enabled(q, Return(a)) && Settled(q, id)
    ensures var t := Next(q, Return(a)); Settled(t, id) && Count(t.redeemed, id) == Count(q.redeemed, id)
  {
    assert !Touches(q.work[a], id);
  }

  lemma RetireSettled(q: Queue, other: Id, id: Id)
    requires other in q.approved && Settled(q, id)
    ensures var t := Retiring(q, other); Settled(t, id) && t.redeemed == q.redeemed
  {
    hide Touches;
  }

  lemma SetSettled(q: Queue, a: Actor, m: SetMove, id: Id)
    requires Thrifty(q) && q.lock == Some(a) && SetEnabled(q, a, m) && Settled(q, id)
    ensures var t := SetNext(q, a, m); Settled(t, id) && Count(t.redeemed, id) == Count(q.redeemed, id)
  {
    hide MovingOut, MovingBack, HandingOut, Working, Thrifty, Files;
    assert a in q.work ==> !Touches(q.work[a], id);
    match m
    case MoveOne =>
      var todo, moved := q.work[a].todo, q.work[a].moved;
      assert todo[0] in moved + todo;
      if todo[0].id in q.approved {
        MovingOutFields(q, a);
        assert (moved + [todo[0]]) + todo[1..] == moved + todo;
      } else {
        WorkingFields(q, q.work[a := Undoing(moved)]);
      }
    case MoveBack(succeeds) =>
      assert q.work[a].moved[0] in q.work[a].moved;
      if succeeds && q.work[a].moved[0].id in q.consumed {
        MovingBackFields(q, a);
      } else {
        WorkingFields(q, q.work[a := Undoing(q.work[a].moved[1..])]);
      }
    case FinishSet => HandingOutFields(q, a);
    case ClaimSet(pieces, demands) =>
      WorkingFields(q, q.work[a := Gathering(pieces, [])]);
      ClaimSettled(q, pieces, demands, id);
    case RefuseMove => WorkingFields(q, q.work[a := Undoing(q.work[a].moved)]);
    case FinishUndo => WorkingFields(q, Leave(q.work, a));
  }

  lemma ClaimSettled(q: Queue, pieces: seq<Piece>, demands: seq<Demand>, id: Id)
    requires Thrifty(q) && Claimable(q, pieces, demands) && id in q.consumed
    ensures !Touches(Gathering(pieces, []), id)
  {
    hide Matches;
    forall i | 0 <= i < |pieces|
      ensures pieces[i].id != id
    {
      assert FileThrifty(q, pieces[i].id);
    }
    assert [] + pieces == pieces;
  }

  lemma QuietSettled(q: Queue, s: Step, id: Id)
    requires Enabled(q, s) && Settled(q, id) && Quiet(s) && !s.RetireFile? && Honest(s)
    ensures var t := Next(q, s); Settled(t, id) && t.redeemed == q.redeemed
  {
    hide Matches, SetNext, SetEnabled;
  }

  /** A consumed file nobody is in the middle of redeeming stays where it is and is never redeemed again. */
  lemma {:induction false} ConsumedForGood(q: Queue, steps: seq<Step>, id: Id)
    requires Orderly(q) && Thrifty(q) && Settled(q, id) && Feasible(q, steps) && AllHonest(steps)
    ensures var t := Run(q, steps);
            Orderly(t) && Thrifty(t) && Settled(t, id) && Count(t.redeemed, id) == Count(q.redeemed, id)
    decreases |steps|
  {
    if |steps| > 0 {
      hide Orderly, Thrifty, Settled, Next, Enabled;
      var init := steps[..|steps| - 1];
      ConsumedForGood(q, init, id);
      StepOrderly(Run(q, init), steps[|steps| - 1]);
      StepThrifty(Run(q, init), steps[|steps| - 1]);
      StepSettled(Run(q, init), steps[|steps| - 1], id);
    }
  }

  // ---- revoked authority --------------------------------------------------------------------------

  /** The file belongs to a revoked execution, or to a generation that has been superseded. */
  predicate Dead(w: Approvals.World, f: Resolved) {
    || (f.request.execution.Some? && f.request.execution.value.identity in w.revoked)
    || (f.decision.grant.Some? && f.decision.grant.value.generation.Some?
        && f.decision.grant.value.generation.value < Current(w.generations, f.request.owner, f.request.session))
  }

  /** The files of a set on their way out. */
  function PiecesOf(k: Work): seq<Piece> {
    if k.Gathering? then k.moved + k.todo else []
  }

  predicate Carries(w: Approvals.World, k: Work) {
    || (k.Loaded? && Dead(w, k.next)) || (k.Spent? && Dead(w, k.grant))
    || exists p <- PiecesOf(k) :: Dead(w, p.file)
  }

  /** No process is between loading a dead grant and handing it out. */
  ghost predicate NoneCarried(w: Approvals.World, work: map<Actor, Work>) {
    forall a <- work :: !Carries(w, work[a])
  }

  lemma MatchIsNotDead(w: Approvals.World, x: Approvals.World, f: Resolved, d: Demand, retireAll: bool)
    requires Advances(w, x) && Matches(x, f, d)
    ensures !Dead(w, Decremented(f, retireAll)) && !Dead(w, f)
    ensures d.execution.None? ==> f.request.execution.None?
  {
    MatchNeedsUnrevokedExecution(x, f, d);
  }

  lemma StepCarriesNone(w: Approvals.World, q: Queue, s: Step)
    requires Advances(w, q.w) && NoneCarried(w, q.work) && Enabled(q, s)
    ensures Advances(w, Next(q, s).w) && NoneCarried(w, Next(q, s).work)
    ensures q.ledger <= Next(q, s).ledger
    ensures forall i :: |q.ledger| <= i < |Next(q, s).ledger| ==> !Dead(w, Next(q, s).ledger[i])
  {
    hide Dead, Matches, Spending, SetNext, SetEnabled;
    match s
    case LoadGrant(_, id, demand, retireAll) => MatchIsNotDead(w, q.w, q.approved[id], demand, retireAll);
    case Spend(a) => SpendCarriesNone(w, q, a);
    case Resolve(_, _, _, _) => ResolveCarriesNone(w, q, s);
    case Return(a) => assert !Carries(w, q.work[a]);
    case SetStep(a, m) => SetCarriesNone(w, q, a, m);
    case _ => QuietCarriesNone(w, q, s);
  }

  /** The other steps start, end and change no redemption. */
  predicate Quiet(s: Step) {
    !s.LoadGrant? && !s.Spend? && !s.Resolve? && !s.Return? && !s.SetStep?
  }

  lemma QuietCarriesNone(w: Approvals.World, q: Queue, s: Step)
    requires Advances(w, q.w) && NoneCarried(w, q.work) && Enabled(q, s) && Quiet(s)
    ensures Advances(w, Next(q, s).w) && NoneCarried(w, Next(q, s).work) && Next(q, s).ledger == q.ledger
  {
    hide Dead, Enabled, Next;
    QuietLedger(q, s);
    forall a <- Next(q, s).work
      ensures !Carries(w, Next(q, s).work[a])
    {
      if Redeeming(Next(q, s).work[a]) {
        QuietWork(q, s, a);
        assert !Carries(w, q.work[a]);
      }
    }
  }

  lemma QuietLedger(q: Queue, s: Step)
    requires Enabled(q, s) && Quiet(s)
    ensures Next(q, s).ledger == q.ledger && Advances(q.w, Next(q, s).w)
  {
    hide Matches, Leave, Without, SetNext, SetEnabled;
  }

  lemma QuietWork(q: Queue, s: Step, a: Actor)
    requires Enabled(q, s) && Quiet(s)
    requires a in Next(q, s).work && Redeeming(Next(q, s).work[a])
    ensures a in q.work && Next(q, s).work[a] == q.work[a]
  {
    hide Matches, SetNext, SetEnabled;
  }

  /** What a set step leaves in hand, and what it hands out. */
  ghost predicate SetWorked(q: Queue, t: Queue, a: Actor, m: SetMove)
    requires SetEnabled(q, a, m)
  {
    && t.w == q.w && t.lock == q.lock
    && t.ledger == (if m.FinishSet? then q.ledger + Files(q.work[a].moved) else q.ledger)
    && (forall b :: b != a ==> (b in t.work <==> b in q.work) && (b in t.work ==> t.work[b] == q.work[b]))
    && (a in t.work ==>
          || t.work[a].Undoing?
          || (m.ClaimSet? && t.work[a] == Gathering(m.pieces, []))
          || (a in q.work && t.work[a].Gathering? && PiecesOf(t.work[a]) == PiecesOf(q.work[a])))
  }

  lemma SetWorks(q: Queue, a: Actor, m: SetMove)
    requires SetEnabled(q, a, m)
    ensures SetWorked(q, SetNext(q, a, m), a, m)
  {
    hide MovingOut, MovingBack, HandingOut, Working, Claimable, Files, Without, BumpEach;
    match m
    case MoveOne =>
      if q.work[a].todo[0].id in q.approved {
        MovingOutFields(q, a);
        assert (q.work[a].moved + [q.work[a].todo[0]]) + q.work[a].todo[1..] == q.work[a].moved + q.work[a].todo;
      } else {
        WorkingFields(q, q.work[a := Undoing(q.work[a].moved)]);
      }
    case MoveBack(succeeds) =>
      if succeeds && q.work[a].moved[0].id in q.consumed {
        MovingBackFields(q, a);
      } else {
        WorkingFields(q, q.work[a := Undoing(q.work[a].moved[1..])]);
      }
    case FinishSet => HandingOutFields(q, a);
    case ClaimSet(pieces, _) => WorkingFields(q, q.work[a := Gathering(pieces, [])]);
    case RefuseMove => WorkingFields(q, q.work[a := Undoing(q.work[a].moved)]);
    case FinishUndo => WorkingFields(q, Leave(q.work, a));
  }

  lemma ClaimedNotDead(w: Approvals.World, q: Queue, pieces: seq<Piece>, demands: seq<Demand>)
    requires Advances(w, q.w) && Claimable(q, pieces, demands)
    ensures forall p <- pieces :: p.file.request.execution.None? && !Dead(w, p.file)
  {
    hide Dead, Matches;
    forall i | 0 <= i < |pieces|
      ensures pieces[i].file.request.execution.None? && !Dead(w, pieces[i].file)
    {
      MatchIsNotDead(w, q.w, pieces[i].file, demands[i], false);
    }
  }

  lemma SetCarriesNone(w: Approvals.World, q: Queue, a: Actor, m: SetMove)
    requires Advances(w, q.w) && NoneCarried(w, q.work) && SetEnabled(q, a, m)
    ensures var t := SetNext(q, a, m);
            && t.w == q.w && NoneCarried(w, t.work) && q.ledger <= t.ledger
            && forall i :: |q.ledger| <= i < |t.ledger| ==> !Dead(w, t.ledger[i])
  {
    hide Dead, SetNext, Claimable;
    var t := SetNext(q, a, m);
    SetWorks(q, a, m);
    if m.ClaimSet? {
      ClaimedNotDead(w, q, m.pieces, m.demands);
    }
    if m.FinishSet? {
      forall i | |q.ledger| <= i < |t.ledger|
        ensures !Dead(w, t.ledger[i])
      {
        assert t.ledger[i] == q.work[a].moved[i - |q.ledger|].file;
        assert q.work[a].moved[i - |q.ledger|] in PiecesOf(q.work[a]);
      }
    }
    forall b <- t.work
      ensures !Carries(w, t.work[b])
    {
      if b in q.work {
        assert !Carries(w, q.work[b]);
      }
    }
  }

  lemma ResolveCarriesNone(w: Approvals.World, q: Queue, s: Step)
    requires Advances(w, q.w) && NoneCarried(w, q.work) && Enabled(q, s) && s.Resolve?
    ensures Next(q, s).w == q.w && NoneCarried(w, Next(q, s).work) && Next(q, s).ledger == q.ledger
  {
    hide Dead, DecisionPlan, NoneCarried, Matches, Deciding, PuttingBack;
    var c := q.work[s.actor];
    ReplaceCarriesNone(w, q.work, s.actor, Written(c.nonce, c.id));
    match ResolvePlan(q, c, s.outcome, s.duration, s.policyCurrent)
    case PutBack => PutBackFrame(q, s.actor);
    case Write(f) => DecideFrame(q, s.actor, f);
  }

  lemma PutBackFrame(q: Queue, a: Actor)
    requires a in q.work && q.work[a].Claimed?
    ensures var t := PuttingBack(q, a); t.w == q.w && t.ledger == q.ledger && t.work == Leave(q.work, a)
  {
  }

  lemma DecideFrame(q: Queue, a: Actor, f: Resolved)
    requires a in q.work && q.work[a].Claimed?
    ensures var t := Deciding(q, a, f);
            t.w == q.w && t.ledger == q.ledger && t.work == q.work[a := Written(q.work[a].nonce, q.work[a].id)]
  {
    DecideFields(q, a, f);
    hide Deciding, Bump;
  }

  lemma SpendFrame(q: Queue, a: Actor)
    requires a in q.work && q.work[a].Loaded?
    ensures var t := Spending(q, a);
            && t.w == q.w && t.ledger == q.ledger
            && t.work == if q.work[a].id in q.approved then q.work[a := Spent(q.work[a].id, q.work[a].next)]
                         else Leave(q.work, a)
  {
    hide UsesLeft, Bump, Burnt, Leave, Without;
    if q.work[a].id in q.approved {
      SpendFields(q, a);
    }
  }

  lemma SpendCarriesNone(w: Approvals.World, q: Queue, a: Actor)
    requires NoneCarried(w, q.work) && a in q.work && q.work[a].Loaded?
    ensures Spending(q, a).w == q.w && NoneCarried(w, Spending(q, a).work) && Spending(q, a).ledger == q.ledger
  {
    hide Dead, Spending;
    assert !Carries(w, q.work[a]);
    hide NoneCarried;
    SpendFrame(q, a);
    ReplaceCarriesNone(w, q.work, a, Spent(q.work[a].id, q.work[a].next));
  }

  lemma ReplaceCarriesNone(w: Approvals.World, work: map<Actor, Work>, a: Actor, k: Work)
    requires NoneCarried(w, work) && !Carries(w, k)
    ensures NoneCarried(w, work[a := k]) && NoneCarried(w, Leave(work, a))
  {
  }

  /** From a moment at which nobody carries one, no grant of a revoked execution or a superseded
      generation is ever handed out again, whatever copies of old approved files are put back. */
  lemma {:induction false} RevokedNeverRedeemed(q: Queue, steps: seq<Step>)
    requires Feasible(q, steps) && NoneCarried(q.w, q.work)
    ensures var t := Run(q, steps);
            && Advances(q.w, t.w) && NoneCarried(q.w, t.work) && q.ledger <= t.ledger
            && forall i :: |q.ledger| <= i < |t.ledger| ==> !Dead(q.w, t.ledger[i])
    decreases |steps|
  {
    if |steps| > 0 {
      hide Next, Enabled, Dead;
      var init := steps[..|steps| - 1];
      RevokedNeverRedeemed(q, init);
      StepCarriesNone(q.w, Run(q, init), steps[|steps| - 1]);
    }
  }

  // ---- what may still be in flight -----------------------------------------------------------------

  predicate Carrying(k: Work) {
    k.Loaded? || k.Spent?
  }

  function GrantOf(k: Work): Resolved
    requires Carrying(k)
  {
    if k.Loaded? then k.next else k.grant
  }

  /** Only the lock holder is between loading a grant and handing it out, its file is still there, and
      what it takes as a set is alive and nobody's execution in particular. */
  ghost predicate LockHeld(q: Queue) {
    forall a <- q.work :: HolderWork(q, a)
  }

  predicate HolderWork(q: Queue, a: Actor)
    requires a in q.work
  {
    && (Redeeming(q.work[a]) ==> q.lock == Some(a))
    && (q.work[a].Loaded? ==> q.work[a].id in q.approved)
    && (forall p <- PiecesOf(q.work[a]) :: p.file.request.execution.None? && !Dead(q.w, p.file))
  }

  lemma StepLockHeld(q: Queue, s: Step)
    requires LockHeld(q) && Enabled(q, s)
    ensures LockHeld(Next(q, s))
  {
    hide LockHeld, Matches, DecisionPlan, Spending, Deciding, SetNext, SetEnabled;
    match s
    case Spend(a) => SpendLockHeld(q, a);
    case Resolve(_, _, _, _) => ResolveLockHeld(q, s);
    case SetStep(a, m) => SetLockHeld(q, a, m);
    case Return(a) => ReturnLockHeld(q, a);
    case LoadGrant(_, _, _, _) => LoadLockHeld(q, s);
    case _ => QuietLockHeld(q, s);
  }

  lemma ReturnLockHeld(q: Queue, a: Actor)
    requires LockHeld(q) && Enabled(q, Return(a))
    ensures LockHeld(Next(q, Return(a)))
  {
    hide Dead;
    forall b <- Next(q, Return(a)).work
      ensures HolderWork(Next(q, Return(a)), b)
    {
      assert HolderWork(q, b);
    }
  }

  lemma LoadLockHeld(q: Queue, s: Step)
    requires LockHeld(q) && Enabled(q, s) && s.LoadGrant?
    ensures LockHeld(Next(q, s))
  {
    hide Dead, Matches;
    forall b <- Next(q, s).work
      ensures HolderWork(Next(q, s), b)
    {
      if b != s.actor {
        assert HolderWork(q, b);
      }
    }
  }

  lemma SetLockHeld(q: Queue, a: Actor, m: SetMove)
    requires LockHeld(q) && q.lock == Some(a) && SetEnabled(q, a, m)
    ensures LockHeld(SetNext(q, a, m))
  {
    hide Dead, SetNext, Claimable;
    var t := SetNext(q, a, m);
    SetWorks(q, a, m);
    if m.ClaimSet? {
      ClaimedNotDead(q.w, q, m.pieces, m.demands);
    }
    forall b <- t.work
      ensures HolderWork(t, b)
    {
      if b in q.work {
        assert HolderWork(q, b);
      }
    }
  }

  /** Generations are raised only while nobody redeems, and no clock or marker kills a piece of a set. */
  lemma QuietLockHeld(q: Queue, s: Step)
    requires LockHeld(q) && Enabled(q, s) && Quiet(s)
    ensures LockHeld(Next(q, s))
  {
    hide Dead, Enabled, Next;
    forall a <- Next(q, s).work
      ensures HolderWork(Next(q, s), a)
    {
      if Redeeming(Next(q, s).work[a]) {
        QuietWork(q, s, a);
        assert HolderWork(q, a);
        QuietHolder(q, s, a);
      }
    }
  }

  lemma QuietHolder(q: Queue, s: Step, a: Actor)
    requires Enabled(q, s) && Quiet(s) && q.lock == Some(a) && a in q.work && Redeeming(q.work[a])
    requires a in Next(q, s).work && Next(q, s).work[a] == q.work[a]
    ensures Next(q, s).lock == q.lock && q.approved.Keys <= Next(q, s).approved.Keys
    ensures Next(q, s).w.generations == q.w.generations
    ensures forall f: Resolved :: f.request.execution.None? && !Dead(q.w, f) ==> !Dead(Next(q, s).w, f)
  {
    hide Matches, SetNext, SetEnabled, Without, Bump;
  }

  lemma SpendLockHeld(q: Queue, a: Actor)
    requires LockHeld(q) && a in q.work && q.work[a].Loaded?
    ensures LockHeld(Spending(q, a))
  {
    var t := Spending(q, a);
    assert HolderWork(q, a);
    SpendFields(q, a);
    hide Spending;
    forall b <- t.work
      ensures HolderWork(t, b)
    {
      if b != a {
        assert HolderWork(q, b);
      }
    }
  }

  lemma ResolveLockHeld(q: Queue, s: Step)
    requires LockHeld(q) && Enabled(q, s) && s.Resolve?
    ensures LockHeld(Next(q, s))
  {
    hide DecisionPlan, Matches, Deciding;
    var t := Next(q, s);
    match ResolvePlan(q, q.work[s.actor], s.outcome, s.duration, s.policyCurrent)
    case PutBack =>
      forall a <- t.work
        ensures HolderWork(t, a)
      {
        assert HolderWork(q, a);
      }
    case Write(f) =>
      DecideFields(q, s.actor, f);
      forall a <- t.work
        ensures HolderWork(t, a)
      {
        if a != s.actor {
          assert HolderWork(q, a);
        }
      }
  }

  /** Old copies put back or not. */
  lemma {:induction false} RunLockHeld(w: Approvals.World, steps: seq<Step>)
    requires Feasible(Start(w), steps)
    ensures LockHeld(Run(Start(w), steps))
  {
    if |steps| > 0 {
      hide LockHeld, Next, Enabled;
      var init := steps[..|steps| - 1];
      RunLockHeld(w, init);
      StepLockHeld(Run(Start(w), init), steps[|steps| - 1]);
    }
  }

  predicate LockQuiet(q: Queue) {
    q.lock.Some? ==> Idle(q, q.lock.value)
  }

  lemma QuietLockCarriesNone(q: Queue, w: Approvals.World)
    requires LockHeld(q) && LockQuiet(q)
    ensures NoneCarried(w, q.work)
  {
    forall a <- q.work
      ensures !Carries(w, q.work[a])
    {
      assert HolderWork(q, a);
    }
  }

  /** A raised generation is final at once: the raise holds the lock a redeemer would need. */
  lemma RaisedNeverRedeemed(
    w: Approvals.World, before: seq<Step>, a: Actor, generations: Generations, later: seq<Step>)
    requires Feasible(Start(w), before) && Enabled(Run(Start(w), before), Raise(a, generations))
    requires Feasible(Next(Run(Start(w), before), Raise(a, generations)), later)
    ensures var q := Next(Run(Start(w), before), Raise(a, generations));
            var t := Run(q, later);
            && q.ledger <= t.ledger
            && forall i :: |q.ledger| <= i < |t.ledger| ==> !Dead(q.w, t.ledger[i])
  {
    hide Dead;
    RunLockHeld(w, before);
    var q := Next(Run(Start(w), before), Raise(a, generations));
    StepLockHeld(Run(Start(w), before), Raise(a, generations));
    QuietLockCarriesNone(q, q.w);
    RevokedNeverRedeemed(q, later);
  }

  /** Revoking a session, in any run: no grant of that session minted up to then is handed out again. */
  lemma SessionRevokedNeverRedeemed(
    w: Approvals.World, before: seq<Step>, a: Actor, owner: Owner, session: string, later: seq<Step>)
    requires Feasible(Start(w), before)
    requires var q := Run(Start(w), before); q.lock == Some(a) && Idle(q, a)
    requires var g := RevokeSession(Run(Start(w), before).w.generations, owner, session);
             g.Some? && Enabled(Run(Start(w), before), Raise(a, g.value))
             && Feasible(Next(Run(Start(w), before), Raise(a, g.value)), later)
    ensures var q := Run(Start(w), before);
            var raised := Next(q, Raise(a, RevokeSession(q.w.generations, owner, session).value));
            forall i :: |raised.ledger| <= i < |Run(raised, later).ledger| ==>
              !MintedUpTo(Run(raised, later).ledger[i], owner, session, Current(q.w.generations, owner, session))
  {
    var q := Run(Start(w), before);
    var g := RevokeSession(q.w.generations, owner, session).value;
    SessionRevocationAdvances(q.w.generations, owner, session);
    RaisedNeverRedeemed(w, before, a, g, later);
    MintedUpToIsDead(Next(q, Raise(a, g)).w, owner, session, Current(q.w.generations, owner, session));
  }

  /** A grant of this owner and session carrying this generation or an earlier one. */
  predicate MintedUpTo(f: Resolved, owner: Owner, session: string, generation: nat) {
    && f.request.owner == owner && f.request.session == session
    && f.decision.grant.Some? && f.decision.grant.value.generation.Some?
    && f.decision.grant.value.generation.value <= generation
  }

  lemma MintedUpToIsDead(w: Approvals.World, owner: Owner, session: string, generation: nat)
    requires generation < Current(w.generations, owner, session)
    ensures forall f :: MintedUpTo(f, owner, session, generation) ==> Dead(w, f)
  {
  }

  /** The lock holder may always make the raise a revocation asks for. */
  lemma RevocationIsRaise(q: Queue, a: Actor, owner: Owner, session: string, floor: nat)
    requires q.lock == Some(a) && Idle(q, a)
    requires CoversSessions(q.w.generations, owner, floor)
    requires floor == 0 || exists k <- q.w.generations.sessions :: k.0 == owner && q.w.generations.sessions[k] == floor
    ensures RevokeSession(q.w.generations, owner, session).Some? ==>
              Enabled(q, Raise(a, RevokeSession(q.w.generations, owner, session).value))
    ensures RevokeOwner(q.w.generations, owner, floor).Some? ==>
              Enabled(q, Raise(a, RevokeOwner(q.w.generations, owner, floor).value))
  {
    SessionRevocationAdvances(q.w.generations, owner, session);
    OwnerRevocationAdvances(q.w.generations, owner, floor);
  }

  /** Some run from here hands out a grant that is dead already. */
  ghost predicate CanHandOutDead(q: Queue) {
    exists steps :: Feasible(q, steps) && HandsOutDead(q, steps)
  }

  ghost predicate HandsOutDead(q: Queue, steps: seq<Step>)
    requires Feasible(q, steps)
  {
    exists i :: |q.ledger| <= i < |Run(q, steps).ledger| && Dead(q.w, Run(q, steps).ledger[i])
  }

  /** A revocation written without the lock is final exactly when the lock holder is not already
      carrying a grant it kills. */
  lemma RevokedRedeemedIff(q: Queue)
    requires LockHeld(q)
    ensures CanHandOutDead(q) <==> !NoneCarried(q.w, q.work)
  {
    if NoneCarried(q.w, q.work) {
      forall steps | Feasible(q, steps)
        ensures !HandsOutDead(q, steps)
      {
        RevokedNeverRedeemed(q, steps);
      }
    } else {
      var a :| a in q.work && Carries(q.w, q.work[a]);
      assert HolderWork(q, a);
      var steps := if q.work[a].Loaded? then [Spend(a), Return(a)] else [Return(a)];
      FinishRedemption(q, a, steps);
      assert Run(q, steps).ledger[|q.ledger|] == GrantOf(q.work[a]);
      assert HandsOutDead(q, steps);
    }
  }

  lemma RunTwo(q: Queue, s: Step, t: Step)
    requires Enabled(q, s) && Enabled(Next(q, s), t)
    ensures Feasible(q, [s, t]) && Run(q, [s, t]) == Next(Next(q, s), t)
  {
    RunOne(q, s);
    assert [s, t][..1] == [s];
  }

  lemma RunOne(q: Queue, s: Step)
    requires Enabled(q, s)
    ensures Feasible(q, [s]) && Run(q, [s]) == Next(q, s)
  {
    assert [s][..0] == [];
    assert Feasible(q, []) && Run(q, []) == q;
  }

  lemma {:induction false} RunConcat(q: Queue, xs: seq<Step>, ys: seq<Step>)
    requires Feasible(q, xs) && Feasible(Run(q, xs), ys)
    ensures Feasible(q, xs + ys) && Run(q, xs + ys) == Run(Run(q, xs), ys)
    decreases |ys|
  {
    hide Next, Enabled;
    if ys == [] {
      assert xs + ys == xs;
    } else {
      RunConcat(q, xs, ys[..|ys| - 1]);
      assert (xs + ys)[..|xs + ys| - 1] == xs + ys[..|ys| - 1];
    }
  }

  /** The holder of a loaded grant can always go on to hand it out. */
  lemma FinishRedemption(q: Queue, a: Actor, steps: seq<Step>)
    requires a in q.work && Carrying(q.work[a]) && q.lock == Some(a)
    requires q.work[a].Loaded? ==> q.work[a].id in q.approved
    requires steps == if q.work[a].Loaded? then [Spend(a), Return(a)] else [Return(a)]
    ensures Feasible(q, steps) && Run(q, steps).ledger == q.ledger + [GrantOf(q.work[a])]
  {
    if q.work[a].Loaded? {
      SpendFields(q, a);
      hide Spending;
      RunTwo(q, Spend(a), Return(a));
    } else {
      RunOne(q, Return(a));
    }
  }

  /** What a run may still hand out of the dead: one grant, the one its holder carried. */
  ghost predicate InFlightOnly(q: Queue, t: Queue) {
    && LockHeld(t) && Advances(q.w, t.w) && q.ledger <= t.ledger
    && (forall i :: |q.ledger| <= i < |t.ledger| && Dead(q.w, t.ledger[i]) ==>
          NoneCarried(q.w, t.work) && WasCarried(q, t.ledger[i]))
    && (forall i, j ::
          && |q.ledger| <= i < |t.ledger| && Dead(q.w, t.ledger[i])
          && |q.ledger| <= j < |t.ledger| && Dead(q.w, t.ledger[j])
          ==> i == j)
    && (forall a <- t.work :: Carries(q.w, t.work[a]) ==> Carrying(t.work[a]) && WasCarried(q, GrantOf(t.work[a])))
  }

  ghost predicate WasCarried(q: Queue, f: Resolved) {
    exists a <- q.work :: Carrying(q.work[a]) && GrantOf(q.work[a]) == f
  }

  /** A step carries on with what was carried, or with something that is not dead. */
  lemma StepCarries(w: Approvals.World, q: Queue, s: Step, a: Actor)
    requires Advances(w, q.w) && Enabled(q, s)
    requires a in Next(q, s).work && Carrying(Next(q, s).work[a]) && Carries(w, Next(q, s).work[a])
    ensures a in q.work && Carrying(q.work[a]) && Carries(w, q.work[a])
    ensures GrantOf(Next(q, s).work[a]) == GrantOf(q.work[a])
  {
    hide Dead, Matches, Spending, Deciding, PuttingBack, DecisionPlan, SetNext, SetEnabled;
    match s
    case LoadGrant(_, id, demand, retireAll) => MatchIsNotDead(w, q.w, q.approved[id], demand, retireAll);
    case Spend(b) => SpendFrame(q, b);
    case Resolve(b, outcome, duration, policyCurrent) =>
      match ResolvePlan(q, q.work[b], outcome, duration, policyCurrent) {
        case PutBack => PutBackFrame(q, b);
        case Write(f) => DecideFrame(q, b, f);
      }
    case Return(_) =>
    case SetStep(b, m) => SetWorks(q, b, m);
    case _ => QuietWork(q, s, a);
  }

  /** What a step adds to the ledger: a returned grant, or a finished set. */
  function Handed(q: Queue, s: Step): seq<Resolved> {
    if s.Return? && s.actor in q.work && Carrying(q.work[s.actor]) then [GrantOf(q.work[s.actor])]
    else if s.SetStep? && s.move.FinishSet? && s.actor in q.work && q.work[s.actor].Gathering?
    then Files(q.work[s.actor].moved)
    else []
  }

  lemma StepLedger(q: Queue, s: Step)
    requires Enabled(q, s)
    ensures Next(q, s).ledger == q.ledger + Handed(q, s)
    ensures Advances(q.w, Next(q, s).w)
  {
    hide Matches, Spending, Deciding, PuttingBack, DecisionPlan, SetNext, Files, Claimable;
    match s
    case Spend(b) => SpendFrame(q, b);
    case Resolve(b, outcome, duration, policyCurrent) =>
      match ResolvePlan(q, q.work[b], outcome, duration, policyCurrent) {
        case PutBack => PutBackFrame(q, b);
        case Write(f) => DecideFrame(q, b, f);
      }
    case Return(_) =>
    case LoadGrant(_, _, _, _) =>
    case SetStep(b, m) => SetWorks(q, b, m);
    case _ => QuietLedger(q, s);
  }

  /** A finished set hands out nothing that is dead. */
  lemma FinishedSetAlive(w: Approvals.World, q: Queue, s: Step)
    requires LockHeld(q) && Advances(w, q.w) && Enabled(q, s) && s.SetStep?
    ensures forall f <- Handed(q, s) :: f.request.execution.None? && !Dead(w, f)
  {
    hide Matches;
    if s.move.FinishSet? {
      assert HolderWork(q, s.actor);
      forall i | 0 <= i < |q.work[s.actor].moved|
        ensures q.work[s.actor].moved[i].file.request.execution.None? && !Dead(w, q.work[s.actor].moved[i].file)
      {
        assert q.work[s.actor].moved[i] in PiecesOf(q.work[s.actor]);
      }
    }
  }

  /** In a state where the lock is held as it should be, only a single grant can be dead in hand. */
  lemma SetsCarryNone(w: Approvals.World, q: Queue, a: Actor)
    requires LockHeld(q) && Advances(w, q.w) && a in q.work && Carries(w, q.work[a])
    ensures Carrying(q.work[a])
  {
    assert HolderWork(q, a);
  }

  lemma StepInFlight(q: Queue, t: Queue, s: Step)
    requires InFlightOnly(q, t) && Enabled(t, s)
    ensures InFlightOnly(q, Next(t, s))
  {
    hide Next, Enabled, Dead, HolderWork;
    var u := Next(t, s);
    StepLockHeld(t, s);
    StepLedger(t, s);
    forall a <- u.work | Carries(q.w, u.work[a])
      ensures Carrying(u.work[a]) && WasCarried(q, GrantOf(u.work[a])) && a in t.work && Carries(q.w, t.work[a])
    {
      SetsCarryNone(q.w, u, a);
      StepCarries(q.w, t, s, a);
    }
    if s.Return? {
      ReturnInFlight(q, t, s);
    } else if s.SetStep? {
      FinishedSetAlive(q.w, t, s);
    }
  }

  /** Handing out the one carried grant leaves nobody carrying. */
  lemma ReturnInFlight(q: Queue, t: Queue, s: Step)
    requires InFlightOnly(q, t) && Enabled(t, s) && s.Return?
    ensures Dead(q.w, GrantOf(t.work[s.actor])) ==>
              && WasCarried(q, GrantOf(t.work[s.actor])) && NoneCarried(q.w, Next(t, s).work)
              && forall i :: |q.ledger| <= i < |t.ledger| ==> !Dead(q.w, t.ledger[i])
  {
    hide Dead;
    if Dead(q.w, GrantOf(t.work[s.actor])) {
      assert Carries(q.w, t.work[s.actor]);
      forall a <- Next(t, s).work
        ensures !Carries(q.w, Next(t, s).work[a])
      {
        assert HolderWork(t, a);
      }
    }
  }

  /** After a revocation at most one dead grant is still handed out, and it is the one that a redeemer
      had already loaded. */
  lemma {:induction false} AtMostOneAfterRevocation(q: Queue, steps: seq<Step>)
    requires LockHeld(q) && Feasible(q, steps)
    ensures InFlightOnly(q, Run(q, steps))
    decreases |steps|
  {
    hide Next, Enabled, Dead;
    if |steps| == 0 {
      forall a <- q.work | Carries(q.w, q.work[a])
        ensures WasCarried(q, GrantOf(q.work[a]))
      {
      }
    } else {
      var init := steps[..|steps| - 1];
      AtMostOneAfterRevocation(q, init);
      StepInFlight(q, Run(q, init), steps[|steps| - 1]);
    }
  }

  /** The input that shows it: whatever grant a redeemer loads, its execution can be revoked before the
      spend, and the grant is still handed out. */
  lemma RevokedInFlight(q: Queue, a: Actor, id: Id, demand: Demand, x: Approvals.World)
    requires Enabled(q, LoadGrant(a, id, demand, false)) && q.approved[id].request.execution.Some?
    requires x == q.w.(revoked := q.w.revoked + {q.approved[id].request.execution.value.identity})
    ensures var steps := [LoadGrant(a, id, demand, false), Tick(x), Spend(a), Return(a)];
            && Feasible(q, steps)
            && Run(q, steps).ledger == q.ledger + [Decremented(q.approved[id], false)]
            && Dead(x, Decremented(q.approved[id], false))
  {
    hide Matches, Dead, Decremented, Next, Feasible, Run;
    var load := LoadGrant(a, id, demand, false);
    LoadedThenMarked(q, a, id, demand, x);
    hide Enabled;
    RunTwo(q, load, Tick(x));
    var marked := Run(q, [load, Tick(x)]);
    FinishRedemption(marked, a, [Spend(a), Return(a)]);
    RunConcat(q, [load, Tick(x)], [Spend(a), Return(a)]);
    assert [load, Tick(x)] + [Spend(a), Return(a)] == [load, Tick(x), Spend(a), Return(a)];
  }

  lemma LoadedThenMarked(q: Queue, a: Actor, id: Id, demand: Demand, x: Approvals.World)
    requires Enabled(q, LoadGrant(a, id, demand, false)) && q.approved[id].request.execution.Some?
    requires x == q.w.(revoked := q.w.revoked + {q.approved[id].request.execution.value.identity})
    ensures Enabled(Next(q, LoadGrant(a, id, demand, false)), Tick(x))
    ensures var marked := Next(Next(q, LoadGrant(a, id, demand, false)), Tick(x));
            && marked.work == q.work[a := Loaded(id, Decremented(q.approved[id], false))]
            && marked.lock == Some(a) && marked.approved == q.approved && marked.ledger == q.ledger
            && Dead(x, Decremented(q.approved[id], false))
  {
    assert q.approved[id].decision.grant.Some?;
    hide Matches;
  }

  // ---- what was approved can be redeemed ----------------------------------------------------------

  /** The whole way of one approval: a resolver that holds a claimed request writes it, clears the
      scratch file, and the grant is loaded, spent and handed out, exactly while the worker that
      asked has lease left and is still the process it was, save for a resumption deadline on a request
      that is no agent's. */
  lemma ApprovedIsRedeemableIff(q: Queue, a: Actor, duration: Option<Duration>, d: Demand)
    requires q.lock == Some(a) && a in q.work && q.work[a].Claimed? && q.work[a].resolver
    requires !IsPolicySession(q.work[a].request.session)
    requires var p := DecisionPlan(q.w, q.work[a].request, Approved, duration, true);
             p.Write? && p.resolved.decision.outcome == Approved
    requires var r := q.work[a].request;
             d == Demand(r.owner, r.session, Cap(r.verb, r.scope), q.w.catalog[r.verb], r.context, r.digest,
                         if r.execution.Some? then Some(r.execution.value.identity) else None, [])
    ensures var id, r := q.work[a].id, q.work[a].request;
            var steps := [Resolve(a, Approved, duration, true), RemoveScratch(a, true),
                          LoadGrant(a, id, d, false), Spend(a), Return(a)];
            Feasible(q, steps) <==>
            && (r.execution.Some? ==>
                  var b := r.execution.value;
                  && q.w.now < b.expiresAt && b.identity.workerPid in q.w.startTicks
                  && b.identity.startTicks == Some(q.w.startTicks[b.identity.workerPid]))
            && (r.resumableUntil.Some? ==> r.context.Some?)
  {
    hide DecisionPlan, Matches, Next;
    var id, f := q.work[a].id, DecisionPlan(q.w, q.work[a].request, Approved, duration, true).resolved;
    var first, load := [Resolve(a, Approved, duration, true), RemoveScratch(a, true)], LoadGrant(a, id, d, false);
    var last := [load, Spend(a), Return(a)];
    FreshApprovalMatchesIff(q.w, q.work[a].request, duration, d);
    ResolvedAndCleared(q, a, duration);
    var cleared := Run(q, first);
    assert Enabled(cleared, load) == Matches(q.w, f, d);
    var steps := [Resolve(a, Approved, duration, true), RemoveScratch(a, true), load, Spend(a), Return(a)];
    assert first + last == steps && steps[..3] == first + [load] && (first + [load])[..2] == first;
    if Matches(q.w, f, d) {
      LoadedFinishes(cleared, a, id, d);
      RunConcat(q, first, last);
    } else if Feasible(q, steps) {
      FeasiblePrefix(q, steps, 3);
    }
  }

  /** The decision is in its directory, and the scratch file of the claim is gone. */
  lemma ResolvedAndCleared(q: Queue, a: Actor, duration: Option<Duration>)
    requires q.lock == Some(a) && a in q.work && q.work[a].Claimed? && q.work[a].resolver
    requires var p := DecisionPlan(q.w, q.work[a].request, Approved, duration, true);
             p.Write? && p.resolved.decision.outcome == Approved
    ensures var steps := [Resolve(a, Approved, duration, true), RemoveScratch(a, true)];
            && Feasible(q, steps)
            && var cleared := Run(q, steps);
               && cleared.w == q.w && cleared.lock == q.lock && Idle(cleared, a)
               && cleared.approved
                  == q.approved[q.work[a].id := DecisionPlan(q.w, q.work[a].request, Approved, duration, true).resolved]
               && cleared.scratch == (map n <- q.scratch | n != q.work[a].nonce :: q.scratch[n])
               && cleared.pending == q.pending && cleared.denied == q.denied && cleared.consumed == q.consumed
  {
    hide DecisionPlan, Deciding, Removing;
    WrittenAndCleared(q, a, DecisionPlan(q.w, q.work[a].request, Approved, duration, true).resolved);
    RunTwo(q, Resolve(a, Approved, duration, true), RemoveScratch(a, true));
  }

  lemma {:induction false} FeasiblePrefix(q: Queue, steps: seq<Step>, n: nat)
    requires Feasible(q, steps) && n <= |steps|
    ensures Feasible(q, steps[..n])
  {
    hide Next, Enabled;
    if n == |steps| {
      assert steps[..n] == steps;
    } else {
      FeasiblePrefix(q, steps[..|steps| - 1], n);
      assert steps[..|steps| - 1][..n] == steps[..n];
    }
  }

  lemma WrittenAndCleared(q: Queue, a: Actor, f: Resolved)
    requires a in q.work && q.work[a].Claimed? && f.decision.outcome == Approved
    ensures var written := Deciding(q, a, f);
            && a in written.work && written.work[a].Written?
            && var cleared := Removing(written, a, true);
               && cleared.w == q.w && cleared.lock == q.lock && Idle(cleared, a)
               && cleared.approved == q.approved[q.work[a].id := f]
               && cleared.scratch == (map n <- q.scratch | n != q.work[a].nonce :: q.scratch[n])
               && cleared.pending == q.pending && cleared.denied == q.denied && cleared.consumed == q.consumed
  {
    DecideFields(q, a, f);
    hide Deciding;
  }

  lemma LoadedFinishes(q: Queue, a: Actor, id: Id, d: Demand)
    requires Enabled(q, LoadGrant(a, id, d, false))
    ensures Feasible(q, [LoadGrant(a, id, d, false), Spend(a), Return(a)])
  {
    hide Spending, Matches;
    var load := LoadGrant(a, id, d, false);
    RunOne(q, load);
    FinishRedemption(Next(q, load), a, [Spend(a), Return(a)]);
    RunConcat(q, [load], [Spend(a), Return(a)]);
    assert [load] + [Spend(a), Return(a)] == [load, Spend(a), Return(a)];
  }

  /** One use is off the file, or all of them at once; a file with none left is moved out as it was. */
  ghost predicate Takes(q: Queue, t: Queue, id: Id, all: bool)
    requires id in q.approved && q.approved[id].decision.grant.Some?
  {
    var f, uses := q.approved[id], q.approved[id].decision.grant.value.uses;
    && uses > 0 && Count(t.spent, id) == Count(q.spent, id) + (if all then uses else 1)
    && (if !all && uses > 1
        then && t.consumed == q.consumed && t.approved.Keys == q.approved.Keys
             && (forall i <- q.approved :: i != id ==> t.approved[i] == q.approved[i])
             && t.approved[id] == f.(decision := f.decision.(grant := Some(f.decision.grant.value.(uses := uses - 1))))
        else && t.consumed == q.consumed[id := f]
             && t.approved == (map i <- q.approved | i != id :: q.approved[i]))
  }

  /** What a redemption does to the file it loads. */
  lemma RedemptionTakes(q: Queue, a: Actor, id: Id, d: Demand, all: bool)
    requires Enabled(q, LoadGrant(a, id, d, all))
    ensures q.approved[id].decision.grant.Some? && Feasible(q, [LoadGrant(a, id, d, all), Spend(a)])
    ensures Takes(q, Run(q, [LoadGrant(a, id, d, all), Spend(a)]), id, all)
  {
    hide Matches, Spending, Takes, Decremented;
    MatchHasUses(q.w, q.approved[id], d);
    RunTwo(q, LoadGrant(a, id, d, all), Spend(a));
    LoadedTakes(q, q.(work := q.work[a := Loaded(id, Decremented(q.approved[id], all))]), a, id, all);
  }

  lemma LoadedTakes(q: Queue, n: Queue, a: Actor, id: Id, all: bool)
    requires id in q.approved && q.approved[id].decision.grant.Some? && q.approved[id].decision.grant.value.uses > 0
    requires n.approved == q.approved && n.consumed == q.consumed && n.spent == q.spent
    requires a in n.work && n.work[a] == Loaded(id, Decremented(q.approved[id], all))
    ensures Takes(q, Spending(n, a), id, all)
  {
    hide Spending;
    SpendFields(n, a);
    SpentTakes(q, n, Spending(n, a), a, id, all);
  }

  lemma SpentTakes(q: Queue, n: Queue, t: Queue, a: Actor, id: Id, all: bool)
    requires id in q.approved && q.approved[id].decision.grant.Some? && q.approved[id].decision.grant.value.uses > 0
    requires n.approved == q.approved && n.consumed == q.consumed && n.spent == q.spent
    requires a in n.work && n.work[a] == Loaded(id, Decremented(q.approved[id], all)) && Spends(n, t, a)
    ensures Takes(q, t, id, all)
  {
  }

  lemma MatchHasUses(w: Approvals.World, f: Resolved, d: Demand)
    requires Matches(w, f, d)
    ensures f.decision.grant.Some? && f.decision.grant.value.uses > 0
  {
  }

  /** When the holder of the lock dies the lock is free and no file has changed. */
  lemma DeathFreesLock(q: Queue, a: Actor)
    requires q.lock == Some(a)
    ensures Feasible(q, [Die(a)])
    ensures var t := Run(q, [Die(a)]);
            && t.lock == None && Idle(t, a)
            && t.pending == q.pending && t.scratch == q.scratch
            && t.approved == q.approved && t.denied == q.denied && t.consumed == q.consumed
  {
    RunOne(q, Die(a));
  }
}
