/**
 The end of an invocation over the approval queue: the two flags, the marker that revokes the
 identity, and the sweep its writer then makes under the store lock, interleaved with every
 process of the queue.
 */
module EndedInvocation {
  import opened Wrappers
  import opened Approvals
  import Drop = InvocationDrop
  import Queue = ApprovalQueue

  /** Two histories: how many grants had been handed out when the marker was written, and when the
      destructor held the lock for its sweep. */
  datatype System = System(
    flags: Drop.Invocation, queue: Queue.Queue, marked: Option<nat>, swept: Option<nat>)

  datatype Step =
    | Flag(flag: Drop.Step)
    | Process(work: Queue.Step)
    | Sweep(actor: Queue.Actor)

  function Fresh(w: World): System {
    System(Drop.FRESH, Queue.Start(w), None, None)
  }

  /** The destructor and a late request both end in a call that first writes the marker. */
  predicate WritesMarker(s: Drop.Step) {
    s.Revoke? || s.Retire?
  }

  function Marked(w: World, identity: Identity): World {
    w.(revoked := w.revoked + {identity})
  }

  ghost predicate Enabled(m: System, s: Step) {
    match s
    case Flag(f) => Drop.Enabled(m.flags, f)
    case Process(p) => Queue.Enabled(m.queue, p)
    case Sweep(a) => m.flags.revoked && Queue.Enabled(m.queue, Queue.TakeLock(a))
  }

  ghost function Next(m: System, s: Step, identity: Identity): System
    requires Enabled(m, s)
  {
    match s
    case Flag(f) =>
      if WritesMarker(f) then
        System(Drop.Next(m.flags, f), Queue.Next(m.queue, Queue.Tick(Marked(m.queue.w, identity))),
               if m.marked.None? then Some(|m.queue.ledger|) else m.marked, m.swept)
      else
        m.(flags := Drop.Next(m.flags, f))
    case Process(p) => m.(queue := Queue.Next(m.queue, p))
    case Sweep(a) =>
      m.(queue := Queue.Next(m.queue, Queue.TakeLock(a)),
         swept := if m.swept.None? then Some(|m.queue.ledger|) else m.swept)
  }

  ghost predicate Feasible(m: System, steps: seq<Step>, identity: Identity)
    decreases |steps|, 0
  {
    |steps| == 0
    || (Feasible(m, steps[..|steps| - 1], identity)
        && Enabled(Run(m, steps[..|steps| - 1], identity), steps[|steps| - 1]))
  }

  ghost function Run(m: System, steps: seq<Step>, identity: Identity): System
    requires Feasible(m, steps, identity)
    decreases |steps|, 1
  {
    if |steps| == 0 then m else Next(Run(m, steps[..|steps| - 1], identity), steps[|steps| - 1], identity)
  }

  predicate BoundTo(f: Resolved, identity: Identity) {
    f.request.execution.Some? && f.request.execution.value.identity == identity
  }

  predicate Carries(k: Queue.Work, identity: Identity) {
    Queue.Carrying(k) && BoundTo(Queue.GrantOf(k), identity)
  }

  ghost predicate NoneCarried(q: Queue.Queue, identity: Identity) {
    forall a <- q.work :: !Carries(q.work[a], identity)
  }

  /** No grant of the identity among those handed out from the n-th on. */
  ghost predicate NoneSince(ledger: seq<Resolved>, n: nat, identity: Identity) {
    forall i :: n <= i < |ledger| ==> !BoundTo(ledger[i], identity)
  }

  ghost predicate AtMostOneSince(ledger: seq<Resolved>, n: nat, identity: Identity) {
    forall i, j ::
      && n <= i < |ledger| && BoundTo(ledger[i], identity)
      && n <= j < |ledger| && BoundTo(ledger[j], identity)
      ==> i == j
  }

  ghost predicate Inv(m: System, identity: Identity) {
    && Queue.LockHeld(m.queue) && Drop.Sound(m.flags)
    && (m.flags.revoked ==> m.marked.Some?)
    && (m.marked.Some? ==>
          && identity in m.queue.w.revoked && m.marked.value <= |m.queue.ledger|
          && AtMostOneSince(m.queue.ledger, m.marked.value, identity)
          && (NoneSince(m.queue.ledger, m.marked.value, identity) || NoneCarried(m.queue, identity)))
    && (m.swept.Some? ==>
          && m.marked.Some? && m.swept.value <= |m.queue.ledger|
          && NoneSince(m.queue.ledger, m.swept.value, identity) && NoneCarried(m.queue, identity))
  }

  /** A world in which nothing but the identity is dead. */
  function OnlyRevoked(w: World, identity: Identity): World {
    w.(now := 0, revoked := {identity}, generations := Generations(map[], map[]))
  }

  lemma DeadIsBound(w: World, f: Resolved, identity: Identity)
    ensures Queue.Dead(OnlyRevoked(w, identity), f) <==> BoundTo(f, identity)
  {
  }

  /** Once the marker is written a process carries a grant of the identity only if it already did. */
  lemma ProcessCarries(q: Queue.Queue, p: Queue.Step, identity: Identity, a: Queue.Actor)
    requires identity in q.w.revoked && Queue.Enabled(q, p)
    requires a in Queue.Next(q, p).work && Carries(Queue.Next(q, p).work[a], identity)
    ensures a in q.work && Carries(q.work[a], identity)
    ensures Queue.GrantOf(Queue.Next(q, p).work[a]) == Queue.GrantOf(q.work[a])
  {
    hide Queue.Next, Queue.Enabled;
    var w := OnlyRevoked(q.w, identity);
    DeadIsBound(q.w, Queue.GrantOf(Queue.Next(q, p).work[a]), identity);
    assert Queue.Carries(w, Queue.Next(q, p).work[a]) && Queue.Advances(w, q.w);
    Queue.StepCarries(w, q, p, a);
    assert Queue.PiecesOf(q.work[a]) == [];
    DeadIsBound(q.w, Queue.GrantOf(q.work[a]), identity);
  }

  lemma ProcessKeepsInv(m: System, p: Queue.Step, identity: Identity)
    requires Inv(m, identity) && Queue.Enabled(m.queue, p)
    ensures Inv(m.(queue := Queue.Next(m.queue, p)), identity)
  {
    hide Queue.Next, Queue.Enabled;
    var q := Queue.Next(m.queue, p);
    Queue.StepLockHeld(m.queue, p);
    Queue.StepLedger(m.queue, p);
    if m.marked.Some? {
      forall a <- q.work | Carries(q.work[a], identity)
        ensures a in m.queue.work && Carries(m.queue.work[a], identity)
      {
        ProcessCarries(m.queue, p, identity, a);
      }
      if p.Return? {
        ReturnLeavesNone(m.queue, p.actor, identity);
      } else if p.SetStep? {
        Queue.FinishedSetAlive(m.queue.w, m.queue, p);
      }
    }
  }

  /** The lock holder is the only carrier, so once it has handed its grant out nobody carries one. */
  lemma ReturnLeavesNone(q: Queue.Queue, a: Queue.Actor, identity: Identity)
    requires Queue.LockHeld(q) && Queue.Enabled(q, Queue.Return(a))
    ensures NoneCarried(Queue.Next(q, Queue.Return(a)), identity)
    ensures a in q.work && (Carries(q.work[a], identity) || !BoundTo(Queue.GrantOf(q.work[a]), identity))
  {
    forall b <- Queue.Next(q, Queue.Return(a)).work
      ensures !Carries(Queue.Next(q, Queue.Return(a)).work[b], identity)
    {
      assert Queue.HolderWork(q, b);
    }
  }

  lemma FlagKeepsInv(m: System, f: Drop.Step, identity: Identity)
    requires Inv(m, identity) && Drop.Enabled(m.flags, f)
    ensures Inv(Next(m, Flag(f), identity), identity)
  {
    hide Drop.Sound;
    Drop.StepSound(m.flags, f);
    if WritesMarker(f) {
      Queue.StepLockHeld(m.queue, Queue.Tick(Marked(m.queue.w, identity)));
    }
  }

  lemma SweepKeepsInv(m: System, a: Queue.Actor, identity: Identity)
    requires Inv(m, identity) && Enabled(m, Sweep(a))
    ensures Inv(Next(m, Sweep(a), identity), identity)
  {
    hide Drop.Sound;
    var q := Queue.Next(m.queue, Queue.TakeLock(a));
    Queue.StepLockHeld(m.queue, Queue.TakeLock(a));
    forall b <- q.work
      ensures !Carries(q.work[b], identity)
    {
      assert Queue.HolderWork(m.queue, b);
    }
  }

  lemma {:induction false} RunKeepsInv(w: World, steps: seq<Step>, identity: Identity)
    requires Feasible(Fresh(w), steps, identity)
    ensures Inv(Run(Fresh(w), steps, identity), identity)
    decreases |steps|
  {
    if |steps| == 0 {
      assert Drop.Sound(Drop.FRESH);
    } else {
      hide Inv, Queue.Next, Queue.Enabled, Drop.Next, Drop.Enabled;
      var init := steps[..|steps| - 1];
      var m := Run(Fresh(w), init, identity);
      RunKeepsInv(w, init, identity);
      match steps[|steps| - 1]
      case Flag(f) => FlagKeepsInv(m, f, identity);
      case Process(p) => ProcessKeepsInv(m, p, identity);
      case Sweep(a) => SweepKeepsInv(m, a, identity);
    }
  }

  /** Whatever the interleaving, and whatever old files are put back: when the destructor is done an
      identity that was ever handed out is revoked; from the marker on at most one grant bound to it
      is still handed out; and none once the marker's writer has held the lock. */
  lemma EndedInvocationStaysDead(w: World, steps: seq<Step>, identity: Identity, k: Drop.Asker)
    requires Feasible(Fresh(w), steps, identity)
    ensures var m := Run(Fresh(w), steps, identity);
            && (m.flags.drop == Drop.Finished && Drop.At(m.flags, k, Drop.HandedOut) ==>
                  m.marked.Some? && identity in m.queue.w.revoked)
            && (m.marked.Some? ==> AtMostOneSince(m.queue.ledger, m.marked.value, identity))
            && (m.swept.Some? ==> NoneSince(m.queue.ledger, m.swept.value, identity))
  {
    RunKeepsInv(w, steps, identity);
  }
}
