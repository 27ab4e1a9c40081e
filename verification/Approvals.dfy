/**
 Approval records: what a request may authorise, what a decision mints, and when a stored
 grant is live for a redeemer. Time, process start times, the revocation generations and
 the revoked executions are one World value; the capability catalog is part of it.
 */
module Approvals {
  import opened Wrappers

  type Id = nat
  type Owner = Option<nat>

  const SESSION_GRANT_SECS: nat := 8 * 60 * 60
  const FOREVER_GRANT_SECS: nat := 30 * 24 * 60 * 60
  const REPEATABLE_GRANT_USES: nat := 512
  const POLICY_PREFIX: string := "app-permission:"
  const U32_MAX: nat := 0xffff_ffff

  // ---- records -------------------------------------------------------------------------

  datatype Risk = Low | Medium | High | Critical

  datatype Context = Attended | Unattended

  datatype Duration = Once | Session | Forever

  datatype Outcome = Approved | Denied

  datatype Cap = Cap(verb: string, scope: string)

  datatype Identity = Identity(taskId: string, workerPid: nat, startTicks: Option<nat>, leaseNonce: string)

  datatype ExecutionBinding = ExecutionBinding(identity: Identity, expiresAt: nat, generation: nat)

  datatype Request = Request(
    id: Id, verb: string, scope: string, session: string, owner: Owner, risk: Option<Risk>,
    context: Option<Context>, execution: Option<ExecutionBinding>,
    resumableUntil: Option<nat>, digest: Option<string>)

  datatype Authorization = Authorization(
    owner: Owner, session: string, capability: Cap, risk: Risk, context: Option<Context>,
    execution: Option<ExecutionBinding>, resumeRequest: Option<Id>,
    resumableUntil: Option<nat>, digest: Option<string>)

  datatype Grant = Grant(expiresAt: nat, uses: nat, generation: Option<nat>, authorization: Option<Authorization>)

  datatype Decision = Decision(outcome: Outcome, duration: Option<Duration>, grant: Option<Grant>, restoration: bool)

  datatype Resolved = Resolved(request: Request, decision: Decision)

  // ---- the world --------------------------------------------------------------------------

  /** Revocation generations: one counter an owner, one a session. */
  datatype Generations = Generations(owners: map<Owner, nat>, sessions: map<(Owner, string), nat>)

  datatype World = World(
    now: nat,
    generations: Generations,
    readable: bool,
    revoked: set<Identity>,
    startTicks: map<nat, nat>,
    catalog: map<string, Risk>,
    canonical: Cap -> Option<string>)

  function OwnerGeneration(g: Generations, owner: Owner): nat {
    if owner in g.owners then g.owners[owner] else 0
  }

  function SessionGeneration(g: Generations, owner: Owner, session: string): nat {
    if (owner, session) in g.sessions then g.sessions[(owner, session)] else 0
  }

  function Max(a: nat, b: nat): nat {
    if a < b then b else a
  }

  function Current(g: Generations, owner: Owner, session: string): nat {
    Max(OwnerGeneration(g, owner), SessionGeneration(g, owner, session))
  }

  /** Unreadable revocation state yields no generation, and so no authority. */
  function CurrentGeneration(w: World, owner: Owner, session: string): Option<nat> {
    if w.readable then Some(Current(w.generations, owner, session)) else None
  }

  function StartOf(w: World, pid: nat): Option<nat> {
    if pid in w.startTicks then Some(w.startTicks[pid]) else None
  }

  predicate IsPolicySession(session: string) {
    POLICY_PREFIX <= session
  }

  // ---- capabilities ------------------------------------------------------------------------

  /** The catalogued, canonically scoped capability and its risk. */
  function CanonicalCapability(w: World, cap: Cap): Option<(Cap, Risk)> {
    if cap.verb !in w.catalog then None
    else
      match w.canonical(cap)
      case None => None
      case Some(scope) => Some((Cap(cap.verb, scope), w.catalog[cap.verb]))
  }

  // ---- execution bindings ----------------------------------------------------------------------

  predicate WellFormedIdentity(i: Identity) {
    i.taskId != "" && |i.taskId| <= 128 && 16 <= |i.leaseNonce| <= 128
  }

  predicate LiveFor(w: World, b: ExecutionBinding, expected: Identity, owner: Owner, session: string) {
    && WellFormedIdentity(b.identity)
    && b.identity == expected
    && w.now < b.expiresAt
    && b.identity !in w.revoked
    && b.identity.startTicks.Some?
    && StartOf(w, b.identity.workerPid) == b.identity.startTicks
    && CurrentGeneration(w, owner, session) == Some(b.generation)
  }

  predicate CanWaitForResume(w: World, b: ExecutionBinding, owner: Owner, session: string, until: nat) {
    && WellFormedIdentity(b.identity)
    && w.now < until
    && b.identity !in w.revoked
    && CurrentGeneration(w, owner, session) == Some(b.generation)
  }

  predicate ResumableFor(w: World, b: ExecutionBinding, expected: Identity, owner: Owner, session: string, until: nat) {
    && b.identity.taskId == expected.taskId
    && expected.workerPid != 0
    && expected.startTicks.Some?
    && 16 <= |expected.leaseNonce| <= 128
    && StartOf(w, expected.workerPid) == expected.startTicks
    && CanWaitForResume(w, b, owner, session, until)
  }

  // ---- deciding ----------------------------------------------------------------------------------

  predicate ValidDigest(d: Option<string>) {
    d.Some? ==> |d.value| == 64 && forall i :: 0 <= i < 64 ==> '0' <= d.value[i] <= '9' || 'a' <= d.value[i] <= 'f'
  }

  /** The exact authority a request would redeem; None is any of the refusals. */
  function AuthorizationFor(w: World, r: Request): Option<Authorization> {
    match CanonicalCapability(w, Cap(r.verb, r.scope))
    case None => None
    case Some((cap, risk)) =>
      if cap.scope != r.scope then None
      else if r.risk.Some? && r.risk.value != risk then None
      else if !ContextLive(w, r) then None
      else if !ValidDigest(r.digest) then None
      else
        var resume := if r.context.Some? && r.resumableUntil.Some? then Some(r.id) else None;
        Some(Authorization(r.owner, r.session, cap, risk, r.context, r.execution, resume, r.resumableUntil, r.digest))
  }

  /** Agent requests need a live or waiting execution; others must carry none. */
  predicate ContextLive(w: World, r: Request) {
    match (r.context, r.execution)
    case (Some(_), Some(b)) =>
      || LiveFor(w, b, b.identity, r.owner, r.session)
      || (r.resumableUntil.Some? && CanWaitForResume(w, b, r.owner, r.session, r.resumableUntil.value))
    case (None, None) => true
    case _ => false
  }

  /** Attended agents may not be given critical authority more than once, nor high authority forever. */
  predicate DurationAllowed(context: Option<Context>, risk: Risk, duration: Duration) {
    context == Some(Attended) ==>
      && (risk == Critical ==> duration == Once)
      && (risk == High ==> duration != Forever)
  }

  function Lifetime(d: Duration): nat {
    if d == Forever then FOREVER_GRANT_SECS else SESSION_GRANT_SECS
  }

  function Uses(d: Duration): nat {
    if d == Once then 1 else REPEATABLE_GRANT_USES
  }

  function ChosenDuration(d: Option<Duration>): Duration {
    if d.Some? then d.value else Once
  }

  function Mint(duration: Duration, now: nat, generation: nat, a: Authorization): Grant {
    Grant(now + Lifetime(duration), Uses(duration), Some(generation), Some(a))
  }

  /** What a resolver does with a request it has claimed. */
  datatype Plan = PutBack | Write(resolved: Resolved)

  function Invalidate(r: Request): Plan {
    Write(Resolved(r, Decision(Denied, None, None, false)))
  }

  function DecisionPlan(w: World, r: Request, outcome: Outcome, duration: Option<Duration>, policyCurrent: bool): Plan {
    if outcome == Denied then Write(Resolved(r, Decision(Denied, duration, None, false)))
    else if IsPolicySession(r.session) && duration != Some(Forever) then PutBack
    else if IsPolicySession(r.session) && !policyCurrent then Invalidate(r)
    else
      match AuthorizationFor(w, r)
      case None => Invalidate(r)
      case Some(a) =>
        if duration.Some? && !DurationAllowed(a.context, a.risk, duration.value) then PutBack
        else
          var current := CurrentGeneration(w, r.owner, r.session);
          if current.None? || (a.execution.Some? && a.execution.value.generation != current.value) then Invalidate(r)
          else
            var grant := if IsPolicySession(r.session) then None
                         else Some(Mint(ChosenDuration(duration), w.now, current.value, a));
            Write(Resolved(r.(risk := Some(a.risk)),
                           Decision(Approved, duration, grant, IsPolicySession(r.session))))
  }

  // ---- redeeming ---------------------------------------------------------------------------------

  /** What a redeemer asks for. */
  datatype Demand = Demand(
    owner: Owner, session: string, capability: Cap, risk: Risk, context: Option<Context>,
    digest: Option<string>, execution: Option<Identity>, resumed: seq<Id>)

  predicate ExecutionLive(w: World, a: Authorization, d: Demand) {
    match (a.execution, d.execution)
    case (Some(b), Some(expected)) =>
      || LiveFor(w, b, expected, a.owner, a.session)
      || (&& a.resumeRequest.Some? && a.resumableUntil.Some? && a.resumeRequest.value in d.resumed
          && ResumableFor(w, b, expected, a.owner, a.session, a.resumableUntil.value))
    case (None, None) => true
    case _ => false
  }

  predicate GrantLive(w: World, g: Grant, d: Demand) {
    && g.uses != 0
    && w.now < g.expiresAt
    && !IsPolicySession(d.session)
    && g.authorization.Some?
    && var a := g.authorization.value;
       && a.owner == d.owner && a.session == d.session && a.capability == d.capability
       && a.risk == d.risk && a.context == d.context && a.digest == d.digest
       && ExecutionLive(w, a, d)
       && g.generation.Some?
       && CurrentGeneration(w, a.owner, a.session) == Some(g.generation.value)
  }

  /** An approved file that satisfies the demand exactly; scope containment plays no part. */
  predicate Matches(w: World, f: Resolved, d: Demand) {
    && !f.decision.restoration
    && f.request.session == d.session
    && f.request.owner == d.owner
    && f.request.verb == d.capability.verb && f.request.verb in w.catalog
    && f.decision.outcome == Approved
    && f.request.scope == d.capability.scope
    && f.request.context == d.context
    && f.request.risk == Some(d.risk)
    && f.request.digest == d.digest
    && f.decision.grant.Some?
    && f.decision.grant.value.authorization.Some?
    && var a := f.decision.grant.value.authorization.value;
       && a.execution == f.request.execution
       && a.resumeRequest == (if f.request.resumableUntil.Some? then Some(f.request.id) else None)
       && a.resumableUntil == f.request.resumableUntil
       && a.digest == f.request.digest
       && GrantLive(w, f.decision.grant.value, d)
  }

  /** A file answers for one capability only. */
  lemma MatchesOneCapability(w: World, f: Resolved, d: Demand, e: Demand)
    requires Matches(w, f, d) && Matches(w, f, e)
    ensures d.capability == e.capability && d.risk == e.risk && d.owner == e.owner && d.session == e.session
  {
  }

  /** The budget written into a fresh grant is spent by redemptions only. */
  function Budget(f: Resolved): nat {
    Uses(ChosenDuration(f.decision.duration))
  }

  predicate AttendedCritical(r: Request) {
    r.context == Some(Attended) && r.risk == Some(Critical)
  }

  /** Whatever a resolver writes as approved is bounded: a full budget, a deadline, the current
      generation, the exact request; and an attended critical one is good for a single use. */
  lemma ApprovalIsBounded(w: World, r: Request, duration: Option<Duration>, policyCurrent: bool)
    ensures var p := DecisionPlan(w, r, Approved, duration, policyCurrent);
            p.Write? && p.resolved.decision.outcome == Approved ==>
              var f := p.resolved;
              && f.request.id == r.id && f.request == r.(risk := f.request.risk)
              && f.decision.restoration == IsPolicySession(r.session) == f.decision.grant.None?
              && (f.decision.grant.Some? ==>
                    var g := f.decision.grant.value;
                    && g.uses == Budget(f) >= 1
                    && g.expiresAt <= w.now + FOREVER_GRANT_SECS
                    && g.generation == CurrentGeneration(w, r.owner, r.session)
                    && g.authorization == AuthorizationFor(w, r))
              && (AttendedCritical(f.request) ==> Budget(f) == 1)
  {
  }

  /** Just after it is written, an approval satisfies the very demand it was requested for exactly
      while the worker that asked has lease left and is still the process it was, unless the request
      names a resumption deadline without being an agent's. */
  lemma FreshApprovalMatchesIff(w: World, r: Request, duration: Option<Duration>, d: Demand)
    requires !IsPolicySession(r.session)
    requires var p := DecisionPlan(w, r, Approved, duration, true); p.Write? && p.resolved.decision.outcome == Approved
    requires d == Demand(r.owner, r.session, Cap(r.verb, r.scope), w.catalog[r.verb], r.context, r.digest,
                         if r.execution.Some? then Some(r.execution.value.identity) else None, [])
    ensures Matches(w, DecisionPlan(w, r, Approved, duration, true).resolved, d) <==>
            && (r.execution.Some? ==>
                  var b := r.execution.value;
                  && w.now < b.expiresAt && b.identity.workerPid in w.startTicks
                  && b.identity.startTicks == Some(w.startTicks[b.identity.workerPid]))
            && (r.resumableUntil.Some? ==> r.context.Some?)
  {
  }

  /** The demand asks for exactly what was requested. */
  predicate AsksFor(d: Demand, r: Request) {
    && d.owner == r.owner && d.session == r.session && d.capability == Cap(r.verb, r.scope)
    && r.risk == Some(d.risk) && d.context == r.context && d.digest == r.digest
  }

  /** A live worker other than the one that asked, taking over the same task. */
  predicate ReplacementWorker(w: World, original: Identity, e: Identity) {
    && e.taskId == original.taskId
    && e.workerPid != 0 && e.startTicks.Some? && StartOf(w, e.workerPid) == e.startTicks
    && 16 <= |e.leaseNonce| <= 128
  }

  /** Another worker may redeem an agent's approval exactly when it is a live replacement in the same
      task that names the request, before both deadlines, with the first worker unrevoked and the
      generation as it was when the request was filed. */
  lemma ReplacementMatchesIff(w0: World, w: World, r: Request, duration: Option<Duration>, d: Demand)
    requires !IsPolicySession(r.session) && r.execution.Some?
    requires var p := DecisionPlan(w0, r, Approved, duration, true); p.Write? && p.resolved.decision.outcome == Approved
    requires d.execution.Some? && d.execution.value != r.execution.value.identity
    ensures var f := DecisionPlan(w0, r, Approved, duration, true).resolved;
            var b := r.execution.value;
            Matches(w, f, d) <==>
            && AsksFor(d, f.request) && r.verb in w.catalog
            && r.resumableUntil.Some? && r.id in d.resumed
            && ReplacementWorker(w, b.identity, d.execution.value)
            && w.now < r.resumableUntil.value && w.now < w0.now + Lifetime(ChosenDuration(duration))
            && b.identity !in w.revoked
            && CurrentGeneration(w, r.owner, r.session) == Some(b.generation)
  {
  }

  /** A matching agent grant is bound to an execution that has not been revoked. */
  lemma MatchNeedsUnrevokedExecution(w: World, f: Resolved, d: Demand)
    requires Matches(w, f, d)
    ensures f.request.execution.Some? ==> f.request.execution.value.identity !in w.revoked
    ensures f.request.execution.Some? <==> d.execution.Some?
  {
  }

  // ---- revocation generations -----------------------------------------------------------------------

  /** None when the counter would leave 32 bits. */
  function RevokeSession(g: Generations, owner: Owner, session: string): Option<Generations> {
    var raised := Max(SessionGeneration(g, owner, session), OwnerGeneration(g, owner)) + 1;
    if raised > U32_MAX then None else Some(g.(sessions := g.sessions[(owner, session) := raised]))
  }

  /** Least value no session counter of the owner exceeds. */
  ghost predicate CoversSessions(g: Generations, owner: Owner, floor: nat) {
    forall k <- g.sessions :: k.0 == owner ==> g.sessions[k] <= floor
  }

  function RevokeOwner(g: Generations, owner: Owner, sessionFloor: nat): Option<Generations> {
    var raised := Max(OwnerGeneration(g, owner), sessionFloor) + 1;
    if raised > U32_MAX then None
    else Some(Generations(g.owners[owner := raised], map k <- g.sessions | k.0 != owner :: g.sessions[k]))
  }

  /** The largest counter of a set of keys, found by walking them. */
  method SessionFloor(g: Generations, owner: Owner) returns (floor: nat)
    ensures CoversSessions(g, owner, floor)
    ensures floor == 0 || exists k <- g.sessions :: k.0 == owner && g.sessions[k] == floor
  {
    floor := 0;
    var keys := g.sessions.Keys;
    while keys != {}
      invariant keys <= g.sessions.Keys
      invariant floor == 0 || exists k <- g.sessions :: k.0 == owner && g.sessions[k] == floor
      invariant forall k :: k in g.sessions && k !in keys && k.0 == owner ==> g.sessions[k] <= floor
      decreases keys
    {
      var k :| k in keys;
      keys := keys - {k};
      if k.0 == owner && g.sessions[k] > floor {
        floor := g.sessions[k];
      }
    }
  }

  /** No counter ever reads lower. */
  ghost predicate GenerationsAdvance(g: Generations, h: Generations) {
    forall owner, session :: Current(g, owner, session) <= Current(h, owner, session)
  }

  /** A session's counter can be raised unless it or the owner's is at the 32-bit limit, and raising it
      supersedes that session alone. */
  lemma SessionRevocationAdvances(g: Generations, owner: Owner, session: string)
    ensures RevokeSession(g, owner, session).None? <==> Current(g, owner, session) >= 4_294_967_295
    ensures RevokeSession(g, owner, session).Some? ==>
              var h := RevokeSession(g, owner, session).value;
              && GenerationsAdvance(g, h)
              && Current(g, owner, session) < Current(h, owner, session) <= 4_294_967_295
              && forall o, s :: (o, s) != (owner, session) ==> Current(h, o, s) == Current(g, o, s)
  {
  }

  /** Revoking an owner retires every session of that owner and touches no one else's, although the
      session counters themselves are dropped; it is refused only when one of the owner's counters is
      at the 32-bit limit. */
  lemma OwnerRevocationAdvances(g: Generations, owner: Owner, floor: nat)
    requires CoversSessions(g, owner, floor)
    requires floor == 0 || exists k <- g.sessions :: k.0 == owner && g.sessions[k] == floor
    ensures RevokeOwner(g, owner, floor).None? <==> exists s :: Current(g, owner, s) >= 4_294_967_295
    ensures RevokeOwner(g, owner, floor).Some? ==>
              var h := RevokeOwner(g, owner, floor).value;
              && GenerationsAdvance(g, h)
              && (forall s :: Current(g, owner, s) < Current(h, owner, s) <= 4_294_967_295)
              && (forall o, s :: o != owner ==> Current(h, o, s) == Current(g, o, s))
  {
    forall s
      ensures Current(g, owner, s) <= Max(OwnerGeneration(g, owner), floor)
    {
      assert (owner, s).0 == owner;
    }
    if RevokeOwner(g, owner, floor).None? {
      if floor >= 4_294_967_295 {
        var k :| k in g.sessions && k.0 == owner && g.sessions[k] == floor;
        assert k == (owner, k.1);
        assert Current(g, owner, k.1) >= 4_294_967_295;
      } else {
        assert Current(g, owner, "") >= 4_294_967_295;
      }
    } else {
      OwnerRaised(g, owner, floor);
    }
  }

  lemma OwnerRaised(g: Generations, owner: Owner, floor: nat)
    requires CoversSessions(g, owner, floor) && RevokeOwner(g, owner, floor).Some?
    ensures var h := RevokeOwner(g, owner, floor).value;
            && GenerationsAdvance(g, h)
            && (forall s :: Current(g, owner, s) < Current(h, owner, s) <= U32_MAX)
            && (forall o, s :: o != owner ==> Current(h, o, s) == Current(g, o, s))
  {
    var h := RevokeOwner(g, owner, floor).value;
    forall o, s
      ensures Current(g, o, s) <= Current(h, o, s)
      ensures o == owner ==> Current(g, o, s) < Current(h, o, s) <= U32_MAX
      ensures o != owner ==> Current(h, o, s) == Current(g, o, s)
    {
      assert (o, s).0 == o;
    }
  }
}
