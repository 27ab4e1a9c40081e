/**
 The rules a decision and a redemption follow, written out over the fields of a request, a file and
 the world, for every way the deciding and matching functions can go.
 */
module ApprovalRules {
  import opened Wrappers
  import opened Approvals

  const EIGHT_HOURS: nat := 28_800
  const THIRTY_DAYS: nat := 2_592_000

  // ---- what may be approved --------------------------------------------------------------------

  /** The larger of the owner's and the session's counter; nothing when they cannot be read. */
  ghost predicate GenerationIs(w: World, owner: Owner, session: string, n: nat) {
    var o := if owner in w.generations.owners then w.generations.owners[owner] else 0;
    var s := if (owner, session) in w.generations.sessions then w.generations.sessions[(owner, session)] else 0;
    w.readable && o <= n && s <= n && (n == o || n == s)
  }

  lemma GenerationRule(w: World, owner: Owner, session: string, n: nat)
    ensures CurrentGeneration(w, owner, session) == Some(n) <==> GenerationIs(w, owner, session, n)
  {
  }

  /** The worker that asked is unrevoked, of well-formed identity, and of the generation the request
      was filed under. */
  ghost predicate Standing(w: World, r: Request, b: ExecutionBinding) {
    && 1 <= |b.identity.taskId| <= 128 && 16 <= |b.identity.leaseNonce| <= 128
    && b.identity !in w.revoked
    && GenerationIs(w, r.owner, r.session, b.generation)
  }

  /** It still runs: its lease has time left, and its process is the one that started at its tick. */
  ghost predicate Running(w: World, b: ExecutionBinding) {
    && w.now < b.expiresAt
    && b.identity.startTicks.Some? && b.identity.workerPid in w.startTicks
    && w.startTicks[b.identity.workerPid] == b.identity.startTicks.value
  }

  ghost predicate AgentStands(w: World, r: Request) {
    r.context.Some? && r.execution.Some?
    && Standing(w, r, r.execution.value)
    && (Running(w, r.execution.value) || (r.resumableUntil.Some? && w.now < r.resumableUntil.value))
  }

  ghost predicate LowerHex64(s: string) {
    |s| == 64 && forall c <- s :: c in "0123456789abcdef"
  }

  /** A request that still stands: its scope is canonical and its risk as catalogued, its digest is
      well formed, and it is no agent's or an agent's that runs or waits to be resumed. */
  ghost predicate Stands(w: World, r: Request) {
    && r.verb in w.catalog && w.canonical(Cap(r.verb, r.scope)) == Some(r.scope)
    && (r.risk.Some? ==> r.risk.value == w.catalog[r.verb])
    && (r.digest.Some? ==> LowerHex64(r.digest.value))
    && ((r.context.None? && r.execution.None?) || AgentStands(w, r))
  }

  lemma DigestRule(d: Option<string>)
    ensures ValidDigest(d) <==> (d.Some? ==> LowerHex64(d.value))
  {
    if d.Some? && |d.value| == 64 {
      forall i | 0 <= i < 64
        ensures ('0' <= d.value[i] <= '9' || 'a' <= d.value[i] <= 'f') <==> d.value[i] in "0123456789abcdef"
      {
        HexLetter(d.value[i]);
      }
    }
  }

  lemma HexLetter(c: char)
    ensures ('0' <= c <= '9' || 'a' <= c <= 'f') <==> c in "0123456789abcdef"
  {
  }

  lemma ContextRule(w: World, r: Request)
    ensures ContextLive(w, r) <==> (r.context.None? && r.execution.None?) || AgentStands(w, r)
  {
    if r.execution.Some? {
      GenerationRule(w, r.owner, r.session, r.execution.value.generation);
    }
  }

  /** What is authorised is the request itself, field by field, and only while it stands. */
  lemma AuthorizationRule(w: World, r: Request)
    ensures AuthorizationFor(w, r).Some? <==> Stands(w, r)
    ensures AuthorizationFor(w, r).Some? ==>
              var a := AuthorizationFor(w, r).value;
              && a.owner == r.owner && a.session == r.session && a.capability == Cap(r.verb, r.scope)
              && a.risk == w.catalog[r.verb] && a.context == r.context && a.execution == r.execution
              && a.digest == r.digest && a.resumableUntil == r.resumableUntil
              && (a.resumeRequest == Some(r.id) || a.resumeRequest == None)
              && (a.resumeRequest.Some? <==> r.context.Some? && r.resumableUntil.Some?)
  {
    hide ContextLive, ValidDigest;
    ContextRule(w, r);
    DigestRule(r.digest);
  }

  // ---- deciding -----------------------------------------------------------------------------------

  /** Restoring an application's policy is for good only; an attended agent is not given critical
      authority for longer than once, nor high authority for good. */
  ghost predicate TooLong(w: World, r: Request, duration: Option<Duration>)
    requires r.verb in w.catalog
  {
    && r.context == Some(Attended)
    && (|| (w.catalog[r.verb], duration) == (Critical, Some(Session))
        || (w.catalog[r.verb], duration) == (Critical, Some(Forever))
        || (w.catalog[r.verb], duration) == (High, Some(Forever)))
  }

  /** The sessions that restore an application's policy. */
  ghost predicate Restores(r: Request) {
    |r.session| >= 15 && r.session[..15] == "app-permission:"
  }

  /** An approval leaves the request pending exactly when the duration is not one it can have: on a
      policy session any but forever, otherwise too long a one for a request that stands. */
  lemma PutBackIff(w: World, r: Request, duration: Option<Duration>, policyCurrent: bool)
    ensures DecisionPlan(w, r, Approved, duration, policyCurrent).PutBack? <==>
            || (Restores(r) && duration != Some(Forever))
            || ((Restores(r) ==> policyCurrent) && Stands(w, r) && TooLong(w, r, duration))
  {
    hide AuthorizationFor, CurrentGeneration;
    AuthorizationRule(w, r);
  }

  /** It is written as approved exactly when the request stands, the duration is not too long, the
      revocation state can be read, and a policy session's policy is current and restored for good. */
  lemma ApprovedIff(w: World, r: Request, duration: Option<Duration>, policyCurrent: bool)
    ensures var p := DecisionPlan(w, r, Approved, duration, policyCurrent);
            p.Write? && p.resolved.decision.outcome == Approved <==>
            && Stands(w, r) && !TooLong(w, r, duration) && w.readable
            && (Restores(r) ==> policyCurrent && duration == Some(Forever))
  {
    hide AuthorizationFor;
    AuthorizationRule(w, r);
    if AuthorizationFor(w, r).Some? && r.execution.Some? {
      GenerationRule(w, r.owner, r.session, r.execution.value.generation);
    }
  }

  /** What is written: the request with its catalogued risk; for a policy session no grant, otherwise
      one with one use or 512, for eight hours or thirty days, of the generation now in force. */
  lemma ApprovedFile(w: World, r: Request, duration: Option<Duration>, policyCurrent: bool)
    requires var p := DecisionPlan(w, r, Approved, duration, policyCurrent);
             p.Write? && p.resolved.decision.outcome == Approved
    ensures var f := DecisionPlan(w, r, Approved, duration, policyCurrent).resolved;
            && f.request == r.(risk := Some(w.catalog[r.verb]))
            && f.decision.duration == duration
            && (Restores(r) ==> f.decision.restoration && f.decision.grant.None?)
            && (!Restores(r) ==> !f.decision.restoration && f.decision.grant.Some?
                                 && var g := f.decision.grant.value;
                                    && g.authorization == AuthorizationFor(w, r)
                                    && g.generation.Some?
                                    && GenerationIs(w, r.owner, r.session, g.generation.value)
                                    && g.uses == (if duration in {None, Some(Once)} then 1 else 512)
                                    && g.expiresAt == w.now + (if duration == Some(Forever) then THIRTY_DAYS
                                                               else EIGHT_HOURS))
  {
    hide AuthorizationFor;
    AuthorizationRule(w, r);
    GenerationRule(w, r.owner, r.session, Current(w.generations, r.owner, r.session));
  }

  /** Whatever is neither put back nor approved is denied, and a denial carries no grant. */
  lemma OtherwiseDenied(w: World, r: Request, outcome: Outcome, duration: Option<Duration>, policyCurrent: bool)
    ensures var p := DecisionPlan(w, r, outcome, duration, policyCurrent);
            && (outcome == Denied ==> p.Write?)
            && (p.Write? && (outcome == Denied || p.resolved.decision.outcome != Approved) ==>
                  && p.resolved.request == r && p.resolved.decision.outcome == Denied
                  && p.resolved.decision.grant.None? && !p.resolved.decision.restoration)
  {
  }

  // ---- redeeming ------------------------------------------------------------------------------------

  /** The worker redeeming is one that takes the same task over: it runs, and names the request. */
  ghost predicate TakesOver(w: World, r: Request, b: ExecutionBinding, e: Identity, resumed: seq<Id>) {
    && r.resumableUntil.Some? && w.now < r.resumableUntil.value && r.id in resumed
    && e.taskId == b.identity.taskId && 16 <= |e.leaseNonce| <= 128
    && e.workerPid != 0 && e.workerPid in w.startTicks && e.startTicks == Some(w.startTicks[e.workerPid])
  }

  /** Who may redeem: for an agent's request the worker that asked while it runs, or one that takes the
      task over, the first being unrevoked and of its generation; for any other request anyone, as long
      as the generation is still the one of the approval. */
  ghost predicate MayRedeem(w0: World, w: World, r: Request, d: Demand) {
    match (r.execution, d.execution)
    case (Some(b), Some(e)) =>
      && b.identity !in w.revoked && GenerationIs(w, r.owner, r.session, b.generation)
      && ((e == b.identity && Running(w, b)) || TakesOver(w, r, b, e, d.resumed))
    case (None, None) =>
      && r.resumableUntil.None?
      && exists n {:trigger GenerationIs(w, r.owner, r.session, n)} ::
           GenerationIs(w0, r.owner, r.session, n) && GenerationIs(w, r.owner, r.session, n)
    case _ => false
  }

  /** An approval answers a demand at any later moment exactly when the demand is for what was
      requested, eight hours or thirty days have not passed, and the redeemer may. */
  lemma ApprovalMatchesIff(w0: World, w: World, r: Request, duration: Option<Duration>, d: Demand)
    requires !Restores(r)
    requires var p := DecisionPlan(w0, r, Approved, duration, true); p.Write? && p.resolved.decision.outcome == Approved
    ensures Matches(w, DecisionPlan(w0, r, Approved, duration, true).resolved, d) <==>
            && d.owner == r.owner && d.session == r.session && d.capability == Cap(r.verb, r.scope)
            && d.risk == w0.catalog[r.verb] && d.context == r.context && d.digest == r.digest
            && r.verb in w.catalog
            && w.now < w0.now + (if duration == Some(Forever) then THIRTY_DAYS else EIGHT_HOURS)
            && MayRedeem(w0, w, r, d)
  {
    hide DecisionPlan, AuthorizationFor;
    ApprovedFile(w0, r, duration, true);
    ApprovedIff(w0, r, duration, true);
    AuthorizationRule(w0, r);
    ApprovalPrefix(r.session);
    var f := DecisionPlan(w0, r, Approved, duration, true).resolved;
    var n := f.decision.grant.value.generation.value;
    GenerationRule(w, r.owner, r.session, n);
    GenerationRule(w0, r.owner, r.session, n);
    if r.execution.Some? {
      GenerationRule(w, r.owner, r.session, r.execution.value.generation);
      GenerationRule(w0, r.owner, r.session, r.execution.value.generation);
    }
  }

  lemma ApprovalPrefix(session: string)
    ensures IsPolicySession(session) <==> |session| >= 15 && session[..15] == "app-permission:"
  {
    assert |POLICY_PREFIX| == 15;
  }

  /** Of any file at all, also one no resolver wrote: a match means a use is left before the deadline,
      and the grant's own record, the request beside it and the demand are about one thing. */
  lemma MatchMeansOneThing(w: World, f: Resolved, d: Demand)
    requires Matches(w, f, d)
    ensures f.decision.outcome == Approved && !f.decision.restoration && !Restores(f.request)
    ensures var r := f.request;
            && r.owner == d.owner && r.session == d.session && Cap(r.verb, r.scope) == d.capability
            && r.risk == Some(d.risk) && r.context == d.context && r.digest == d.digest && r.verb in w.catalog
    ensures f.decision.grant.Some? && f.decision.grant.value.authorization.Some?
    ensures var g, a := f.decision.grant.value, f.decision.grant.value.authorization.value;
            && g.uses > 0 && w.now < g.expiresAt
            && g.generation.Some? && GenerationIs(w, d.owner, d.session, g.generation.value)
            && a.owner == d.owner && a.session == d.session && a.capability == d.capability && a.risk == d.risk
            && a.context == d.context && a.digest == d.digest
            && a.execution == f.request.execution && a.resumableUntil == f.request.resumableUntil
            && a.resumeRequest == (if f.request.resumableUntil.Some? then Some(f.request.id) else None)
    ensures (f.request.execution.Some? <==> d.execution.Some?)
            && (f.request.execution.Some? ==>
                  Standing(w, f.request, f.request.execution.value)
                  && (|| (d.execution == Some(f.request.execution.value.identity)
                          && Running(w, f.request.execution.value))
                      || TakesOver(w, f.request, f.request.execution.value, d.execution.value, d.resumed)))
  {
    ApprovalPrefix(f.request.session);
    GenerationRule(w, d.owner, d.session, f.decision.grant.value.generation.value);
    if f.request.execution.Some? {
      GenerationRule(w, d.owner, d.session, f.request.execution.value.generation);
    }
  }
}
