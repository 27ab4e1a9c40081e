/**
 The approved and consumed directories under the store lock: spending one use of a grant, and
 consuming a whole set of grants for one action, all or none.
 */
module GrantStore {
  import opened Wrappers
  import opened Approvals

  datatype ConsumeError = NotCanonical | RenameFailed

  // ---- what a set needs ---------------------------------------------------------------------

  /** The demand a non-Agent launcher makes for one canonical capability. */
  function LauncherDemand(session: string, owner: Owner, cap: (Cap, Risk)): Demand {
    Demand(owner, session, cap.0, cap.1, None, None, None, [])
  }

  /** A set is met only from files of this session and owner that are no agent's: without a context, an
      execution or a digest, for the very capability and risk. */
  lemma LauncherTakes(w: World, f: Resolved, session: string, owner: Owner, cap: (Cap, Risk))
    requires Matches(w, f, LauncherDemand(session, owner, cap))
    ensures var r := f.request;
            && r.session == session && r.owner == owner && Cap(r.verb, r.scope) == cap.0 && r.risk == Some(cap.1)
            && r.context.None? && r.execution.None? && r.digest.None?
  {
  }

  ghost function Matching(
    w: World, approved: map<Id, Resolved>, session: string, owner: Owner, cap: (Cap, Risk)): set<Id>
  {
    set id <- approved | Matches(w, approved[id], LauncherDemand(session, owner, cap))
  }

  predicate AllCanonical(w: World, required: seq<Cap>) {
    forall i :: 0 <= i < |required| ==> CanonicalCapability(w, required[i]).Some?
  }

  function Canonical(w: World, required: seq<Cap>): (caps: seq<(Cap, Risk)>)
    requires AllCanonical(w, required)
    ensures |caps| == |required|
    ensures forall i :: 0 <= i < |caps| ==> Some(caps[i]) == CanonicalCapability(w, required[i])
  {
    if required == [] then []
    else Canonical(w, required[..|required| - 1]) + [CanonicalCapability(w, required[|required| - 1]).value]
  }

  /** The multiset of needed capabilities fits in the multiset of live exact grants. */
  ghost predicate Covered(
    w: World, approved: map<Id, Resolved>, session: string, owner: Owner, caps: seq<(Cap, Risk)>)
  {
    forall cap <- caps :: multiset(caps)[cap] <= |Matching(w, approved, session, owner, cap)|
  }

  /** One distinct matching file for every requirement. */
  ghost predicate Assigns(
    w: World, approved: map<Id, Resolved>, session: string, owner: Owner, caps: seq<(Cap, Risk)>, claimed: seq<Id>)
  {
    && |claimed| == |caps|
    && (forall i, j :: 0 <= i < j < |claimed| ==> claimed[i] != claimed[j])
    && (forall i :: 0 <= i < |claimed| ==> claimed[i] in Matching(w, approved, session, owner, caps[i]))
  }

  // ---- greedy choice suffices ------------------------------------------------------------------

  /** The files claimed so far for one capability. */
  ghost function ClaimedFor(caps: seq<(Cap, Risk)>, claimed: seq<Id>, cap: (Cap, Risk)): set<Id>
    requires |claimed| <= |caps|
  {
    set i | 0 <= i < |claimed| && caps[i] == cap :: claimed[i]
  }

  lemma {:induction false} ClaimedCount(caps: seq<(Cap, Risk)>, claimed: seq<Id>, cap: (Cap, Risk))
    requires |claimed| <= |caps|
    requires forall i, j :: 0 <= i < j < |claimed| ==> claimed[i] != claimed[j]
    ensures |ClaimedFor(caps, claimed, cap)| == multiset(caps[..|claimed|])[cap]
    decreases |claimed|
  {
    if |claimed| == 0 {
      assert ClaimedFor(caps, claimed, cap) == {};
    } else {
      var n := |claimed| - 1;
      ClaimedCount(caps, claimed[..n], cap);
      assert caps[..|claimed|] == caps[..n] + [caps[n]];
      ClaimedStep(caps, claimed[..n], claimed[n], cap);
      assert claimed == claimed[..n] + [claimed[n]];
      hide ClaimedFor;
    }
  }

  lemma ClaimedStep(caps: seq<(Cap, Risk)>, before: seq<Id>, id: Id, cap: (Cap, Risk))
    requires |before| < |caps| && id !in before
    ensures ClaimedFor(caps, before + [id], cap)
            == ClaimedFor(caps, before, cap) + (if caps[|before|] == cap then {id} else {})
    ensures id !in ClaimedFor(caps, before, cap)
  {
    var n, all := |before|, before + [id];
    forall k | k in ClaimedFor(caps, all, cap)
      ensures k in ClaimedFor(caps, before, cap) || (caps[n] == cap && k == id)
    {
      var i :| 0 <= i < |all| && caps[i] == cap && all[i] == k;
      if i < n {
        assert before[i] == k;
      }
    }
    forall k | k in ClaimedFor(caps, before, cap)
      ensures k in ClaimedFor(caps, all, cap)
    {
      var i :| 0 <= i < n && caps[i] == cap && before[i] == k;
      assert all[i] == k;
    }
    if caps[n] == cap {
      assert all[n] == id;
    }
  }

  /** When every matching file is already claimed, they were claimed for equal capabilities. */
  lemma StuckMeansUncovered(
    w: World, approved: map<Id, Resolved>, session: string, owner: Owner, caps: seq<(Cap, Risk)>, claimed: seq<Id>)
    requires |claimed| < |caps|
    requires Assigns(w, approved, session, owner, caps[..|claimed|], claimed)
    requires forall id <- Matching(w, approved, session, owner, caps[|claimed|]) :: id in claimed
    ensures !Covered(w, approved, session, owner, caps)
  {
    var n := |claimed|;
    var cap := caps[n];
    var files := Matching(w, approved, session, owner, cap);
    forall id | id in files
      ensures id in ClaimedFor(caps, claimed, cap)
    {
      var i :| 0 <= i < n && claimed[i] == id;
      assert claimed[i] in Matching(w, approved, session, owner, caps[..n][i]);
      MatchesOneCapability(
        w, approved[id], LauncherDemand(session, owner, caps[i]), LauncherDemand(session, owner, cap));
      assert caps[i] == cap;
    }
    SubsetSize(files, ClaimedFor(caps, claimed, cap));
    ClaimedCount(caps, claimed, cap);
    assert caps == caps[..n] + [cap] + caps[n + 1..];
    assert cap in caps;
  }

  lemma SubsetSize(a: set<Id>, b: set<Id>)
    requires a <= b
    ensures |a| <= |b|
  {
    assert b == a + (b - a);
  }

  lemma AssignmentMeansCovered(
    w: World, approved: map<Id, Resolved>, session: string, owner: Owner, caps: seq<(Cap, Risk)>, claimed: seq<Id>)
    requires Assigns(w, approved, session, owner, caps, claimed)
    ensures Covered(w, approved, session, owner, caps)
  {
    forall cap | cap in caps
      ensures multiset(caps)[cap] <= |Matching(w, approved, session, owner, cap)|
    {
      ClaimedCount(caps, claimed, cap);
      assert caps[..|claimed|] == caps;
      SubsetSize(ClaimedFor(caps, claimed, cap), Matching(w, approved, session, owner, cap));
    }
  }

  // ---- the store ---------------------------------------------------------------------------------

  /** The approved files a set of moves leaves behind, and the consumed ones it produces. */
  function Kept(approved: map<Id, Resolved>, moved: seq<Id>): map<Id, Resolved> {
    map id <- approved | id !in moved :: approved[id]
  }

  function Received(approved: map<Id, Resolved>, consumed: map<Id, Resolved>, moved: seq<Id>): map<Id, Resolved>
    requires forall id <- moved :: id in approved
  {
    map id <- consumed.Keys + (set k <- moved) :: if id in moved then approved[id] else consumed[id]
  }

  lemma NoneMoved(approved: map<Id, Resolved>, consumed: map<Id, Resolved>)
    ensures Kept(approved, []) == approved && Received(approved, consumed, []) == consumed
  {
  }

  lemma MoveOne(approved: map<Id, Resolved>, consumed: map<Id, Resolved>, before: seq<Id>, id: Id)
    requires id in approved && id !in before && forall k <- before :: k in approved
    ensures id in Kept(approved, before)
    ensures Received(approved, consumed, before)[id := Kept(approved, before)[id]]
            == Received(approved, consumed, before + [id])
    ensures (map k <- Kept(approved, before) | k != id :: Kept(approved, before)[k]) == Kept(approved, before + [id])
  {
  }

  lemma UndoOne(approved: map<Id, Resolved>, consumed: map<Id, Resolved>, id: Id, rest: seq<Id>)
    requires approved.Keys !! consumed.Keys && id in approved && id !in rest && forall k <- rest :: k in approved
    ensures id in Received(approved, consumed, [id] + rest)
    ensures Kept(approved, [id] + rest)[id := Received(approved, consumed, [id] + rest)[id]] == Kept(approved, rest)
    ensures (map k <- Received(approved, consumed, [id] + rest) | k != id ::
               Received(approved, consumed, [id] + rest)[k])
            == Received(approved, consumed, rest)
  {
  }

  class Store {
    var pending: map<Id, Request>
    var scratch: map<nat, Request>
    var approved: map<Id, Resolved>
    var denied: map<Id, Resolved>
    var consumed: map<Id, Resolved>

    constructor ()
      ensures pending == map[] && scratch == map[] && approved == map[] && denied == map[] && consumed == map[]
    {
      pending, scratch, approved, denied, consumed := map[], map[], map[], map[], map[];
    }

    /** Claim by rename, decide, write the decision, clean up: refusals put the request back and a
        request that no longer stands is denied. `nonce` names the claim's scratch file. */
    method ResolveLocked(
      w: World, id: Id, outcome: Outcome, duration: Option<Duration>, owner: Owner, policyCurrent: bool, nonce: nat)
      returns (r: Option<Resolved>)
      requires nonce !in scratch
      modifies this`pending, this`scratch, this`approved, this`denied
      ensures scratch == old(scratch)
      ensures (id !in old(pending) || (owner.Some? && old(pending)[id].owner != owner)) ==>
                r == None && pending == old(pending) && approved == old(approved) && denied == old(denied)
      ensures id in old(pending) && (owner.Some? ==> old(pending)[id].owner == owner) ==>
                match DecisionPlan(w, old(pending)[id], outcome, duration, policyCurrent)
                case PutBack =>
                  r == None && pending == old(pending) && approved == old(approved) && denied == old(denied)
                case Write(f) =>
                  && pending == old(pending) - {id}
                  && (f.decision.outcome == Approved ==> approved == old(approved)[id := f] && denied == old(denied))
                  && (f.decision.outcome == Denied ==> denied == old(denied)[id := f] && approved == old(approved))
                  && r == (if f.decision.outcome == outcome then Some(f) else None)
    {
      if id !in pending {
        return None;
      }
      if owner.Some? && pending[id].owner != owner {
        return None;
      }
      scratch := scratch[nonce := pending[id]];
      pending := pending - {id};
      var request := scratch[nonce];
      var plan := DecisionPlan(w, request, outcome, duration, policyCurrent);
      if plan.PutBack? {
        pending := pending[id := request];
        scratch := scratch - {nonce};
        return None;
      }
      if plan.resolved.decision.outcome == Approved {
        approved := approved[id := plan.resolved];
      } else {
        denied := denied[id := plan.resolved];
      }
      scratch := scratch - {nonce};
      r := if plan.resolved.decision.outcome == outcome then Some(plan.resolved) else None;
    }

    /** The approved files in name order. */
    method ListApproved() returns (ids: seq<Id>)
      ensures forall id :: id in ids <==> id in approved
      ensures forall i, j :: 0 <= i < j < |ids| ==> ids[i] < ids[j]
    {
      ids := [];
      var left := approved.Keys;
      while left != {}
        invariant left <= approved.Keys
        invariant forall id :: id in ids <==> id in approved && id !in left
        invariant forall i, j :: 0 <= i < j < |ids| ==> ids[i] < ids[j]
        invariant forall id <- left, i :: 0 <= i < |ids| ==> ids[i] < id
        decreases left
      {
        ghost var first := Least(left);
        var least :| least in left && forall id <- left :: least <= id;
        ids := ids + [least];
        left := left - {least};
      }
    }

    /** The first approved file that matches and is not yet claimed. */
    method FindUnclaimed(w: World, demand: Demand, claimed: seq<Id>) returns (found: Option<Id>)
      ensures found.Some? ==>
                found.value in approved && found.value !in claimed && Matches(w, approved[found.value], demand)
      ensures found.None? ==> forall id <- approved :: Matches(w, approved[id], demand) ==> id in claimed
    {
      var ids := ListApproved();
      var i := 0;
      while i < |ids|
        invariant 0 <= i <= |ids|
        invariant forall j :: 0 <= j < i ==> Matches(w, approved[ids[j]], demand) ==> ids[j] in claimed
      {
        if ids[i] !in claimed && Matches(w, approved[ids[i]], demand) {
          return Some(ids[i]);
        }
        i := i + 1;
      }
      return None;
    }

    /** Consume one grant for every required capability, or nothing. `failsAt` is the rename, if any,
        that the file system refuses. */
    method ConsumeGrantSetOnce(w: World, session: string, owner: Owner, required: seq<Cap>, failsAt: Option<nat>)
      returns (r: Result<bool, ConsumeError>)
      requires approved.Keys !! consumed.Keys
      modifies this`approved, this`consumed
      ensures r == Success(true) ==>
                && AllCanonical(w, required)
                && Covered(w, old(approved), session, owner, Canonical(w, required))
                && exists claimed ::
                     && Assigns(w, old(approved), session, owner, Canonical(w, required), claimed)
                     && approved == Kept(old(approved), claimed)
                     && consumed == Received(old(approved), old(consumed), claimed)
      ensures r != Success(true) ==> approved == old(approved) && consumed == old(consumed)
      ensures AllCanonical(w, required) ==>
                && (r == Success(false) <==> !Covered(w, old(approved), session, owner, Canonical(w, required)))
                && r != Failure(NotCanonical)
                && (failsAt.None? ==> r != Failure(RenameFailed))
    {
      var claimed: seq<Id> := [];
      var index := 0;
      while index < |required|
        invariant 0 <= index <= |required| && |claimed| == index
        invariant AllCanonical(w, required[..index])
        invariant Assigns(w, approved, session, owner, Canonical(w, required[..index]), claimed)
        invariant approved == old(approved) && consumed == old(consumed)
      {
        var cap := CanonicalCapability(w, required[index]);
        if cap.None? {
          return Failure(NotCanonical);
        }
        var demand := LauncherDemand(session, owner, cap.value);
        var found := FindUnclaimed(w, demand, claimed);
        if found.None? {
          if AllCanonical(w, required) {
            CanonicalPrefix(w, required, index);
            StuckMeansUncovered(w, approved, session, owner, Canonical(w, required), claimed);
          }
          return Success(false);
        }
        ExtendAssignment(w, approved, session, owner, required, index, claimed, found.value);
        claimed := claimed + [found.value];
        index := index + 1;
      }
      assert required[..index] == required;
      AssignmentMeansCovered(w, approved, session, owner, Canonical(w, required), claimed);
      var moved := MoveClaimed(claimed, failsAt);
      r := if moved then Success(true) else Failure(RenameFailed);
    }

    /** Rename the claimed files one by one; a refused rename undoes the earlier ones. */
    method MoveClaimed(claimed: seq<Id>, failsAt: Option<nat>) returns (ok: bool)
      requires approved.Keys !! consumed.Keys
      requires forall id <- claimed :: id in approved
      requires forall i, j :: 0 <= i < j < |claimed| ==> claimed[i] != claimed[j]
      modifies this`approved, this`consumed
      ensures ok ==> && approved == Kept(old(approved), claimed)
                     && consumed == Received(old(approved), old(consumed), claimed)
      ensures !ok ==> approved == old(approved) && consumed == old(consumed)
      ensures failsAt.None? ==> ok
    {
      hide Kept, Received;
      var moved := 0;
      NoneMoved(approved, consumed);
      assert claimed[..0] == [];
      while moved < |claimed|
        invariant 0 <= moved <= |claimed|
        invariant approved == Kept(old(approved), claimed[..moved])
        invariant consumed == Received(old(approved), old(consumed), claimed[..moved])
      {
        if failsAt == Some(moved) {
          Rollback(claimed[..moved], old(approved), old(consumed));
          return false;
        }
        var id := claimed[moved];
        assert claimed[..moved + 1] == claimed[..moved] + [id];
        MoveOne(old(approved), old(consumed), claimed[..moved], id);
        consumed := consumed[id := approved[id]];
        approved := map k <- approved | k != id :: approved[k];
        moved := moved + 1;
      }
      assert claimed[..moved] == claimed;
      ok := true;
    }

    method Rollback(moved: seq<Id>, ghost wasApproved: map<Id, Resolved>, ghost wasConsumed: map<Id, Resolved>)
      requires wasApproved.Keys !! wasConsumed.Keys
      requires forall id <- moved :: id in wasApproved
      requires forall i, j :: 0 <= i < j < |moved| ==> moved[i] != moved[j]
      requires approved == Kept(wasApproved, moved) && consumed == Received(wasApproved, wasConsumed, moved)
      modifies this`approved, this`consumed
      ensures approved == wasApproved && consumed == wasConsumed
    {
      hide Kept, Received;
      var i := 0;
      assert moved[0..] == moved;
      while i < |moved|
        invariant 0 <= i <= |moved|
        invariant approved == Kept(wasApproved, moved[i..])
        invariant consumed == Received(wasApproved, wasConsumed, moved[i..])
      {
        var id := moved[i];
        assert moved[i..] == [id] + moved[i + 1..];
        UndoOne(wasApproved, wasConsumed, id, moved[i + 1..]);
        approved := approved[id := consumed[id]];
        consumed := map k <- consumed | k != id :: consumed[k];
        i := i + 1;
      }
      assert moved[i..] == [];
      NoneMoved(wasApproved, wasConsumed);
    }

    /** Spend one use, or all of them: the file is rewritten, or moved out as it was. */
    method SpendGrant(id: Id, retireAll: bool) returns (left: Option<nat>)
      requires id in approved
      modifies this`approved, this`consumed
      ensures left.Some? <==> Spendable(old(approved)[id])
      ensures left.None? ==> approved == old(approved) && consumed == old(consumed)
      ensures left.Some? ==>
                var g := old(approved)[id].decision.grant.value;
                && left.value == (if retireAll || g.uses == 0 then 0 else g.uses - 1)
                && (left.value > 0 ==>
                      && approved == old(approved)[id := WithUses(old(approved)[id], left.value)]
                      && consumed == old(consumed))
                && (left.value == 0 ==>
                      && approved == Kept(old(approved), [id])
                      && consumed == Received(old(approved), old(consumed), [id]))
    {
      var f := approved[id];
      if f.decision.restoration || IsPolicySession(f.request.session) {
        return None;
      }
      if f.decision.grant.None? || f.decision.grant.value.generation.None?
         || f.decision.grant.value.authorization.None? {
        return None;
      }
      var uses := f.decision.grant.value.uses;
      if retireAll {
        uses := 0;
      } else if uses > 0 {
        uses := uses - 1;
      }
      if uses == 0 {
        consumed := consumed[id := approved[id]];
        approved := map k <- approved | k != id :: approved[k];
      } else {
        approved := approved[id := WithUses(f, uses)];
      }
      return Some(uses);
    }
  }

  predicate Spendable(f: Resolved) {
    && !f.decision.restoration && !IsPolicySession(f.request.session)
    && f.decision.grant.Some? && f.decision.grant.value.generation.Some? && f.decision.grant.value.authorization.Some?
  }

  function WithUses(f: Resolved, uses: nat): Resolved
    requires f.decision.grant.Some?
  {
    f.(decision := f.decision.(grant := Some(f.decision.grant.value.(uses := uses))))
  }

  lemma {:induction false} Least(s: set<Id>) returns (m: Id)
    requires s != {}
    ensures m in s && forall id :: id in s ==> m <= id
    decreases s
  {
    var x :| x in s;
    m := x;
    if s != {x} {
      var rest := s - {x};
      var least := Least(rest);
      m := if least < x then least else x;
      assert s == rest + {x};
    }
  }

  lemma CanonicalPrefix(w: World, required: seq<Cap>, n: nat)
    requires AllCanonical(w, required) && n <= |required|
    ensures Canonical(w, required)[..n] == Canonical(w, required[..n])
  {
  }

  lemma ExtendAssignment(
    w: World, approved: map<Id, Resolved>, session: string, owner: Owner,
    required: seq<Cap>, n: nat, claimed: seq<Id>, id: Id)
    requires n < |required| && AllCanonical(w, required[..n])
    requires CanonicalCapability(w, required[n]).Some?
    requires Assigns(w, approved, session, owner, Canonical(w, required[..n]), claimed)
    requires id in approved && id !in claimed
    requires Matches(w, approved[id], LauncherDemand(session, owner, CanonicalCapability(w, required[n]).value))
    ensures AllCanonical(w, required[..n + 1])
    ensures Assigns(w, approved, session, owner, Canonical(w, required[..n + 1]), claimed + [id])
  {
    hide Matches, CanonicalCapability;
    assert required[..n + 1][..n] == required[..n];
    assert forall i :: 0 <= i < n ==> required[..n + 1][i] == required[..n][i];
    assert Canonical(w, required[..n + 1]) == Canonical(w, required[..n]) + [CanonicalCapability(w, required[n]).value];
  }
}
