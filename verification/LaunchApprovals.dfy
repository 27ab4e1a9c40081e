/**
 Waiting for the approvals of an App launch: one polled response decides whether every requested
 approval was granted, some are still open, or the launch must stop.
 */
module LaunchApprovals {
  import opened Wrappers

  datatype Entry = Entry(id: Option<string>, status: Option<string>)

  datatype Refusal = NoMatch | MissingId | UnexpectedId | Denied(id: string) | Unavailable(id: string)

  predicate Open(e: Entry) {
    e.status == Some("pending") || e.status == Some("resolving")
  }

  predicate Granted(e: Entry) {
    e.status == Some("approved")
  }

  predicate Distinct(ids: seq<string>) {
    forall i, j :: 0 <= i < j < |ids| ==> ids[i] != ids[j]
  }

  predicate AllNamed(statuses: seq<Entry>) {
    forall i :: 0 <= i < |statuses| ==> statuses[i].id.Some?
  }

  function IdsOf(statuses: seq<Entry>): (ids: seq<string>)
    requires AllNamed(statuses)
    ensures |ids| == |statuses| && forall i :: 0 <= i < |ids| ==> ids[i] == statuses[i].id.value
  {
    if statuses == [] then [] else IdsOf(statuses[..|statuses| - 1]) + [statuses[|statuses| - 1].id.value]
  }

  /** The response speaks of exactly the requested approvals, once each and in any order. */
  predicate Answers(ids: seq<string>, statuses: seq<Entry>) {
    ids != [] && Distinct(ids) && AllNamed(statuses) && multiset(IdsOf(statuses)) == multiset(ids)
  }

  predicate AllLive(statuses: seq<Entry>) {
    forall i :: 0 <= i < |statuses| ==> Granted(statuses[i]) || Open(statuses[i])
  }

  predicate AnyOpen(statuses: seq<Entry>) {
    exists i :: 0 <= i < |statuses| && Open(statuses[i])
  }

  function SetOf(ids: seq<string>): set<string> {
    set id <- ids
  }

  /** What the loop knows after `n` entries. */
  predicate Checked(statuses: seq<Entry>, n: nat, expected: set<string>, seen: set<string>, pending: bool) {
    && n <= |statuses| && AllNamed(statuses[..n]) && AllLive(statuses[..n])
    && seen == SetOf(IdsOf(statuses[..n])) && |seen| == n && seen <= expected
    && pending == AnyOpen(statuses[..n])
  }

  lemma CheckedNext(statuses: seq<Entry>, n: nat, expected: set<string>, seen: set<string>, pending: bool)
    requires n < |statuses| && Checked(statuses, n, expected, seen, pending)
    requires statuses[n].id.Some? && statuses[n].id.value in expected && statuses[n].id.value !in seen
    requires Granted(statuses[n]) || Open(statuses[n])
    ensures Checked(statuses, n + 1, expected, seen + {statuses[n].id.value}, pending || Open(statuses[n]))
  {
    var before, now := statuses[..n], statuses[..n + 1];
    assert now == before + [statuses[n]] && now[..|now| - 1] == before;
    assert IdsOf(now) == IdsOf(before) + [statuses[n].id.value];
    assert AnyOpen(now) <==> AnyOpen(before) || Open(statuses[n]) by {
      forall i | 0 <= i < n ensures now[i] == before[i] {}
      assert now[n] == statuses[n];
    }
  }

  /** Asked for, not answered before, and granted or still open. */
  predicate InOrder(ids: seq<string>, statuses: seq<Entry>, n: nat)
    requires n < |statuses|
  {
    && statuses[n].id.Some? && statuses[n].id.value in ids
    && (forall i :: 0 <= i < n ==> statuses[i].id != statuses[n].id)
    && statuses[n].status in {Some("approved"), Some("pending"), Some("resolving")}
  }

  /** Why the n-th entry stops the launch. */
  predicate Stops(ids: seq<string>, statuses: seq<Entry>, n: nat, why: Refusal)
    requires n < |statuses|
  {
    var e := statuses[n];
    var expected := e.id.Some? && e.id.value in ids && forall i :: 0 <= i < n ==> statuses[i].id != e.id;
    match why
    case NoMatch => false
    case MissingId => e.id.None?
    case UnexpectedId => e.id.Some? && !expected
    case Denied(id) => expected && e == Entry(Some(id), Some("denied"))
    case Unavailable(id) =>
      && expected && e.id.value == id
      && e.status !in {Some("approved"), Some("pending"), Some("resolving"), Some("denied")}
  }

  /** The first entry that stops the launch, and why. */
  predicate StoppedAt(ids: seq<string>, statuses: seq<Entry>, n: nat, why: Refusal) {
    n < |statuses| && AllInOrder(ids, statuses, n) && Stops(ids, statuses, n, why)
  }

  predicate AllInOrder(ids: seq<string>, statuses: seq<Entry>, n: nat)
    requires n <= |statuses|
  {
    forall i :: 0 <= i < n ==> InOrder(ids, statuses, i)
  }

  lemma NextInOrder(ids: seq<string>, statuses: seq<Entry>, n: nat, seen: set<string>, pending: bool)
    requires n < |statuses| && Checked(statuses, n, SetOf(ids), seen, pending)
    requires statuses[n].id.Some? && statuses[n].id.value in SetOf(ids)
    ensures statuses[n].id.value in seen <==> exists i :: 0 <= i < n && statuses[i].id == statuses[n].id
  {
    var before := statuses[..n];
    forall i | 0 <= i < n
      ensures IdsOf(before)[i] == statuses[i].id.value && statuses[i].id.Some?
    {
      assert before[i] == statuses[i];
    }
    if statuses[n].id.value in seen {
      var i :| 0 <= i < n && IdsOf(before)[i] == statuses[n].id.value;
      assert statuses[i].id == statuses[n].id;
    }
    if i :| 0 <= i < n && statuses[i].id == statuses[n].id {
      assert IdsOf(before)[i] == statuses[n].id.value;
    }
  }

  lemma StopUnnamed(ids: seq<string>, statuses: seq<Entry>, n: nat)
    requires n < |statuses| && AllInOrder(ids, statuses, n) && statuses[n].id.None?
    ensures StoppedAt(ids, statuses, n, MissingId)
  {
  }

  lemma StopUnexpected(ids: seq<string>, statuses: seq<Entry>, n: nat, seen: set<string>, pending: bool)
    requires n < |statuses| && AllInOrder(ids, statuses, n) && Checked(statuses, n, SetOf(ids), seen, pending)
    requires statuses[n].id.Some? && (statuses[n].id.value !in SetOf(ids) || statuses[n].id.value in seen)
    ensures StoppedAt(ids, statuses, n, UnexpectedId)
  {
    hide Checked, AllInOrder;
    if statuses[n].id.value in SetOf(ids) {
      NextInOrder(ids, statuses, n, seen, pending);
    }
  }

  lemma StopOrGoOn(ids: seq<string>, statuses: seq<Entry>, n: nat, seen: set<string>, pending: bool)
    requires n < |statuses| && AllInOrder(ids, statuses, n) && Checked(statuses, n, SetOf(ids), seen, pending)
    requires statuses[n].id.Some? && statuses[n].id.value in SetOf(ids) && statuses[n].id.value !in seen
    ensures Granted(statuses[n]) || Open(statuses[n]) ==> AllInOrder(ids, statuses, n + 1)
    ensures !Granted(statuses[n]) && !Open(statuses[n]) ==>
              var id := statuses[n].id.value;
              StoppedAt(ids, statuses, n, if statuses[n].status == Some("denied") then Denied(id) else Unavailable(id))
  {
    hide Checked;
    NextInOrder(ids, statuses, n, seen, pending);
  }

  /** Done exactly when the response answers for every id and all are granted; waiting while some
      are open; otherwise refused for the first entry that is neither, unless the response does not fit
      the ids at all. */
  method ApprovalStatusesComplete(ids: seq<string>, statuses: seq<Entry>) returns (r: Result<bool, Refusal>)
    ensures r == Success(true) <==> Answers(ids, statuses) && AllLive(statuses) && !AnyOpen(statuses)
    ensures r == Success(false) <==> Answers(ids, statuses) && AllLive(statuses) && AnyOpen(statuses)
    ensures r == Failure(NoMatch) <==> ids == [] || !Distinct(ids) || |statuses| != |ids|
    ensures r.Failure? && r.error != NoMatch ==>
              exists n :: StoppedAt(ids, statuses, n, r.error)
  {
    var expected := SetOf(ids);
    if expected == {} || |expected| != |ids| || |statuses| != |ids| {
      Mismatched(ids, statuses);
      SizeBound(ids);
      return Failure(NoMatch);
    }
    DistinctBySize(ids);
    var seen: set<string> := {};
    var pending := false;
    var n := 0;
    assert AllInOrder(ids, statuses, 0);
    hide Checked, AllLive, AnyOpen, Answers, SetOf, AllInOrder, StoppedAt;
    CheckedNone(statuses, expected);
    while n < |statuses|
      invariant n <= |statuses| && Checked(statuses, n, expected, seen, pending)
      invariant AllInOrder(ids, statuses, n)
    {
      var entry := statuses[n];
      if entry.id.None? {
        Refused(ids, statuses, n);
        StopUnnamed(ids, statuses, n);
        return Failure(MissingId);
      }
      var id := entry.id.value;
      if id !in expected || id in seen {
        UnexpectedRefused(ids, statuses, n, seen, pending);
        StopUnexpected(ids, statuses, n, seen, pending);
        return Failure(UnexpectedId);
      }
      StopOrGoOn(ids, statuses, n, seen, pending);
      if Granted(entry) {
        CheckedNext(statuses, n, expected, seen, pending);
      } else if Open(entry) {
        CheckedNext(statuses, n, expected, seen, pending);
        pending := true;
      } else {
        Refused(ids, statuses, n);
        return Failure(if entry.status == Some("denied") then Denied(id) else Unavailable(id));
      }
      seen := seen + {id};
      n := n + 1;
    }
    EveryIdSeen(ids, statuses, seen, pending);
    return Success(!pending);
  }

  lemma CheckedNone(statuses: seq<Entry>, expected: set<string>)
    ensures Checked(statuses, 0, expected, {}, false)
  {
  }

  lemma Refused(ids: seq<string>, statuses: seq<Entry>, n: nat)
    requires n < |statuses| && (statuses[n].id.None? || (!Granted(statuses[n]) && !Open(statuses[n])))
    ensures !(Answers(ids, statuses) && AllLive(statuses))
  {
  }

  lemma UnexpectedRefused(ids: seq<string>, statuses: seq<Entry>, n: nat, seen: set<string>, pending: bool)
    requires n < |statuses| && statuses[n].id.Some? && Checked(statuses, n, SetOf(ids), seen, pending)
    requires statuses[n].id.value !in SetOf(ids) || statuses[n].id.value in seen
    ensures !Answers(ids, statuses)
  {
    Unanswered(ids, statuses, n);
  }

  lemma {:induction false} SizeBound(ids: seq<string>)
    ensures |SetOf(ids)| <= |ids|
    ensures |SetOf(ids)| == |ids| <==> Distinct(ids)
  {
    if ids != [] {
      var init, last := ids[..|ids| - 1], ids[|ids| - 1];
      SizeBound(init);
      assert ids == init + [last];
      assert SetOf(ids) == SetOf(init) + {last};
      if Distinct(init) && last !in init {
        assert Distinct(ids);
      } else if last in init {
        var i :| 0 <= i < |init| && init[i] == last;
        assert ids[i] == ids[|init|];
      } else {
        assert !Distinct(ids) by {
          var i, j :| 0 <= i < j < |init| && init[i] == init[j];
          assert ids[i] == ids[j];
        }
      }
    }
  }

  lemma DistinctBySize(ids: seq<string>)
    requires |SetOf(ids)| == |ids|
    ensures Distinct(ids)
  {
    SizeBound(ids);
  }

  lemma {:induction false} DistinctCounts(ids: seq<string>)
    requires Distinct(ids)
    ensures forall id :: multiset(ids)[id] == if id in SetOf(ids) then 1 else 0
  {
    if ids != [] {
      var init, last := ids[..|ids| - 1], ids[|ids| - 1];
      DistinctCounts(init);
      assert ids == init + [last];
      assert last !in init;
    }
  }

  /** Distinct lists hold the same ids exactly when one is as long as the other and inside it. */
  lemma SameIds(ids: seq<string>, others: seq<string>)
    requires Distinct(ids) && Distinct(others)
    ensures multiset(others) == multiset(ids) <==> |others| == |ids| && SetOf(others) <= SetOf(ids)
  {
    SizeBound(ids);
    SizeBound(others);
    DistinctCounts(ids);
    DistinctCounts(others);
    if |others| == |ids| && SetOf(others) <= SetOf(ids) {
      SubsetOfSameSize(SetOf(others), SetOf(ids));
      assert multiset(others) == multiset(ids);
    }
    if multiset(others) == multiset(ids) {
      assert |multiset(others)| == |others| && |multiset(ids)| == |ids|;
      forall id | id in SetOf(others) ensures id in SetOf(ids) {
        assert id in multiset(others);
      }
    }
  }

  lemma SubsetOfSameSize(a: set<string>, b: set<string>)
    requires a <= b && |a| == |b|
    ensures a == b
  {
    assert |b - a| == |b| - |a|;
  }

  lemma AnswersFit(ids: seq<string>, statuses: seq<Entry>)
    requires Answers(ids, statuses)
    ensures SetOf(ids) != {} && |SetOf(ids)| == |ids| == |statuses|
  {
    SizeBound(ids);
    assert |multiset(IdsOf(statuses))| == |statuses|;
    assert ids[0] in SetOf(ids);
  }

  lemma Mismatched(ids: seq<string>, statuses: seq<Entry>)
    requires SetOf(ids) == {} || |SetOf(ids)| != |ids| || |statuses| != |ids|
    ensures !Answers(ids, statuses)
  {
    hide Answers, SetOf;
    if Answers(ids, statuses) {
      AnswersFit(ids, statuses);
    }
  }

  /** An id that was not asked for, or comes a second time. */
  lemma Unanswered(ids: seq<string>, statuses: seq<Entry>, n: nat)
    requires n < |statuses| && AllNamed(statuses[..n]) && statuses[n].id.Some?
    requires statuses[n].id.value !in SetOf(ids) || statuses[n].id.value in SetOf(IdsOf(statuses[..n]))
    ensures !Answers(ids, statuses)
  {
    if Answers(ids, statuses) {
      var all := IdsOf(statuses);
      var id := statuses[n].id.value;
      assert all[n] == id && id in multiset(all);
      assert id in ids;
      var i :| 0 <= i < n && IdsOf(statuses[..n])[i] == id;
      assert all[i] == id;
      DistinctCounts(ids);
      Twice(all, i, n);
    }
  }

  lemma Twice(all: seq<string>, i: nat, n: nat)
    requires i < n < |all| && all[i] == all[n]
    ensures multiset(all)[all[n]] >= 2
  {
    assert all == all[..n] + [all[n]] + all[n + 1..];
    assert all[..n][i] == all[n];
    assert all[n] in multiset(all[..n]);
  }

  lemma EveryIdSeen(ids: seq<string>, statuses: seq<Entry>, seen: set<string>, pending: bool)
    requires SetOf(ids) != {} && Distinct(ids) && |statuses| == |ids|
    requires Checked(statuses, |statuses|, SetOf(ids), seen, pending)
    ensures Answers(ids, statuses) && AllLive(statuses) && pending == AnyOpen(statuses)
  {
    assert statuses[..|statuses|] == statuses;
    SizeBound(IdsOf(statuses));
    SameIds(ids, IdsOf(statuses));
  }
}
