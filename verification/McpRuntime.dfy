/**
 The bounded tool-call runtime: one reader admitting calls into a 64-entry active map and a pending
 channel, one worker executing them, and cancellers running beside both. Steps are the regions the
 mutex, the channel, the suppress flags and the output lock make atomic.
 */
module McpRuntime {
  import opened Wrappers

  const MAX_CALLS: nat := 64

  /** The encoded request id. */
  type Key = string

  datatype Worker = Idle | Taken(call: nat) | Running(call: nat) | Writing(call: nat) | Ended(call: nat)

  datatype Reply = InvalidParams | Busy | Duplicate | Answer

  datatype Response = Response(frame: nat, reply: Reply)

  /** Call frames are numbered as they are read; `keys` holds the request key of each. */
  datatype State = State(
    keys: seq<Key>,
    calls: map<Key, nat>,       // active calls
    sending: Option<nat>,       // in the map, not yet in the channel
    pending: seq<nat>,          // the channel
    worker: Worker,
    doomed: set<nat>,           // found by a canceller that has yet to set their flags
    suppressed: set<nat>,
    broken: bool,               // a write failed; nothing is written any more
    closed: bool,               // the reader returned and the channel is closed
    responses: seq<Response>,   // written so far
    accepted: seq<nat>,         // every call ever admitted, in order
    started: seq<nat>)          // every call the worker ever took, in order

  datatype Step =
    | CallFrame(key: Key, objectParams: bool, writeFails: bool)
    | SendPending
    | CancelFrame(key: Key)
    | Sweep
    | Suppress(call: nat)
    | OutputFails
    | CloseInput
    | Take
    | Look
    | Conclude
    | Write(writeFails: bool)
    | Delete

  function Start(): State {
    State([], map[], None, [], Idle, {}, {}, false, false, [], [], [])
  }

  // ---- the reader -------------------------------------------------------------------------------

  /** How a call frame is judged, under the lock that guards the active map. */
  function Verdict(s: State, key: Key, objectParams: bool): Option<Reply> {
    if !objectParams then Some(InvalidParams)
    else if |s.calls| >= MAX_CALLS then Some(Busy)
    else if key in s.calls then Some(Duplicate)
    else None
  }

  /** The reader's own error replies; it stops reading once one cannot be written. */
  function Rejected(s: State, key: Key, reply: Reply, writeFails: bool): State {
    var frame := |s.keys|;
    if s.broken || writeFails then s.(keys := s.keys + [key], broken := true, closed := true)
    else s.(keys := s.keys + [key], responses := s.responses + [Response(frame, reply)])
  }

  function Admitted(s: State, key: Key): State {
    var frame := |s.keys|;
    s.(keys := s.keys + [key], calls := s.calls[key := frame], sending := Some(frame), accepted := s.accepted + [frame])
  }

  function ReadCall(s: State, key: Key, objectParams: bool, writeFails: bool): State {
    match Verdict(s, key, objectParams)
    case Some(reply) => Rejected(s, key, reply, writeFails)
    case None => Admitted(s, key)
  }

  function Sent(s: State): State
    requires s.sending.Some?
  {
    s.(pending := s.pending + [s.sending.value], sending := None)
  }

  // ---- cancellation -----------------------------------------------------------------------------

  function Cancelled(s: State, key: Key): State {
    if key in s.calls then s.(doomed := s.doomed + {s.calls[key]}) else s
  }

  function Swept(s: State): State {
    s.(doomed := s.doomed + s.calls.Values)
  }

  // ---- the worker -------------------------------------------------------------------------------

  function TakeNext(s: State): State
    requires s.pending != []
  {
    s.(pending := s.pending[1..], worker := Taken(s.pending[0]), started := s.started + [s.pending[0]])
  }

  /** The flag is read before the handler runs and again just before the response is written. */
  function Looked(s: State): State
    requires s.worker.Taken?
  {
    s.(worker := if s.worker.call in s.suppressed then Ended(s.worker.call) else Running(s.worker.call))
  }

  function Concluded(s: State): State
    requires s.worker.Running?
  {
    s.(worker := if s.worker.call in s.suppressed then Ended(s.worker.call) else Writing(s.worker.call))
  }

  function Written(s: State, writeFails: bool): State
    requires s.worker.Writing?
  {
    if s.broken || writeFails then s.(worker := Ended(s.worker.call), broken := true)
    else s.(worker := Ended(s.worker.call), responses := s.responses + [Response(s.worker.call, Answer)])
  }

  function Deleted(s: State): State
    requires s.worker.Ended? && s.worker.call < |s.keys|
  {
    s.(worker := Idle, calls := s.calls - {s.keys[s.worker.call]})
  }

  // ---- runs -------------------------------------------------------------------------------------

  predicate Enabled(s: State, step: Step) {
    match step
    case CallFrame(_, _, _) => !s.closed && s.sending.None?
    case SendPending => s.sending.Some? && |s.pending| < MAX_CALLS
    case CancelFrame(_) => !s.closed && s.sending.None?
    case Sweep => s.broken || s.closed
    case Suppress(call) => call in s.doomed
    case OutputFails => true
    case CloseInput => s.sending.None?
    case Take => s.worker.Idle? && s.pending != []
    case Look => s.worker.Taken?
    case Conclude => s.worker.Running?
    case Write(_) => s.worker.Writing?
    case Delete => s.worker.Ended? && s.worker.call < |s.keys|
  }

  function Next(s: State, step: Step): State
    requires Enabled(s, step)
  {
    match step
    case CallFrame(key, objectParams, writeFails) => ReadCall(s, key, objectParams, writeFails)
    case SendPending => Sent(s)
    case CancelFrame(key) => Cancelled(s, key)
    case Sweep => Swept(s)
    case Suppress(call) => s.(suppressed := s.suppressed + {call})
    case OutputFails => s.(broken := true)
    case CloseInput => s.(closed := true)
    case Take => TakeNext(s)
    case Look => Looked(s)
    case Conclude => Concluded(s)
    case Write(writeFails) => Written(s, writeFails)
    case Delete => Deleted(s)
  }

  predicate Runs(s: State, steps: seq<Step>, t: State)
    decreases |steps|
  {
    if steps == [] then s == t
    else Enabled(s, steps[0]) && Runs(Next(s, steps[0]), steps[1..], t)
  }

  // ---- the invariant ----------------------------------------------------------------------------

  function InHand(w: Worker): seq<nat> {
    if w.Idle? then [] else [w.call]
  }

  function InTransit(sending: Option<nat>): seq<nat> {
    if sending.Some? then [sending.value] else []
  }

  /** The calls between admission and deletion, oldest first. */
  function Active(s: State): seq<nat> {
    InHand(s.worker) + s.pending + InTransit(s.sending)
  }

  predicate Increasing(xs: seq<nat>) {
    forall i, j :: 0 <= i < j < |xs| ==> xs[i] < xs[j]
  }

  /** Calls are taken in the order they were admitted, and none is skipped. */
  predicate Orderly(s: State) {
    && s.accepted == s.started + s.pending + InTransit(s.sending)
    && (!s.worker.Idle? ==> s.started != [] && s.started[|s.started| - 1] == s.worker.call)
    && Increasing(s.accepted)
    && (forall n <- s.accepted :: n < |s.keys|)
    && (s.closed ==> s.sending.None?)
  }

  /** The active map holds exactly the active calls, each under its own key. */
  predicate Indexed(s: State) {
    IndexedBy(s.keys, s.calls, Active(s))
  }

  predicate IndexedBy(keys: seq<Key>, calls: map<Key, nat>, active: seq<nat>) {
    && |calls| == |active| <= MAX_CALLS
    && (forall n <- active :: n < |keys| && keys[n] in calls && calls[keys[n]] == n)
    && (forall k <- calls :: calls[k] in active && keys[calls[k]] == k)
  }

  predicate Unanswered(w: Worker, n: nat) {
    (w.Taken? || w.Running? || w.Writing?) && w.call == n
  }

  /** The worker is through with call `n`, up to deleting its key. */
  predicate Finished(s: State, n: nat) {
    n in s.started && !Unanswered(s.worker, n)
  }

  predicate AnsweredOnce(s: State) {
    && (forall i :: 0 <= i < |s.responses| ==> s.responses[i].frame < |s.keys|)
    && (forall i :: 0 <= i < |s.responses| ==>
          if s.responses[i].reply.Answer? then Finished(s, s.responses[i].frame)
          else s.responses[i].frame !in s.accepted)
    && (forall i, j :: 0 <= i < j < |s.responses| ==> s.responses[i].frame != s.responses[j].frame)
    && (forall i, j :: 0 <= i < j < |s.responses| && s.responses[i].reply.Answer? && s.responses[j].reply.Answer? ==>
          s.responses[i].frame < s.responses[j].frame)
  }

  predicate Owed(s: State, n: nat) {
    if n in s.accepted then Finished(s, n) && n !in s.suppressed else true
  }

  predicate Replied(s: State, n: nat) {
    exists i :: 0 <= i < |s.responses| && s.responses[i].frame == n
  }

  predicate NoneForgotten(s: State) {
    !s.broken ==> forall n :: 0 <= n < |s.keys| && Owed(s, n) ==> Replied(s, n)
  }

  predicate Inv(s: State) {
    Orderly(s) && Indexed(s) && AnsweredOnce(s) && NoneForgotten(s)
  }

  // ---- every step keeps it ----------------------------------------------------------------------

  lemma LongerKeysIndexed(s: State, t: State)
    requires Indexed(s) && Active(t) == Active(s) && t.calls == s.calls && s.keys <= t.keys
    ensures Indexed(t)
  {
    hide Active;
    forall n | n in Active(t) ensures n < |t.keys| && t.keys[n] in t.calls && t.calls[t.keys[n]] == n {
      assert t.keys[n] == s.keys[n];
    }
    forall k | k in t.calls ensures t.calls[k] in Active(t) && t.keys[t.calls[k]] == k {
      assert t.keys[t.calls[k]] == s.keys[t.calls[k]];
    }
  }

  /** A response to a frame that had none, where an answer must come after every earlier one. */
  lemma ReplyAdded(s: State, t: State, r: Response)
    requires AnsweredOnce(s) && t.responses == s.responses + [r]
    requires |s.keys| <= |t.keys| && r.frame < |t.keys| && t.accepted == s.accepted
    requires forall m :: Finished(s, m) ==> Finished(t, m)
    requires if r.reply.Answer? then Finished(t, r.frame) else r.frame !in t.accepted
    requires forall i :: 0 <= i < |s.responses| ==>
      && s.responses[i].frame != r.frame
      && (s.responses[i].reply.Answer? && r.reply.Answer? ==> s.responses[i].frame < r.frame)
    ensures AnsweredOnce(t)
  {
    hide Finished;
    assert forall i :: 0 <= i < |s.responses| ==> t.responses[i] == s.responses[i];
    assert t.responses[|s.responses|] == r;
  }

  lemma ReplyCounts(s: State, t: State, r: Response)
    requires t.responses == s.responses + [r]
    ensures forall n :: Replied(t, n) <==> Replied(s, n) || n == r.frame
  {
    assert t.responses[|s.responses|] == r;
    forall n | Replied(s, n) ensures Replied(t, n) {
      var i :| 0 <= i < |s.responses| && s.responses[i].frame == n;
      assert t.responses[i].frame == n;
    }
  }

  lemma RejectedKeeps(s: State, key: Key, reply: Reply, writeFails: bool)
    requires Inv(s) && !reply.Answer? && s.sending.None?
    ensures Inv(Rejected(s, key, reply, writeFails))
  {
    var t := Rejected(s, key, reply, writeFails);
    assert Orderly(t);
    assert |s.keys| !in s.accepted;
    LongerKeysIndexed(s, t);
    if !t.broken {
      ReplyAdded(s, t, Response(|s.keys|, reply));
      ReplyCounts(s, t, Response(|s.keys|, reply));
      assert forall n :: Owed(t, n) == Owed(s, n);
      hide Owed, Replied, Orderly, Indexed, AnsweredOnce;
    } else {
      assert AnsweredOnce(t);
    }
  }

  lemma AdmittedOrderly(s: State, key: Key)
    requires Orderly(s) && s.sending.None? && !s.closed
    ensures Orderly(Admitted(s, key))
  {
    var t := Admitted(s, key);
    assert t.accepted == s.accepted + [|s.keys|];
    assert t.started + t.pending + InTransit(t.sending) == (s.started + s.pending + InTransit(s.sending)) + [|s.keys|];
    forall i, j | 0 <= i < j < |t.accepted| ensures t.accepted[i] < t.accepted[j] {
      assert t.accepted[i] == s.accepted[i];
      assert s.accepted[i] in s.accepted;
    }
  }

  lemma IndexedMore(keys: seq<Key>, calls: map<Key, nat>, active: seq<nat>, key: Key)
    requires IndexedBy(keys, calls, active) && key !in calls && |calls| < MAX_CALLS
    ensures IndexedBy(keys + [key], calls[key := |keys|], active + [|keys|])
  {
    var frame, allKeys, allCalls, all := |keys|, keys + [key], calls[key := |keys|], active + [|keys|];
    assert allCalls.Keys == calls.Keys + {key};
    forall n | n in all ensures n < |allKeys| && allKeys[n] in allCalls && allCalls[allKeys[n]] == n {
      if n != frame {
        assert n in active;
      }
    }
    forall k | k in allCalls ensures allCalls[k] in all && allKeys[allCalls[k]] == k {
      if k == key {
        assert all[|active|] == frame;
      } else {
        assert calls[k] in active;
      }
    }
  }

  lemma AdmittedIndexed(s: State, key: Key)
    requires Indexed(s) && s.sending.None? && key !in s.calls && |s.calls| < MAX_CALLS
    ensures Indexed(Admitted(s, key))
  {
    hide IndexedBy;
    IndexedMore(s.keys, s.calls, Active(s), key);
    assert Active(Admitted(s, key)) == Active(s) + [|s.keys|];
  }

  lemma NewFrameNotStarted(s: State)
    requires Orderly(s)
    ensures |s.keys| !in s.started && |s.keys| !in s.accepted
  {
    forall i | 0 <= i < |s.started| ensures s.started[i] < |s.keys| {
      assert s.accepted[i] == s.started[i] && s.accepted[i] in s.accepted;
    }
  }

  lemma AdmittedKeeps(s: State, key: Key)
    requires Inv(s) && s.sending.None? && !s.closed && Verdict(s, key, true).None?
    ensures Inv(Admitted(s, key))
  {
    var t := Admitted(s, key);
    AdmittedOrderly(s, key);
    AdmittedIndexed(s, key);
    assert AnsweredOnce(t);
    NewFrameNotStarted(s);
    assert |s.keys| in t.accepted;
    hide Orderly, Indexed;
    if !t.broken {
      forall n | 0 <= n < |t.keys| && Owed(t, n) ensures Replied(t, n) {
        assert n == |s.keys| ==> !Finished(t, n);
        assert Owed(s, n);
        assert Replied(s, n);
      }
    }
  }

  lemma SentKeeps(s: State)
    requires Inv(s) && s.sending.Some?
    ensures Inv(Sent(s))
  {
    var t := Sent(s);
    assert t.started + t.pending + InTransit(t.sending) == s.started + s.pending + InTransit(s.sending);
    assert Active(t) == Active(s);
    assert forall n :: Owed(t, n) == Owed(s, n) && Replied(t, n) == Replied(s, n);
  }

  /** Cancelling, a failing write elsewhere and the end of input only raise flags. */
  predicate OnlyFlags(s: State, t: State) {
    && t == s.(doomed := t.doomed, suppressed := t.suppressed, broken := t.broken, closed := t.closed)
    && s.suppressed <= t.suppressed && (s.broken ==> t.broken) && (t.closed ==> s.closed || s.sending.None?)
  }

  lemma FlagsKeep(s: State, t: State)
    requires Inv(s) && OnlyFlags(s, t)
    ensures Inv(t)
  {
    assert Active(t) == Active(s);
    assert forall n :: Owed(t, n) ==> Owed(s, n);
    assert forall n :: Replied(t, n) == Replied(s, n);
  }

  /** Steps that leave frames, replies and flags alone and finish nothing. */
  lemma SameRecord(s: State, t: State)
    requires AnsweredOnce(s) && NoneForgotten(s)
    requires t.keys == s.keys && t.responses == s.responses && t.accepted == s.accepted
    requires t.suppressed == s.suppressed && t.broken == s.broken
    requires forall m :: Finished(t, m) == Finished(s, m)
    ensures AnsweredOnce(t) && NoneForgotten(t)
  {
    hide Finished;
    assert forall m :: Owed(t, m) == Owed(s, m) && Replied(t, m) == Replied(s, m);
  }

  lemma TakenFresh(s: State)
    requires Orderly(s) && s.pending != []
    ensures s.pending[0] !in s.started
    ensures Orderly(TakeNext(s)) && TakeNext(s).accepted == s.accepted
  {
    var t, n := TakeNext(s), s.pending[0];
    assert s.pending == [n] + t.pending;
    assert t.started + t.pending + InTransit(t.sending) == s.started + s.pending + InTransit(s.sending);
    assert s.accepted[|s.started|] == n;
    forall i | 0 <= i < |s.started| ensures s.started[i] != n {
      assert s.accepted[i] == s.started[i];
    }
  }

  lemma TakeKeeps(s: State)
    requires Inv(s) && s.worker.Idle? && s.pending != []
    ensures Inv(TakeNext(s))
  {
    hide Orderly, AnsweredOnce, NoneForgotten, Indexed, Active;
    TakenFresh(s);
    TakenRecord(s);
    TakenActive(s);
    LongerKeysIndexed(s, TakeNext(s));
  }

  lemma TakenActive(s: State)
    requires s.worker.Idle? && s.pending != []
    ensures Active(TakeNext(s)) == Active(s)
  {
    assert s.pending == [s.pending[0]] + s.pending[1..];
  }

  lemma TakenRecord(s: State)
    requires AnsweredOnce(s) && NoneForgotten(s) && s.worker.Idle? && s.pending != [] && s.pending[0] !in s.started
    ensures AnsweredOnce(TakeNext(s)) && NoneForgotten(TakeNext(s))
  {
    assert forall m :: Finished(TakeNext(s), m) == Finished(s, m);
    SameRecord(s, TakeNext(s));
  }

  /** The worker moving on without writing. */
  lemma PhaseKeeps(s: State, t: State)
    requires Inv(s) && t == s.(worker := t.worker)
    requires s.worker.Taken? || s.worker.Running? || (s.worker.Writing? && s.broken)
    requires !t.worker.Idle? && t.worker.call == s.worker.call
    requires t.worker.Ended? ==> s.broken || s.worker.call in s.suppressed
    ensures Inv(t)
  {
    assert Active(t) == Active(s);
    assert forall n :: Finished(s, n) ==> Finished(t, n);
    assert forall n :: !s.broken && Owed(t, n) ==> Owed(s, n);
    assert forall n :: Replied(t, n) == Replied(s, n);
  }

  lemma AnswerKeeps(s: State)
    requires Inv(s) && s.worker.Writing? && !s.broken
    ensures Inv(Written(s, false))
  {
    var t, n := Written(s, false), s.worker.call;
    assert Active(t) == Active(s) && Orderly(t);
    LongerKeysIndexed(s, t);
    assert n in s.started && n in s.accepted && n < |s.keys| by {
      assert n == s.started[|s.started| - 1];
      assert n == s.accepted[|s.started| - 1];
    }
    AnswersBefore(s);
    ReplyAdded(s, t, Response(n, Answer));
    ReplyCounts(s, t, Response(n, Answer));
    assert forall m :: Owed(t, m) && m != n ==> Owed(s, m);
    hide Owed, Replied, Orderly, Indexed, AnsweredOnce;
  }

  lemma AnswersBefore(s: State)
    requires Orderly(s) && AnsweredOnce(s) && s.worker.Writing?
    ensures forall i :: 0 <= i < |s.responses| ==>
      s.responses[i].frame != s.worker.call && (s.responses[i].reply.Answer? ==> s.responses[i].frame < s.worker.call)
  {
    var n := s.worker.call;
    forall i | 0 <= i < |s.responses|
      ensures s.responses[i].frame != n && (s.responses[i].reply.Answer? ==> s.responses[i].frame < n)
    {
      if s.responses[i].reply.Answer? {
        assert Finished(s, s.responses[i].frame);
        LastIsLargest(s, s.responses[i].frame);
      } else {
        assert s.accepted[|s.started| - 1] == n;
      }
    }
  }

  lemma LastIsLargest(s: State, m: nat)
    requires Orderly(s) && m in s.started && s.started != []
    ensures m <= s.started[|s.started| - 1]
  {
    var i :| 0 <= i < |s.started| && s.started[i] == m;
    assert s.accepted[i] == m && s.accepted[|s.started| - 1] == s.started[|s.started| - 1];
  }

  lemma OldestOnce(s: State)
    requires Orderly(s) && !s.worker.Idle?
    ensures s.worker.call !in s.pending + InTransit(s.sending)
  {
    var n, rest := s.worker.call, s.pending + InTransit(s.sending);
    assert s.accepted == s.started + rest;
    assert s.accepted[|s.started| - 1] == n;
    forall k | 0 <= k < |rest| ensures rest[k] != n {
      assert s.accepted[|s.started| + k] == rest[k];
    }
  }

  lemma IndexedTail(keys: seq<Key>, calls: map<Key, nat>, n: nat, rest: seq<nat>)
    requires IndexedBy(keys, calls, [n] + rest) && n !in rest
    ensures n < |keys| && IndexedBy(keys, calls - {keys[n]}, rest)
  {
    var active := [n] + rest;
    assert active[0] == n;
    assert n in active;
    var fewer := calls - {keys[n]};
    assert fewer.Keys == calls.Keys - {keys[n]};
    forall m | m in rest ensures m < |keys| && keys[m] in fewer && fewer[keys[m]] == m {
      assert m in active;
    }
    forall k | k in fewer ensures fewer[k] in rest && keys[fewer[k]] == k {
      assert calls[k] in active;
    }
  }

  lemma DeletedIndexed(s: State)
    requires Orderly(s) && Indexed(s) && s.worker.Ended?
    ensures s.worker.call < |s.keys| && Indexed(Deleted(s))
  {
    hide IndexedBy, Orderly;
    var rest := s.pending + InTransit(s.sending);
    assert Active(s) == [s.worker.call] + rest;
    OldestOnce(s);
    IndexedTail(s.keys, s.calls, s.worker.call, rest);
    assert Active(Deleted(s)) == rest;
  }

  lemma DeletedKeeps(s: State)
    requires Inv(s) && s.worker.Ended?
    ensures s.worker.call < |s.keys| && Inv(Deleted(s))
  {
    DeletedIndexed(s);
    var t := Deleted(s);
    assert forall m :: Finished(t, m) == Finished(s, m);
    SameRecord(s, t);
    assert Orderly(t) by {
      hide Indexed, AnsweredOnce, NoneForgotten;
    }
    hide Orderly, Indexed, AnsweredOnce, NoneForgotten;
  }

  lemma StepKeepsInv(s: State, step: Step)
    requires Inv(s) && Enabled(s, step)
    ensures Inv(Next(s, step))
  {
    hide Inv;
    match step
    case CallFrame(key, objectParams, writeFails) =>
      match Verdict(s, key, objectParams) {
        case Some(reply) => RejectedKeeps(s, key, reply, writeFails);
        case None => AdmittedKeeps(s, key);
      }
    case SendPending => SentKeeps(s);
    case CancelFrame(key) => FlagsKeep(s, Cancelled(s, key));
    case Sweep => FlagsKeep(s, Swept(s));
    case Suppress(_) => FlagsKeep(s, Next(s, step));
    case OutputFails => FlagsKeep(s, Next(s, step));
    case CloseInput => FlagsKeep(s, Next(s, step));
    case Take => TakeKeeps(s);
    case Look => PhaseKeeps(s, Looked(s));
    case Conclude => PhaseKeeps(s, Concluded(s));
    case Write(writeFails) =>
      if s.broken {
        PhaseKeeps(s, Written(s, writeFails));
      } else if writeFails {
        var broke := s.(broken := true);
        FlagsKeep(s, broke);
        PhaseKeeps(broke, Written(s, true));
      } else {
        AnswerKeeps(s);
      }
    case Delete => DeletedKeeps(s);
  }

  lemma {:induction false} RunKeepsInv(s: State, steps: seq<Step>, t: State)
    requires Inv(s) && Runs(s, steps, t)
    ensures Inv(t)
    decreases |steps|
  {
    if steps != [] {
      StepKeepsInv(s, steps[0]);
      RunKeepsInv(Next(s, steps[0]), steps[1..], t);
    }
  }

  // ---- over whole runs --------------------------------------------------------------------------

  ghost predicate Reachable(s: State) {
    exists steps: seq<Step> :: Runs(Start(), steps, s)
  }

  lemma ReachableInv(s: State)
    requires Reachable(s)
    ensures Inv(s)
  {
    var steps: seq<Step> :| Runs(Start(), steps, s);
    RunKeepsInv(Start(), steps, s);
  }

  /** The reader sends after releasing the lock, yet the channel always has room. */
  lemma SendNeverBlocks(s: State)
    requires Reachable(s) && s.sending.Some?
    ensures Enabled(s, SendPending)
  {
    ReachableInv(s);
    assert |Active(s)| <= MAX_CALLS;
  }

  /** At most 64 calls are active and no two share a key. */
  lemma ActiveKeysUnique(s: State)
    requires Reachable(s)
    ensures |Active(s)| == |s.calls| <= MAX_CALLS
    ensures forall i, j :: 0 <= i < j < |Active(s)| ==>
      Active(s)[i] < Active(s)[j] < |s.keys| && s.keys[Active(s)[i]] != s.keys[Active(s)[j]]
  {
    ReachableInv(s);
    ActiveIsTail(s);
    forall i, j | 0 <= i < j < |Active(s)|
      ensures Active(s)[i] < Active(s)[j] < |s.keys| && s.keys[Active(s)[i]] != s.keys[Active(s)[j]]
    {
      assert Active(s)[i] in Active(s) && Active(s)[j] in Active(s);
    }
  }

  lemma IncreasingTail(xs: seq<nat>, ys: seq<nat>)
    requires Increasing(xs + ys)
    ensures Increasing(ys)
  {
    forall i, j | 0 <= i < j < |ys| ensures ys[i] < ys[j] {
      assert (xs + ys)[|xs| + i] == ys[i] && (xs + ys)[|xs| + j] == ys[j];
    }
  }

  lemma ActiveIsTail(s: State)
    requires Orderly(s)
    ensures Increasing(Active(s))
  {
    var kept := if s.worker.Idle? then s.started else s.started[..|s.started| - 1];
    assert s.started == kept + InHand(s.worker);
    assert s.accepted == kept + Active(s);
    IncreasingTail(kept, Active(s));
  }

  /** First in, first out: the worker has taken a prefix of what was admitted, and answered in that order. */
  lemma ExecutionIsFifo(s: State)
    requires Reachable(s)
    ensures s.started <= s.accepted && Increasing(s.accepted)
    ensures forall i, j ::
              0 <= i < j < |s.responses| && s.responses[i].reply.Answer? && s.responses[j].reply.Answer? ==>
      s.responses[i].frame < s.responses[j].frame
  {
    ReachableInv(s);
    assert s.accepted == s.started + (s.pending + InTransit(s.sending));
  }

  /** No call frame is ever replied to twice, whatever is cancelled, refused or broken. */
  lemma OneReplyPerFrame(s: State, i: nat, j: nat)
    requires Reachable(s) && i < |s.responses| && j < |s.responses| && s.responses[i].frame == s.responses[j].frame
    ensures i == j
  {
    ReachableInv(s);
  }

  /** While output is healthy, every call frame read is replied to once it is no longer active, unless suppressed. */
  lemma HealthyFramesAnswered(s: State, frame: nat) returns (i: nat)
    requires Reachable(s) && !s.broken && frame < |s.keys| && frame !in Active(s) && frame !in s.suppressed
    ensures i < |s.responses| && s.responses[i].frame == frame
    ensures s.responses[i].reply.Answer? <==> frame in s.accepted
  {
    ReachableInv(s);
    assert s.accepted == s.started + (s.pending + InTransit(s.sending));
    if !s.worker.Idle? {
      assert Active(s)[0] == s.worker.call && s.worker.call in Active(s);
    }
    assert frame in s.pending ==> frame in Active(s);
    assert frame in InTransit(s.sending) ==> frame in Active(s);
    assert Owed(s, frame);
    i :| 0 <= i < |s.responses| && s.responses[i].frame == frame;
    assert s.responses[i].reply.Answer? ==> Finished(s, frame);
  }

  predicate Answered(s: State, frame: nat) {
    exists i :: 0 <= i < |s.responses| && s.responses[i] == Response(frame, Answer)
  }

  /** Once the flag is up, a call not yet past the worker's last look is never answered. */
  lemma {:induction false} CancelledInTimeStaysSilent(s: State, steps: seq<Step>, t: State, frame: nat)
    requires Runs(s, steps, t) && frame in s.suppressed && s.worker != Writing(frame) && !Answered(s, frame)
    ensures !Answered(t, frame)
    decreases |steps|
  {
    if steps != [] {
      var next := Next(s, steps[0]);
      SilentStep(s, steps[0], frame);
      CancelledInTimeStaysSilent(next, steps[1..], t, frame);
    }
  }

  lemma SilentStep(s: State, step: Step, frame: nat)
    requires Enabled(s, step) && frame in s.suppressed && s.worker != Writing(frame) && !Answered(s, frame)
    ensures var next := Next(s, step);
      frame in next.suppressed && next.worker != Writing(frame) && !Answered(next, frame)
  {
    var next := Next(s, step);
    assert next.responses == s.responses ||
      (|next.responses| == |s.responses| + 1 && next.responses[..|s.responses|] == s.responses &&
       next.responses[|s.responses|] != Response(frame, Answer));
    forall i | 0 <= i < |next.responses| ensures next.responses[i] != Response(frame, Answer) {
      if i < |s.responses| {
        assert next.responses[i] == next.responses[..|s.responses|][i] == s.responses[i];
      }
    }
  }

  // ---- shutting down ----------------------------------------------------------------------------

  predicate WorkerStep(step: Step) {
    step.Take? || step.Look? || step.Conclude? || step.Write? || step.Delete?
  }

  function WorkerSteps(steps: seq<Step>): nat {
    if steps == [] then 0 else (if WorkerStep(steps[0]) then 1 else 0) + WorkerSteps(steps[1..])
  }

  function PhaseLeft(w: Worker): nat {
    match w
    case Idle => 0
    case Taken(_) => 4
    case Running(_) => 3
    case Writing(_) => 2
    case Ended(_) => 1
  }

  function WorkLeft(s: State): nat {
    5 * |s.pending| + PhaseLeft(s.worker)
  }

  /** The worker's next step, when it has one. */
  lemma WorkerNeverStuck(s: State) returns (step: Step)
    requires Inv(s) && s.closed && |s.calls| > 0
    ensures WorkerStep(step) && Enabled(s, step)
  {
    assert |Active(s)| > 0;
    step := match s.worker
      case Idle => Take
      case Taken(_) => Look
      case Running(_) => Conclude
      case Writing(_) => Write(false)
      case Ended(_) => Delete;
    if s.worker.Ended? {
      assert Active(s)[0] == s.worker.call && Active(s)[0] in Active(s);
    } else if s.worker.Idle? {
      assert Active(s) == s.pending;
    }
  }

  lemma WorkShrinks(s: State, step: Step)
    requires s.closed && s.sending.None? && Enabled(s, step)
    ensures Next(s, step).closed
    ensures WorkLeft(Next(s, step)) + (if WorkerStep(step) then 1 else 0) <= WorkLeft(s)
  {
  }

  /** After the input is closed the worker finishes in a bounded number of steps, leaving nothing active. */
  lemma {:induction false} ShutdownDrains(s: State, steps: seq<Step>, t: State)
    requires Inv(s) && s.closed && Runs(s, steps, t)
    ensures WorkerSteps(steps) + WorkLeft(t) <= WorkLeft(s) <= 5 * MAX_CALLS
    ensures WorkLeft(t) == 0 <==> t.calls == map[]
    decreases |steps|
  {
    if steps == [] {
      assert |Active(s)| == |s.pending| + |InHand(s.worker)|;
      assert s.calls == map[] <==> |s.calls| == 0;
    } else {
      StepKeepsInv(s, steps[0]);
      WorkShrinks(s, steps[0]);
      ShutdownDrains(Next(s, steps[0]), steps[1..], t);
      assert |Active(s)| == |s.pending| + |InHand(s.worker)|;
    }
  }

  // ---- draining the channel ---------------------------------------------------------------------

  predicate QueueKnown(s: State) {
    forall i :: 0 <= i < |s.pending| ==> s.pending[i] < |s.keys|
  }

  /** One call from channel to deletion, with nothing beside it. */
  function OneCall(s: State, writeFails: bool): State
    requires s.worker.Idle? && s.pending != [] && s.pending[0] < |s.keys|
  {
    var call := s.pending[0];
    var taken := s.(pending := s.pending[1..], started := s.started + [call]);
    var executed := if call in s.suppressed then taken else Executed(taken, call, writeFails);
    executed.(calls := s.calls - {s.keys[call]})
  }

  /** Every branch of the execution ends in one write, unless the call was suppressed meanwhile. */
  function Executed(s: State, call: nat, writeFails: bool): State {
    if s.broken || writeFails then s.(broken := true) else s.(responses := s.responses + [Response(call, Answer)])
  }

  /** Draining the channel alone. */
  function Drained(s: State, fails: nat -> bool): State
    requires s.worker.Idle? && QueueKnown(s)
    decreases |s.pending|
  {
    if s.pending == [] then s else Drained(OneCall(s, fails(s.pending[0])), fails)
  }

  /** One call of the drain is a run of the worker's own steps. */
  lemma OneCallRuns(s: State, writeFails: bool) returns (steps: seq<Step>)
    requires s.worker.Idle? && s.pending != [] && s.pending[0] < |s.keys|
    ensures Runs(s, steps, OneCall(s, writeFails))
  {
    var call, taken := s.pending[0], TakeNext(s);
    if call in s.suppressed {
      SkippedRuns(taken, call);
      steps := [Take] + [Look, Delete];
    } else {
      ExecutedRuns(taken, call, writeFails);
      steps := [Take] + [Look, Conclude, Write(writeFails), Delete];
    }
    hide Runs;
    RunsOn(s, Take, steps[1..], OneCall(s, writeFails));
    assert steps == [Take] + steps[1..];
  }

  lemma SkippedRuns(s: State, call: nat)
    requires s.worker == Taken(call) && call < |s.keys| && call in s.suppressed
    ensures Runs(s, [Look, Delete], s.(worker := Idle, calls := s.calls - {s.keys[call]}))
  {
    var end := s.(worker := Idle, calls := s.calls - {s.keys[call]});
    RunsNowhere(end);
    hide Runs;
    RunsOn(Looked(s), Delete, [], end);
    RunsOn(s, Look, [Delete], end);
  }

  lemma ExecutedRuns(s: State, call: nat, writeFails: bool)
    requires s.worker == Taken(call) && call < |s.keys| && call !in s.suppressed
    ensures Runs(s, [Look, Conclude, Write(writeFails), Delete],
                 Executed(s, call, writeFails).(worker := Idle, calls := s.calls - {s.keys[call]}))
  {
    var end := Executed(s, call, writeFails).(worker := Idle, calls := s.calls - {s.keys[call]});
    var looked := Looked(s);
    var concluded := Concluded(looked);
    var written := Written(concluded, writeFails);
    RunsNowhere(end);
    hide Runs;
    RunsOn(written, Delete, [], end);
    RunsOn(concluded, Write(writeFails), [Delete], end);
    RunsOn(looked, Conclude, [Write(writeFails), Delete], end);
    RunsOn(s, Look, [Conclude, Write(writeFails), Delete], end);
  }

  lemma RunsNowhere(s: State)
    ensures Runs(s, [], s)
  {
  }

  lemma RunsOn(s: State, step: Step, rest: seq<Step>, t: State)
    requires Enabled(s, step) && Runs(Next(s, step), rest, t)
    ensures Runs(s, [step] + rest, t)
  {
    assert ([step] + rest)[1..] == rest;
  }

  lemma OneCallKeeps(s: State, writeFails: bool)
    requires Inv(s) && s.worker.Idle? && s.pending != []
    ensures s.pending[0] < |s.keys| && Inv(OneCall(s, writeFails))
  {
    QueuedCallsKnown(s);
    var steps := OneCallRuns(s, writeFails);
    RunKeepsInv(s, steps, OneCall(s, writeFails));
  }

  lemma QueuedCallsKnown(s: State)
    requires Inv(s)
    ensures QueueKnown(s)
  {
    assert forall i :: 0 <= i < |s.pending| ==> s.pending[i] in Active(s);
  }

  lemma NothingLeft(s: State)
    requires Inv(s) && s.worker.Idle? && s.sending.None? && s.pending == []
    ensures s.calls == map[] && s.accepted == s.started
  {
    assert Active(s) == [];
    assert |s.calls| == 0;
  }

  /** With output healthy and nothing cancelled, draining answers every queued call in order and forgets it. */
  lemma {:induction false} DrainAnswersInOrder(s: State, fails: nat -> bool)
    requires Inv(s) && s.worker.Idle? && s.sending.None? && !s.broken && s.suppressed == {}
    requires forall i :: 0 <= i < |s.pending| ==> !fails(s.pending[i])
    ensures QueueKnown(s) && Drained(s, fails).responses == s.responses + Answers(s.pending)
    ensures Drained(s, fails).calls == map[] && Drained(s, fails).started == s.accepted
    decreases |s.pending|
  {
    QueuedCallsKnown(s);
    if s.pending == [] {
      NothingLeft(s);
    } else {
      hide Inv;
      var n := s.pending[0];
      OneCallKeeps(s, false);
      OneCallAnswers(s);
      hide OneCall;
      var next := OneCall(s, false);
      assert Drained(s, fails) == Drained(next, fails);
      hide Drained;
      DrainAnswersInOrder(next, fails);
      AnswersFirst(s.pending);
      hide Answers;
      Regroup(s.responses, [Response(n, Answer)], Answers(s.pending[1..]));
    }
  }

  lemma OneCallAnswers(s: State)
    requires s.worker.Idle? && s.pending != [] && s.pending[0] < |s.keys| && !s.broken && s.suppressed == {}
    ensures var next := OneCall(s, false);
      && next == s.(pending := s.pending[1..], responses := s.responses + [Response(s.pending[0], Answer)],
                    started := next.started, calls := next.calls)
  {
  }

  lemma AnswersFirst(calls: seq<nat>)
    requires calls != []
    ensures Answers(calls) == [Response(calls[0], Answer)] + Answers(calls[1..])
  {
  }

  function Answers(calls: seq<nat>): seq<Response> {
    seq(|calls|, i requires 0 <= i < |calls| => Response(calls[i], Answer))
  }

  // ---- the runtime object -----------------------------------------------------------------------

  class Runtime {
    var keys: seq<Key>
    var calls: map<Key, nat>
    var pending: seq<nat>
    var worker: Worker
    var suppressed: set<nat>
    var broken: bool
    var closed: bool
    var responses: seq<Response>
    ghost var sending: Option<nat>
    ghost var doomed: set<nat>
    ghost var accepted: seq<nat>
    ghost var started: seq<nat>

    ghost function Now(): State
      reads this
    {
      State(keys, calls, sending, pending, worker, doomed, suppressed, broken, closed, responses, accepted, started)
    }

    constructor ()
      ensures Now() == Start() && Inv(Now())
    {
      keys, calls, pending, worker := [], map[], [], Idle;
      suppressed, broken, closed, responses := {}, false, false, [];
      sending, doomed, accepted, started := None, {}, [], [];
      new;
    }

    /** Admission and the send that follows it; `false` when the reader must stop. */
    method QueueToolCall(key: Key, objectParams: bool, writeFails: bool) returns (ok: bool)
      requires Inv(Now()) && sending.None? && !closed
      modifies this
      ensures Inv(Now()) && sending.None?
      ensures var read := ReadCall(old(Now()), key, objectParams, writeFails);
        Now() == if read.sending.Some? then Sent(read) else read
      ensures ok == !closed
    {
      ghost var before := Now();
      StepKeepsInv(before, CallFrame(key, objectParams, writeFails));
      RoomToSend(before, key);
      hide Inv;
      if !objectParams {
        ok := Reject(key, InvalidParams, writeFails);
      } else if |calls| >= MAX_CALLS {
        ok := Reject(key, Busy, writeFails);
      } else if key in calls {
        ok := Reject(key, Duplicate, writeFails);
      } else {
        StepKeepsInv(Admitted(before, key), SendPending);
        Admit(key);
        ok := true;
      }
    }

    method Admit(key: Key)
      requires sending.None? && |pending| < MAX_CALLS
      modifies this
      ensures Now() == Sent(Admitted(old(Now()), key))
    {
      calls := calls[key := |keys|];
      pending := pending + [|keys|];
      accepted := accepted + [|keys|];
      keys := keys + [key];
    }

    method Reject(key: Key, reply: Reply, writeFails: bool) returns (ok: bool)
      requires !closed
      modifies this
      ensures Now() == Rejected(old(Now()), key, reply, writeFails)
      ensures ok == !closed
    {
      if broken || writeFails {
        broken, closed := true, true;
      } else {
        responses := responses + [Response(|keys|, reply)];
      }
      keys := keys + [key];
      ok := !closed;
    }

    /** Flags every active call, one after another. */
    method CancelAll()
      requires Inv(Now())
      modifies this
      ensures Inv(Now())
      ensures Now() == Swept(old(Now())).(suppressed := old(suppressed) + old(calls).Values)
    {
      hide Inv;
      ghost var before := Now();
      var states := calls.Values;
      doomed := doomed + states;
      var left := states;
      while left != {}
        invariant left <= states && suppressed == old(suppressed) + (states - left)
        modifies `suppressed
        decreases left
      {
        var call :| call in left;
        suppressed := suppressed + {call};
        left := left - {call};
      }
      assert states - left == states;
      SweptFlagsKeep(before);
    }

    /** The worker's loop once the channel is closed and nothing else is running. */
    method RunCalls(fails: nat -> bool)
      requires Inv(Now()) && worker.Idle? && sending.None?
      modifies this
      ensures Inv(Now()) && pending == [] && calls == map[]
      ensures QueueKnown(old(Now())) && Now() == Drained(old(Now()), fails)
    {
      hide Inv, OneCall;
      QueuedCallsKnown(Now());
      while pending != []
        invariant Inv(Now()) && worker.Idle? && sending.None?
        invariant QueueKnown(Now()) && Drained(Now(), fails) == Drained(old(Now()), fails)
        decreases |pending|
      {
        RunOneCall(fails(pending[0]));
        QueuedCallsKnown(Now());
      }
      NothingLeft(Now());
    }

    method RunOneCall(writeFails: bool)
      requires Inv(Now()) && worker.Idle? && pending != []
      modifies this
      ensures old(pending)[0] < |old(keys)|
      ensures Inv(Now()) && Now() == OneCall(old(Now()), writeFails)
      ensures worker == old(worker) && sending == old(sending) && pending == old(pending)[1..]
    {
      hide Inv;
      OneCallKeeps(Now(), writeFails);
      hide Executed;
      var call := pending[0];
      pending := pending[1..];
      started := started + [call];
      if call !in suppressed {
        ExecuteToolCall(call, writeFails);
      }
      calls := calls - {keys[call]};
    }

    method ExecuteToolCall(call: nat, writeFails: bool)
      modifies `broken, `responses
      ensures Now() == Executed(old(Now()), call, writeFails)
    {
      if broken || writeFails {
        broken := true;
      } else {
        responses := responses + [Response(call, Answer)];
      }
    }
  }

  lemma SweptFlagsKeep(s: State)
    requires Inv(s)
    ensures Inv(Swept(s).(suppressed := s.suppressed + s.calls.Values))
  {
    FlagsKeep(s, Swept(s).(suppressed := s.suppressed + s.calls.Values));
  }

  lemma RoomToSend(s: State, key: Key)
    requires Inv(s) && s.sending.None? && !s.closed
    ensures |s.calls| < MAX_CALLS ==> |s.pending| < MAX_CALLS
  {
    assert |Active(s)| >= |s.pending|;
  }
}
