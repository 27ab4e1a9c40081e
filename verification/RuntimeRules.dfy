/**
 What the runtime makes of a frame, how many calls it holds, and that a cancellation reaches its call.
 */
module RuntimeRules {
  import opened Wrappers
  import opened McpRuntime

  /** The error a call frame is refused with, if it is refused: its parameters first, then sixty-four calls
      already active, then its own key among them. */
  ghost predicate RefusedWith(s: State, key: Key, objectParams: bool, reply: Reply) {
    match reply
    case InvalidParams => !objectParams
    case Busy => objectParams && |s.calls| >= 64
    case Duplicate => objectParams && |s.calls| < 64 && key in s.calls
    case Answer => false
  }

  /** A call frame is numbered and then refused or admitted. A refusal is written, or, when it cannot be, ends
      reading; an admitted call is active under its key and on its way to the channel. */
  lemma FrameRule(s: State, key: Key, objectParams: bool, writeFails: bool) returns (t: State)
    requires !s.closed && s.sending.None?
    ensures Enabled(s, CallFrame(key, objectParams, writeFails))
    ensures t == Next(s, CallFrame(key, objectParams, writeFails))
    ensures t.keys == s.keys + [key]
    ensures forall reply :: RefusedWith(s, key, objectParams, reply) ==>
              && t.calls == s.calls && t.sending == None && t.accepted == s.accepted
              && (if s.broken || writeFails then t.broken && t.closed && t.responses == s.responses
                  else t.broken == t.closed == false && t.responses == s.responses + [Response(|s.keys|, reply)])
    ensures objectParams && |s.calls| < 64 && key !in s.calls ==>
              && t.calls == s.calls[key := |s.keys|] && t.sending == Some(|s.keys|)
              && t.accepted == s.accepted + [|s.keys|]
              && t.responses == s.responses && t.broken == s.broken && !t.closed
  {
    t := Next(s, CallFrame(key, objectParams, writeFails));
  }

  /** At most sixty-four calls are active or waiting in the channel. */
  lemma BoundRule(s: State)
    requires Reachable(s)
    ensures |s.calls| <= 64 && |s.pending| <= 64
  {
    ActiveKeysUnique(s);
  }

  /** A cancel frame finds the call under its key and can then flag it; without one it changes nothing. */
  lemma CancelReaches(s: State, key: Key) returns (t: State)
    requires !s.closed && s.sending.None?
    ensures key !in s.calls ==> Runs(s, [CancelFrame(key)], t) && t == s
    ensures key in s.calls ==>
              && Runs(s, [CancelFrame(key), Suppress(s.calls[key])], t)
              && t == s.(doomed := s.doomed + {s.calls[key]}, suppressed := s.suppressed + {s.calls[key]})
  {
    t := s;
    if key in s.calls {
      var found := Next(s, CancelFrame(key));
      t := Next(found, Suppress(s.calls[key]));
      RunsTwo(s, CancelFrame(key), Suppress(s.calls[key]));
    } else {
      assert [CancelFrame(key)][1..] == [];
    }
  }

  lemma RunsTwo(s: State, first: Step, second: Step)
    requires Enabled(s, first) && Enabled(Next(s, first), second)
    ensures Runs(s, [first, second], Next(Next(s, first), second))
  {
    var steps := [first, second];
    assert steps[1..] == [second] && steps[1..][1..] == [];
    assert Runs(Next(Next(s, first), second), [], Next(Next(s, first), second));
    assert Runs(Next(s, first), [second], Next(Next(s, first), second)) by {
      assert [second][1..] == [];
    }
  }

  /** Once output is broken or input closed every active call can be found and flagged. */
  lemma SweepReaches(s: State, key: Key) returns (t: State)
    requires (s.broken || s.closed) && key in s.calls
    ensures Runs(s, [Sweep, Suppress(s.calls[key])], t) && s.calls[key] in t.suppressed
    ensures t.responses == s.responses && t.worker == s.worker && t.calls == s.calls && t.pending == s.pending
  {
    assert s.calls[key] in s.calls.Values;
    t := Next(Next(s, Sweep), Suppress(s.calls[key]));
    RunsTwo(s, Sweep, Suppress(s.calls[key]));
  }
}
