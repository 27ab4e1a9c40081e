/**
 The race between an ending invocation and the identity requests made under it: two flags
 with sequentially consistent loads and stores, every one of them a separate step.
 */
module InvocationDrop {

  type Asker = nat

  /** Where the destructor is. */
  datatype DropPc = Running | EndedStored | MustRevoke | Finished

  /** Where one identity request is. */
  datatype AskPc = Asking | SawLive | TouchedStored | HandedOut | MustRetire | Refused

  datatype Invocation = Invocation(
    touched: bool, ended: bool, revoked: bool, drop: DropPc, askers: map<Asker, AskPc>)

  const FRESH := Invocation(false, false, false, Running, map[])

  datatype Step =
    | Arrive(asker: Asker)
    | LoadEnded(asker: Asker)
    | StoreTouched(asker: Asker)
    | ReloadEnded(asker: Asker)
    | Retire(asker: Asker)
    | StoreEnded
    | LoadTouched
    | Revoke

  predicate At(v: Invocation, asker: Asker, pc: AskPc) {
    asker in v.askers && v.askers[asker] == pc
  }

  predicate Enabled(v: Invocation, s: Step) {
    match s
    case Arrive(k) => k !in v.askers
    case LoadEnded(k) => At(v, k, Asking)
    case StoreTouched(k) => At(v, k, SawLive)
    case ReloadEnded(k) => At(v, k, TouchedStored)
    case Retire(k) => At(v, k, MustRetire)
    case StoreEnded => v.drop == Running
    case LoadTouched => v.drop == EndedStored
    case Revoke => v.drop == MustRevoke
  }

  function Next(v: Invocation, s: Step): Invocation
    requires Enabled(v, s)
  {
    match s
    case Arrive(k) => v.(askers := v.askers[k := Asking])
    case LoadEnded(k) => v.(askers := v.askers[k := if v.ended then Refused else SawLive])
    case StoreTouched(k) => v.(touched := true, askers := v.askers[k := TouchedStored])
    case ReloadEnded(k) => v.(askers := v.askers[k := if v.ended then MustRetire else HandedOut])
    case Retire(k) => v.(revoked := true, askers := v.askers[k := Refused])
    case StoreEnded => v.(ended := true, drop := EndedStored)
    case LoadTouched => v.(drop := if v.touched then MustRevoke else Finished)
    case Revoke => v.(revoked := true, drop := Finished)
  }

  ghost predicate Feasible(v: Invocation, steps: seq<Step>)
    decreases |steps|, 0
  {
    |steps| == 0
    || (Feasible(v, steps[..|steps| - 1]) && Enabled(Run(v, steps[..|steps| - 1]), steps[|steps| - 1]))
  }

  ghost function Run(v: Invocation, steps: seq<Step>): Invocation
    requires Feasible(v, steps)
    decreases |steps|, 1
  {
    if |steps| == 0 then v else Next(Run(v, steps[..|steps| - 1]), steps[|steps| - 1])
  }

  predicate PastTouch(pc: AskPc) {
    pc == TouchedStored || pc == HandedOut || pc == MustRetire
  }

  /** An asker past its store left `touched` set; one handed out before the end; and a destructor
      that finished without revoking loaded `touched` before any store. */
  ghost predicate Sound(v: Invocation) {
    && (v.ended <==> v.drop != Running)
    && (forall k <- v.askers :: PastTouch(v.askers[k]) ==> v.touched)
    && (forall k <- v.askers :: v.askers[k] == MustRetire ==> v.ended)
    && (v.drop == MustRevoke ==> v.touched)
    && (v.drop == Finished && !v.revoked ==> forall k <- v.askers :: v.askers[k] != HandedOut)
    && (v.revoked ==> v.touched && v.ended)
  }

  lemma StepSound(v: Invocation, s: Step)
    requires Sound(v) && Enabled(v, s)
    ensures Sound(Next(v, s))
  {
  }

  lemma {:induction false} RunSound(steps: seq<Step>)
    requires Feasible(FRESH, steps)
    ensures Sound(Run(FRESH, steps))
  {
    if |steps| > 0 {
      hide Sound, Enabled, Next;
      var init := steps[..|steps| - 1];
      RunSound(init);
      StepSound(Run(FRESH, init), steps[|steps| - 1]);
    } else {
      assert Sound(FRESH);
    }
  }

  /** If any request ever handed the identity out, a completed drop has revoked it; and an
      invocation nobody asked about leaves no marker behind. */
  lemma EndedInvocationIsDead(steps: seq<Step>, k: Asker)
    requires Feasible(FRESH, steps)
    ensures var v := Run(FRESH, steps);
            && (v.drop == Finished && At(v, k, HandedOut) ==> v.revoked)
            && (v.revoked ==> v.ended && v.touched)
  {
    RunSound(steps);
  }

  /** Once the end is stored nothing more is handed out, wherever each request was at that moment. */
  lemma {:induction false} EndedHandsOutNothing(v: Invocation, steps: seq<Step>, k: Asker)
    requires v.ended && Feasible(v, steps)
    ensures Run(v, steps).ended && (At(Run(v, steps), k, HandedOut) <==> At(v, k, HandedOut))
    decreases |steps|
  {
    if |steps| > 0 {
      EndedHandsOutNothing(v, steps[..|steps| - 1], k);
    }
  }

  /** The reload matters: without it a request could hand the identity out after the drop had
      already decided there was nothing to revoke. */
  lemma ReloadIsNecessary(k: Asker)
    ensures var steps := [Arrive(k), LoadEnded(k), StoreEnded, LoadTouched, StoreTouched(k)];
            && Feasible(FRESH, steps)
            && var v := Run(FRESH, steps); v.drop == Finished && !v.revoked && At(v, k, TouchedStored)
  {
    var steps := [Arrive(k), LoadEnded(k), StoreEnded, LoadTouched, StoreTouched(k)];
    assert steps[..4][..3] == steps[..3] && steps[..3][..2] == steps[..2] && steps[..2][..1] == steps[..1];
    assert steps[..1][..0] == [];
    assert Feasible(FRESH, []) && Run(FRESH, []) == FRESH;
    assert Feasible(FRESH, steps[..1]) && Run(FRESH, steps[..1]).askers == map[k := Asking];
    assert Feasible(FRESH, steps[..2]) && Run(FRESH, steps[..2]).askers == map[k := SawLive];
    assert Feasible(FRESH, steps[..3]) && Run(FRESH, steps[..3]).drop == EndedStored;
    assert Feasible(FRESH, steps[..4]) && Run(FRESH, steps[..4]).drop == Finished;
  }

  /** A request that comes after the end is stored is refused at once and leaves no trace. */
  lemma LateRequestRefused(v: Invocation, k: Asker)
    requires v.ended && k !in v.askers
    ensures Feasible(v, [Arrive(k), LoadEnded(k)])
    ensures Run(v, [Arrive(k), LoadEnded(k)]) == v.(askers := v.askers[k := Refused])
  {
    RunPair(v, Arrive(k), LoadEnded(k));
    assert v.askers[k := Asking][k := Refused] == v.askers[k := Refused];
  }

  /** One that finds the end stored after it has left its trace revokes the identity itself, and is refused. */
  lemma OvertakenRequestRevokes(v: Invocation, k: Asker)
    requires v.ended && At(v, k, TouchedStored)
    ensures Feasible(v, [ReloadEnded(k), Retire(k)])
    ensures Run(v, [ReloadEnded(k), Retire(k)]) == v.(revoked := true, askers := v.askers[k := Refused])
  {
    RunPair(v, ReloadEnded(k), Retire(k));
    assert v.askers[k := MustRetire][k := Refused] == v.askers[k := Refused];
  }

  lemma RunPair(v: Invocation, s: Step, t: Step)
    requires Enabled(v, s) && Enabled(Next(v, s), t)
    ensures Feasible(v, [s, t]) && Run(v, [s, t]) == Next(Next(v, s), t)
  {
    assert [s, t][..1] == [s] && [s][..0] == [];
    assert Feasible(v, []) && Run(v, []) == v;
    assert Feasible(v, [s]) && Run(v, [s]) == Next(v, s);
  }
}
