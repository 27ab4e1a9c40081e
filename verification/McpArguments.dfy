/**
 Tool arguments: what a manifest may declare, how a call's arguments are resolved against the
 declaration, and what the resolver's loop comes to.
 */
module McpArguments {
  import opened Wrappers
  import opened Decimals
  import opened WireNumbers

  // ---- values -----------------------------------------------------------------------------

  datatype Json =
    Null | Bool(b: bool) | Str(s: string) | Num(l: Lexeme) | Arr(items: seq<Json>) | Obj(fields: map<string, Json>)

  type Fields = map<string, Json>

  /** Numbers compare by key, everything else by its encoding, in which a number is its lexeme. */
  predicate ValuesEqual(a: Json, b: Json) {
    if a.Num? && b.Num? then KeyText(Normalise(a.l)) == KeyText(Normalise(b.l)) else a == b
  }

  predicate Contains(values: seq<Json>, v: Json) {
    exists i :: 0 <= i < |values| && ValuesEqual(values[i], v)
  }

  // ---- declarations ------------------------------------------------------------------------

  datatype Kind = PathKind | HostKind | NameKind | TextKind | NumberKind | IntegerKind | BoolKind

  datatype Condition =
    ArgPresent(arg: string) | ArgEquals(arg: string, value: Json) | ArgNotEquals(arg: string, value: Json)

  datatype Arg = Arg(
    name: string, kind: Kind, required: bool, repeatable: bool, choices: seq<Json>,
    default: Option<Json>, requiredWhen: Option<Condition>)

  predicate ScalarOk(kind: Kind, v: Json) {
    match kind
    case BoolKind => v.Bool?
    case IntegerKind => v.Num? && GoDecode(v.l).Some?
    case NumberKind => v.Num?
    case _ => v.Str?
  }

  predicate CallScalarOk(a: Arg, v: Json) {
    ScalarOk(a.kind, v) && (a.choices != [] ==> Contains(a.choices, v))
  }

  predicate ValueOk(a: Arg, v: Json) {
    if a.repeatable then v.Arr? && forall i :: 0 <= i < |v.items| ==> CallScalarOk(a, v.items[i])
    else CallScalarOk(a, v)
  }

  function Names(args: seq<Arg>): set<string> {
    set a <- args :: a.name
  }

  predicate ChoicesOk(a: Arg) {
    && (forall i :: 0 <= i < |a.choices| ==> ScalarOk(a.kind, a.choices[i]))
    && (forall i, j :: 0 <= j < i < |a.choices| ==> !ValuesEqual(a.choices[i], a.choices[j]))
  }

  /** A condition looks at an earlier argument, and its own argument is otherwise plain. */
  predicate ConditionOk(earlier: set<string>, a: Arg) {
    a.requiredWhen.Some? ==>
      && a.requiredWhen.value.arg in earlier
      && (!a.requiredWhen.value.ArgPresent? ==> a.requiredWhen.value.value != Null)
      && !a.required && !a.repeatable && a.default.None?
  }

  /** Unicode white space, as trimming a name takes it off. */
  predicate IsSpace(c: char) {
    || '\t' <= c <= '\r' || c == ' ' || c == '\U{85}' || c == '\U{A0}' || c == '\U{1680}'
    || '\U{2000}' <= c <= '\U{200A}' || c == '\U{2028}' || c == '\U{2029}' || c == '\U{202F}'
    || c == '\U{205F}' || c == '\U{3000}'
  }

  predicate BlankName(name: string) {
    forall i :: 0 <= i < |name| ==> IsSpace(name[i])
  }

  predicate DeclarationOk(earlier: set<string>, a: Arg) {
    && !BlankName(a.name) && a.name !in earlier
    && !(a.repeatable && a.kind == BoolKind)
    && ChoicesOk(a)
    && !(a.required && a.default.Some?)
    && ConditionOk(earlier, a)
    && (a.default.Some? ==> ValueOk(a, a.default.value))
  }

  /** What a manifest's argument list must satisfy to be loaded. */
  predicate Declared(args: seq<Arg>) {
    forall i :: 0 <= i < |args| ==> DeclarationOk(Names(args[..i]), args[i])
  }

  /** The loader's pass over the declarations, remembering the names it has seen. */
  method ParseArguments(raw: seq<Arg>) returns (args: Option<seq<Arg>>)
    ensures args.Some? <==> Declared(raw)
    ensures args.Some? ==> args.value == raw
  {
    var parsed: seq<Arg> := [];
    var earlier: set<string> := {};
    var index := 0;
    while index < |raw|
      invariant 0 <= index <= |raw| && parsed == raw[..index] && earlier == Names(raw[..index])
      invariant forall i :: 0 <= i < index ==> DeclarationOk(Names(raw[..i]), raw[i])
    {
      var a := raw[index];
      if BlankName(a.name) || a.name in earlier || (a.repeatable && a.kind == BoolKind) {
        return None;
      }
      var ok := CheckChoices(a);
      if !ok || (a.required && a.default.Some?) {
        return None;
      }
      if a.requiredWhen.Some? {
        var c := a.requiredWhen.value;
        if c.arg !in earlier || (!c.ArgPresent? && c.value == Null) {
          return None;
        }
        if a.required || a.repeatable || a.default.Some? {
          return None;
        }
      }
      if a.default.Some? && !ValueOk(a, a.default.value) {
        return None;
      }
      parsed := parsed + [a];
      assert raw[..index + 1] == raw[..index] + [a];
      earlier := earlier + {a.name};
      index := index + 1;
    }
    assert raw[..index] == raw;
    return Some(parsed);
  }

  method CheckChoices(a: Arg) returns (ok: bool)
    ensures ok == ChoicesOk(a)
  {
    hide ValuesEqual, ScalarOk;
    var i := 0;
    while i < |a.choices|
      invariant 0 <= i <= |a.choices|
      invariant forall k :: 0 <= k < i ==> ScalarOk(a.kind, a.choices[k])
      invariant forall k, j :: 0 <= j < k < i ==> !ValuesEqual(a.choices[k], a.choices[j])
    {
      if !ScalarOk(a.kind, a.choices[i]) {
        return false;
      }
      var prior := 0;
      while prior < i
        invariant 0 <= prior <= i
        invariant forall j :: 0 <= j < prior ==> !ValuesEqual(a.choices[i], a.choices[j])
      {
        if ValuesEqual(a.choices[i], a.choices[prior]) {
          return false;
        }
        prior := prior + 1;
      }
      i := i + 1;
    }
    return true;
  }

  // ---- resolving a call -----------------------------------------------------------------------

  predicate ConditionHolds(c: Condition, values: Fields) {
    && c.arg in values
    && match c
       case ArgPresent(_) => true
       case ArgEquals(arg, value) => ValuesEqual(values[arg], value)
       case ArgNotEquals(arg, value) => !ValuesEqual(values[arg], value)
  }

  predicate Active(a: Arg, values: Fields) {
    a.requiredWhen.Some? ==> ConditionHolds(a.requiredWhen.value, values)
  }

  /** One turn of the resolver's loop. */
  function ResolveOne(a: Arg, values: Fields): Option<Fields> {
    if !Active(a, values) then if a.name in values then None else Some(values)
    else if a.name in values then if ValueOk(a, values[a.name]) then Some(values) else None
    else if a.default.Some? then
      if ValueOk(a, a.default.value) then Some(values[a.name := a.default.value]) else None
    else if a.required || a.requiredWhen.Some? then None
    else Some(values)
  }

  function ResolveAll(args: seq<Arg>, supplied: Fields): Option<Fields> {
    if |args| == 0 then Some(supplied)
    else
      match ResolveAll(args[..|args| - 1], supplied)
      case None => None
      case Some(values) => ResolveOne(args[|args| - 1], values)
  }

  function Resolve(args: seq<Arg>, supplied: Fields): Option<Fields> {
    if supplied.Keys <= Names(args) then ResolveAll(args, supplied) else None
  }

  /** Dispatch-time resolution, filling one map in declaration order. */
  method ResolveArguments(args: seq<Arg>, supplied: Fields) returns (r: Option<Fields>)
    ensures r == Resolve(args, supplied)
  {
    hide ConditionHolds, ValueOk;
    var declared: set<string> := {};
    var n := 0;
    while n < |args|
      invariant 0 <= n <= |args| && declared == Names(args[..n])
    {
      assert args[..n + 1] == args[..n] + [args[n]];
      declared := declared + {args[n].name};
      n := n + 1;
    }
    assert args[..n] == args;
    if !(supplied.Keys <= declared) {
      return None;
    }
    var resolved := supplied;
    var index := 0;
    while index < |args|
      invariant 0 <= index <= |args| && ResolveAll(args[..index], supplied) == Some(resolved)
      invariant ResolveAll(args, supplied).Some? ==> ResolveAll(args[..index], supplied).Some?
    {
      var a := args[index];
      assert args[..index + 1][..index] == args[..index];
      var next := ResolveOne(a, resolved);
      if next.None? {
        NoneStays(args, index + 1, supplied);
        return None;
      }
      var active := a.requiredWhen.None? || ConditionHolds(a.requiredWhen.value, resolved);
      if active && a.name !in resolved && a.default.Some? {
        resolved := resolved[a.name := a.default.value];
      }
      index := index + 1;
    }
    assert args[..index] == args;
    return Some(resolved);
  }

  lemma {:induction false} NoneStays(args: seq<Arg>, n: nat, supplied: Fields)
    requires n <= |args| && ResolveAll(args[..n], supplied).None?
    ensures ResolveAll(args, supplied).None?
    decreases |args|
  {
    if n == |args| {
      assert args[..n] == args;
    } else {
      var init := args[..|args| - 1];
      assert init[..n] == args[..n];
      NoneStays(init, n, supplied);
    }
  }

  // ---- what resolution means ------------------------------------------------------------------

  /** The supplied arguments with the defaults of the absent ones filled in. */
  function Completed(args: seq<Arg>, supplied: Fields): Fields {
    if |args| == 0 then supplied
    else DefaultOne(args[|args| - 1], Completed(args[..|args| - 1], supplied))
  }

  function DefaultOne(a: Arg, values: Fields): Fields {
    if a.name !in values && a.default.Some? then values[a.name := a.default.value] else values
  }

  /** One argument's demand on a finished map. */
  predicate ArgAccepts(a: Arg, values: Fields) {
    if Active(a, values) then
      && (a.name in values ==> ValueOk(a, values[a.name]))
      && (a.required || a.requiredWhen.Some? ==> a.name in values)
    else a.name !in values
  }

  predicate AllAccept(args: seq<Arg>, values: Fields) {
    forall i :: 0 <= i < |args| ==> ArgAccepts(args[i], values)
  }

  lemma DeclaredInit(args: seq<Arg>)
    requires Declared(args) && |args| > 0
    ensures Declared(args[..|args| - 1])
    ensures DeclarationOk(Names(args[..|args| - 1]), args[|args| - 1])
  {
    var init := args[..|args| - 1];
    forall i | 0 <= i < |init| ensures DeclarationOk(Names(init[..i]), init[i]) {
      assert init[..i] == args[..i] && init[i] == args[i];
    }
  }

  /** Filling in later defaults changes nothing an earlier argument looks at. */
  lemma LaterDefaultsUnseen(args: seq<Arg>, a: Arg, values: Fields, filled: Fields)
    requires Declared(args) && a.name !in Names(args)
    requires filled - {a.name} == values - {a.name}
    ensures forall i :: 0 <= i < |args| ==> Active(args[i], values) == Active(args[i], filled)
    ensures AllAccept(args, values) == AllAccept(args, filled)
  {
    forall i | 0 <= i < |args|
      ensures Active(args[i], values) == Active(args[i], filled)
      ensures ArgAccepts(args[i], values) == ArgAccepts(args[i], filled)
    {
      assert DeclarationOk(Names(args[..i]), args[i]);
      assert Names(args[..i]) <= Names(args);
      assert args[i].name in Names(args);
      assert forall n :: n in Names(args) ==>
        (n in values <==> n in values - {a.name}) && (n in filled <==> n in filled - {a.name});
    }
  }

  lemma AllAcceptMore(args: seq<Arg>, values: Fields)
    requires |args| > 0
    ensures AllAccept(args, values) <==> AllAccept(args[..|args| - 1], values) && ArgAccepts(args[|args| - 1], values)
  {
    var init := args[..|args| - 1];
    assert args == init + [args[|args| - 1]];
    assert forall i :: 0 <= i < |init| ==> init[i] == args[i];
  }

  lemma ResolveOneMeaning(earlier: set<string>, a: Arg, values: Fields)
    requires DeclarationOk(earlier, a)
    ensures ResolveOne(a, values) ==
      if ArgAccepts(a, DefaultOne(a, values)) then Some(DefaultOne(a, values)) else None
  {
    UnseenByItself(earlier, a, values);
  }

  lemma {:induction false} ResolveAllMeaning(args: seq<Arg>, supplied: Fields)
    requires Declared(args)
    ensures ResolveAll(args, supplied) ==
      if AllAccept(args, Completed(args, supplied)) then Some(Completed(args, supplied)) else None
  {
    if |args| > 0 {
      var init, a := args[..|args| - 1], args[|args| - 1];
      DeclaredInit(args);
      ResolveAllMeaning(init, supplied);
      var values, filled := Completed(init, supplied), Completed(args, supplied);
      LaterDefaultsUnseen(init, a, values, filled);
      AllAcceptMore(args, filled);
      ResolveOneMeaning(Names(init), a, values);
      hide AllAccept, ArgAccepts, Declared, ResolveOne;
    }
  }

  /**
   The one-pass loop computes a fixed description: every argument's demand holds of the completed
   map, with each condition judged in that final map.
   */
  lemma ResolveMeaning(args: seq<Arg>, supplied: Fields)
    requires Declared(args)
    ensures Resolve(args, supplied) ==
      if supplied.Keys <= Names(args) && AllAccept(args, Completed(args, supplied))
      then Some(Completed(args, supplied)) else None
  {
    ResolveAllMeaning(args, supplied);
  }

  /** A condition keeps, in the final map, the truth value it had when the loop looked at it. */
  lemma {:induction false} ConditionsSettle(args: seq<Arg>, supplied: Fields, i: nat)
    requires Declared(args) && i < |args|
    ensures Active(args[i], Completed(args[..i], supplied)) == Active(args[i], Completed(args, supplied))
  {
    hide Active, AllAccept, Declared, DeclarationOk, DefaultOne;
    var init, a := args[..|args| - 1], args[|args| - 1];
    DeclaredInit(args);
    if i < |init| {
      assert init[..i] == args[..i] && init[i] == args[i];
      ConditionsSettle(init, supplied, i);
      DefaultedElsewhere(a, Completed(init, supplied));
      LaterDefaultsUnseen(init, a, Completed(init, supplied), Completed(args, supplied));
    } else {
      UnseenByItself(Names(init), a, Completed(init, supplied));
    }
  }

  lemma DefaultedElsewhere(a: Arg, values: Fields)
    ensures DefaultOne(a, values) - {a.name} == values - {a.name}
  {
  }

  lemma UnseenByItself(earlier: set<string>, a: Arg, values: Fields)
    requires DeclarationOk(earlier, a)
    ensures Active(a, values) == Active(a, DefaultOne(a, values))
  {
  }

  /** What is in the completed map, name by name. */
  lemma {:induction false} CompletedMeaning(args: seq<Arg>, supplied: Fields)
    requires Declared(args)
    ensures Completed(args, supplied).Keys == supplied.Keys + DefaultedNames(args)
    ensures forall n :: n in supplied ==> Completed(args, supplied)[n] == supplied[n]
    ensures forall i :: 0 <= i < |args| && args[i].default.Some? && args[i].name !in supplied ==>
              && args[i].name in Completed(args, supplied)
              && Completed(args, supplied)[args[i].name] == args[i].default.value
  {
    hide BlankName, ChoicesOk, ConditionOk, ValueOk;
    if |args| > 0 {
      var init, a := args[..|args| - 1], args[|args| - 1];
      DeclaredInit(args);
      CompletedMeaning(init, supplied);
      OneMoreDefault(init, a, supplied, Completed(init, supplied));
      assert args == init + [a];
      assert DefaultOne(a, Completed(init, supplied)) == Completed(args, supplied);
    }
  }

  lemma OneMoreDefault(init: seq<Arg>, a: Arg, supplied: Fields, before: Fields)
    requires a.name !in Names(init)
    requires before.Keys == supplied.Keys + DefaultedNames(init)
    requires forall n :: n in supplied ==> before[n] == supplied[n]
    requires forall i :: 0 <= i < |init| && init[i].default.Some? && init[i].name !in supplied ==>
               init[i].name in before && before[init[i].name] == init[i].default.value
    ensures var now, args := DefaultOne(a, before), init + [a];
            && now.Keys == supplied.Keys + DefaultedNames(args)
            && (forall n :: n in supplied ==> now[n] == supplied[n])
            && forall i :: 0 <= i < |args| && args[i].default.Some? && args[i].name !in supplied ==>
                 args[i].name in now && now[args[i].name] == args[i].default.value
  {
    var now, args := DefaultOne(a, before), init + [a];
    assert DefaultedNames(args) == DefaultedNames(init) + if a.default.Some? then {a.name} else {};
    assert DefaultedNames(init) <= Names(init);
    forall i | 0 <= i < |args| && args[i].default.Some? && args[i].name !in supplied
      ensures args[i].name in now && now[args[i].name] == args[i].default.value
    {
      if i < |init| {
        assert args[i] == init[i] && init[i].name in Names(init);
      }
    }
  }

  function DefaultedNames(args: seq<Arg>): set<string> {
    set a <- args | a.default.Some? :: a.name
  }

  /** Resolving what was resolved changes nothing. */
  lemma ResolveIdempotent(args: seq<Arg>, supplied: Fields)
    requires Declared(args) && Resolve(args, supplied).Some?
    ensures Resolve(args, Resolve(args, supplied).value) == Resolve(args, supplied)
  {
    var values := Completed(args, supplied);
    ResolveMeaning(args, supplied);
    CompletedMeaning(args, supplied);
    CompletedMeaning(args, values);
    assert DefaultedNames(args) <= Names(args);
    assert Completed(args, values) == values;
    ResolveMeaning(args, values);
  }
}
