/**
 The argv an operation is launched with: which raw tokens are positionals, how bound values are
 written back in canonical order, and when re-reading the result recovers them.
 */
module OperationArgv {
  import opened Wrappers

  // ---- declarations and values ------------------------------------------------------------------

  datatype Value = Bool(b: bool) | Text(s: string) | List(items: seq<Value>) | Structured

  /** `flag` is the effective binding. */
  datatype Arg = Arg(name: string, flag: bool, boolean: bool, repeatable: bool)

  type Values = map<string, Value>

  function Dashed(s: string): (d: string)
    ensures |d| == |s|
  {
    if s == "" then "" else [if s[0] == '_' then '-' else s[0]] + Dashed(s[1..])
  }

  function FlagToken(a: Arg): string {
    "--" + Dashed(a.name)
  }

  /** Manifests refuse two arguments with one name; nothing else about names is checked. */
  predicate UniqueNames(args: seq<Arg>) {
    forall i, j :: 0 <= i < j < |args| ==> args[i].name != args[j].name
  }

  function BeforeEquals(token: string): string {
    if token == "" || token[0] == '=' then "" else [token[0]] + BeforeEquals(token[1..])
  }

  /** The first flag declaration a token names, with or without a value attached. */
  function FindFlag(args: seq<Arg>, option: string): Option<Arg> {
    if args == [] then None
    else if args[0].flag && option == FlagToken(args[0]) then Some(args[0])
    else FindFlag(args[1..], option)
  }

  // ---- reading positionals ----------------------------------------------------------------------

  predicate StartsWithDash(token: string) {
    "-" <= token
  }

  predicate HasEquals(token: string) {
    '=' in token
  }

  function Drop(raw: seq<string>, n: nat): seq<string> {
    if n <= |raw| then raw[n..] else []
  }

  /** How many tokens a dashed token takes with it as an option, or none when it is a positional. */
  function OptionSpan(args: seq<Arg>, token: string): nat {
    match FindFlag(args, BeforeEquals(token))
    case None => 0
    case Some(a) => if !a.boolean && !HasEquals(token) then 2 else 1
  }

  function Positionals(args: seq<Arg>, raw: seq<string>): seq<string>
    decreases |raw|
  {
    if raw == [] then []
    else if raw[0] == "--" then raw[1..]
    else if StartsWithDash(raw[0]) && OptionSpan(args, raw[0]) > 0
    then Positionals(args, Drop(raw, OptionSpan(args, raw[0])))
    else [raw[0]] + Positionals(args, raw[1..])
  }

  function Remaining(args: seq<Arg>, raw: seq<string>, options: bool): seq<string> {
    if options then Positionals(args, raw) else raw
  }

  /** What was read up to `index`, with what is left, is the whole answer. */
  predicate Progress(args: seq<Arg>, raw: seq<string>, index: nat, options: bool, positionals: seq<string>) {
    positionals + Remaining(args, Drop(raw, index), options) == Positionals(args, raw)
  }

  lemma KeepToken(args: seq<Arg>, raw: seq<string>, index: nat, options: bool, positionals: seq<string>)
    requires index < |raw| && Progress(args, raw, index, options, positionals)
    requires options ==>
               raw[index] != "--" && (StartsWithDash(raw[index]) ==> FindFlag(args, BeforeEquals(raw[index])).None?)
    ensures Progress(args, raw, index + 1, options, positionals + [raw[index]])
  {
    var rest := Remaining(args, Drop(raw, index + 1), options);
    assert Drop(raw, index) == [raw[index]] + Drop(raw, index + 1);
    assert Remaining(args, Drop(raw, index), options) == [raw[index]] + rest;
    Regroup(positionals, [raw[index]], rest);
  }

  lemma SkipTokens(args: seq<Arg>, raw: seq<string>, index: nat, positionals: seq<string>, declaration: Arg)
    requires index < |raw| && Progress(args, raw, index, true, positionals)
    requires raw[index] != "--" && StartsWithDash(raw[index])
    requires FindFlag(args, BeforeEquals(raw[index])) == Some(declaration)
    ensures var next := if !declaration.boolean && !HasEquals(raw[index]) then index + 2 else index + 1;
            Progress(args, raw, next, true, positionals)
  {
    var span := OptionSpan(args, raw[index]);
    assert Drop(Drop(raw, index), span) == Drop(raw, index + span);
  }

  lemma EndOptions(args: seq<Arg>, raw: seq<string>, index: nat, positionals: seq<string>)
    requires index < |raw| && Progress(args, raw, index, true, positionals) && raw[index] == "--"
    ensures Progress(args, raw, index + 1, false, positionals)
  {
    assert Drop(raw, index)[1..] == Drop(raw, index + 1);
  }

  lemma NothingRead(args: seq<Arg>, raw: seq<string>)
    ensures Progress(args, raw, 0, true, [])
  {
    assert Drop(raw, 0) == raw;
    assert [] + Positionals(args, raw) == Positionals(args, raw);
  }

  lemma NothingRemains(args: seq<Arg>, raw: seq<string>, index: nat, options: bool, positionals: seq<string>)
    requires index >= |raw| && Progress(args, raw, index, options, positionals)
    ensures positionals == Positionals(args, raw)
  {
    assert Drop(raw, index) == [];
  }

  method RawOperationPositionals(args: seq<Arg>, raw: seq<string>) returns (positionals: seq<string>)
    ensures positionals == Positionals(args, raw)
  {
    positionals := [];
    var options := true;
    var index := 0;
    NothingRead(args, raw);
    hide Progress, Positionals, FindFlag, BeforeEquals, OptionSpan, Remaining, Drop, StartsWithDash, HasEquals;
    while index < |raw|
      invariant Progress(args, raw, index, options, positionals)
    {
      var token := raw[index];
      if options && token == "--" {
        EndOptions(args, raw, index, positionals);
        options := false;
      } else if options && StartsWithDash(token) {
        var declaration := FindFlag(args, BeforeEquals(token));
        if declaration.Some? {
          SkipTokens(args, raw, index, positionals, declaration.value);
          if !declaration.value.boolean && !HasEquals(token) {
            index := index + 1;
          }
        } else {
          KeepToken(args, raw, index, options, positionals);
          positionals := positionals + [token];
        }
      } else {
        KeepToken(args, raw, index, options, positionals);
        positionals := positionals + [token];
      }
      index := index + 1;
    }
    NothingRemains(args, raw, index, options, positionals);
  }

  // ---- writing the canonical argv ---------------------------------------------------------------

  function ScalarText(v: Value): Option<string> {
    match v
    case Bool(b) => Some(if b then "true" else "false")
    case Text(s) => Some(s)
    case _ => None
  }

  function Texts(items: seq<Value>): Option<seq<string>> {
    if items == [] then Some([])
    else
      match (ScalarText(items[0]), Texts(items[1..]))
      case (Some(s), Some(rest)) => Some([s] + rest)
      case _ => None
  }

  function ArgTexts(a: Arg, v: Value): Option<seq<string>> {
    if a.repeatable then if v.List? then Texts(v.items) else None
    else match ScalarText(v) case Some(s) => Some([s]) case None => None
  }

  predicate DoubleDashed(s: string) {
    "--" <= s
  }

  /** A value that looks like an option is attached to its flag. */
  function ValueTokens(flag: string, texts: seq<string>): seq<string> {
    if texts == [] then []
    else (if DoubleDashed(texts[0]) then [flag + "=" + texts[0]] else [flag, texts[0]]) + ValueTokens(flag, texts[1..])
  }

  function TokensFor(a: Arg, values: Values, supplied: set<string>): Option<seq<string>> {
    if !a.flag || a.name !in values then Some([])
    else if a.boolean then
      Some(if values[a.name] == Bool(true) then [FlagToken(a)]
           else if a.name in supplied then [FlagToken(a) + "=false"] else [])
    else
      match ArgTexts(a, values[a.name])
      case None => None
      case Some(texts) => Some(ValueTokens(FlagToken(a), texts))
  }

  function FlagTokens(args: seq<Arg>, values: Values, supplied: set<string>): Option<seq<string>> {
    if args == [] then Some([])
    else
      match (FlagTokens(args[..|args| - 1], values, supplied), TokensFor(args[|args| - 1], values, supplied))
      case (Some(before), Some(own)) => Some(before + own)
      case _ => None
  }

  datatype Filled = Filled(positionals: seq<string>, used: nat)

  /** One positional declaration's turn: `used` raw positionals are accounted for so far. */
  function FillOne(a: Arg, raw: seq<string>, values: Values, keep: set<string>, filled: Filled): Option<Filled> {
    if a.flag then Some(filled)
    else
      var given := if a.repeatable then |raw| > filled.used else filled.used < |raw|;
      var used := if a.repeatable then |raw| else if filled.used < |raw| then filled.used + 1 else filled.used;
      if !given && a.name !in keep then Some(Filled(filled.positionals, used))
      else if a.name !in values then None
      else
        match ArgTexts(a, values[a.name])
        case None => None
        case Some(texts) => Some(Filled(filled.positionals + texts, used))
  }

  function FillAll(args: seq<Arg>, raw: seq<string>, values: Values, keep: set<string>): Option<Filled> {
    if args == [] then Some(Filled([], 0))
    else
      match FillAll(args[..|args| - 1], raw, values, keep)
      case None => None
      case Some(filled) => FillOne(args[|args| - 1], raw, values, keep, filled)
  }

  /** The bound positionals followed by the raw ones no declaration took. */
  function BoundPositionals(args: seq<Arg>, raw: seq<string>, values: Values, keep: set<string>): Option<seq<string>> {
    match FillAll(args, Positionals(args, raw), values, keep)
    case None => None
    case Some(filled) => Some(filled.positionals + Drop(Positionals(args, raw), filled.used))
  }

  function Assemble(positionals: seq<string>, flags: seq<string>): seq<string> {
    if exists i :: 0 <= i < |positionals| && DoubleDashed(positionals[i]) then flags + ["--"] + positionals
    else positionals + flags
  }

  function CanonicalArgv(
    args: seq<Arg>, raw: seq<string>, values: Values, defaulted: set<string>, supplied: set<string>)
    : Option<seq<string>>
  {
    match (BoundPositionals(args, raw, values, defaulted + supplied), FlagTokens(args, values, supplied))
    case (Some(positionals), Some(flags)) => Some(Assemble(positionals, flags))
    case _ => None
  }

  lemma FillStep(args: seq<Arg>, n: nat, raw: seq<string>, values: Values, keep: set<string>)
    requires n < |args|
    ensures FillAll(args[..n + 1], raw, values, keep) ==
      match FillAll(args[..n], raw, values, keep)
      case None => None
      case Some(filled) => FillOne(args[n], raw, values, keep, filled)
  {
    assert args[..n + 1][..n] == args[..n];
  }

  lemma FlagStep(args: seq<Arg>, n: nat, values: Values, supplied: set<string>)
    requires n < |args|
    ensures FlagTokens(args[..n + 1], values, supplied) ==
      match (FlagTokens(args[..n], values, supplied), TokensFor(args[n], values, supplied))
      case (Some(before), Some(own)) => Some(before + own)
      case _ => None
  {
    assert args[..n + 1][..n] == args[..n];
  }

  method CanonicalOperationArgv(
    args: seq<Arg>, raw: seq<string>, values: Values, defaulted: set<string>, supplied: set<string>)
    returns (argv: Option<seq<string>>)
    ensures argv == CanonicalArgv(args, raw, values, defaulted, supplied)
  {
    var given := RawOperationPositionals(args, raw);
    var filled := Filled([], 0);
    var n := 0;
    assert FillAll(args[..0], given, values, defaulted + supplied) == Some(Filled([], 0));
    assert FlagTokens(args[..0], values, supplied) == Some([]);
    hide Positionals, FillOne, FillAll, FlagTokens, TokensFor, Assemble;
    while n < |args|
      invariant 0 <= n <= |args| && FillAll(args[..n], given, values, defaulted + supplied) == Some(filled)
    {
      FillStep(args, n, given, values, defaulted + supplied);
      var next := FillOne(args[n], given, values, defaulted + supplied, filled);
      if next.None? {
        FillFails(args, n + 1, given, values, defaulted + supplied);
        return None;
      }
      filled := next.value;
      n := n + 1;
    }
    assert args[..n] == args;
    var positionals := filled.positionals + Drop(given, filled.used);
    var flags: seq<string> := [];
    var m := 0;
    while m < |args|
      invariant 0 <= m <= |args| && FlagTokens(args[..m], values, supplied) == Some(flags)
    {
      FlagStep(args, m, values, supplied);
      var tokens := TokensFor(args[m], values, supplied);
      if tokens.None? {
        FlagsFail(args, m + 1, values, supplied);
        return None;
      }
      flags := flags + tokens.value;
      m := m + 1;
    }
    assert args[..m] == args;
    return Some(Assemble(positionals, flags));
  }

  lemma {:induction false} FillFails(args: seq<Arg>, n: nat, raw: seq<string>, values: Values, keep: set<string>)
    requires n <= |args| && FillAll(args[..n], raw, values, keep).None?
    ensures FillAll(args, raw, values, keep).None?
    decreases |args|
  {
    if n == |args| {
      assert args[..n] == args;
    } else {
      assert args[..|args| - 1][..n] == args[..n];
      FillFails(args[..|args| - 1], n, raw, values, keep);
    }
  }

  lemma {:induction false} FlagsFail(args: seq<Arg>, n: nat, values: Values, supplied: set<string>)
    requires n <= |args| && FlagTokens(args[..n], values, supplied).None?
    ensures FlagTokens(args, values, supplied).None?
    decreases |args|
  {
    if n == |args| {
      assert args[..n] == args;
    } else {
      assert args[..|args| - 1][..n] == args[..n];
      FlagsFail(args[..|args| - 1], n, values, supplied);
    }
  }

  // ---- one token ----------------------------------------------------------------------------------

  lemma {:induction false} BeforeEqualsPrefix(s: string)
    ensures BeforeEquals(s) <= s && '=' !in BeforeEquals(s)
    ensures '=' !in s ==> BeforeEquals(s) == s
  {
    if s != "" && s[0] != '=' {
      BeforeEqualsPrefix(s[1..]);
      assert s == [s[0]] + s[1..];
    }
  }

  lemma {:induction false} BeforeEqualsConcat(a: string, b: string)
    ensures '=' !in a ==> BeforeEquals(a + b) == a + BeforeEquals(b)
    ensures '=' in a ==> BeforeEquals(a + b) == BeforeEquals(a)
  {
    if a == "" {
      assert a + b == b;
    } else {
      BeforeEqualsConcat(a[1..], b);
      assert (a + b)[1..] == a[1..] + b && (a + b)[0] == a[0];
      assert a == [a[0]] + a[1..];
    }
  }

  lemma AttachedValue(f: string, v: string)
    ensures BeforeEquals(f + "=" + v) == BeforeEquals(f) && '=' in f + "=" + v
  {
    assert f + "=" + v == f + ("=" + v);
    BeforeEqualsConcat(f, "=" + v);
    BeforeEqualsPrefix(f);
    assert BeforeEquals("=" + v) == "";
    assert (f + "=" + v)[|f|] == '=';
  }

  lemma FlagTokenParts(a: Arg)
    ensures "--" <= FlagToken(a) && "-" <= FlagToken(a)
    ensures FlagToken(a) == "--" <==> Dashed(a.name) == ""
    ensures '=' in FlagToken(a) <==> '=' in Dashed(a.name)
    ensures BeforeEquals(FlagToken(a)) == "--" + BeforeEquals(Dashed(a.name))
  {
    BeforeEqualsConcat("--", Dashed(a.name));
    var t := FlagToken(a);
    if '=' in Dashed(a.name) {
      var i :| 0 <= i < |Dashed(a.name)| && Dashed(a.name)[i] == '=';
      assert t[2 + i] == '=';
    }
  }

  lemma {:induction false} FoundIsFlag(args: seq<Arg>, option: string)
    ensures FindFlag(args, option).Some? ==> "--" <= option && FindFlag(args, option).value.flag
    ensures FindFlag(args, option).Some? ==>
              FindFlag(args, option).value in args && FlagToken(FindFlag(args, option).value) == option
    ensures FindFlag(args, option).None? ==>
              forall i :: 0 <= i < |args| && args[i].flag ==> FlagToken(args[i]) != option
  {
    if args != [] {
      FoundIsFlag(args[1..], option);
      assert args == [args[0]] + args[1..];
    }
  }

  // ---- which declarations read back ---------------------------------------------------------------

  /** The tokens of this flag are taken as options by the reader, and nothing beside them is. */
  predicate FlagReads(args: seq<Arg>, a: Arg) {
    var name := Dashed(a.name);
    && name != ""
    && if '=' in name then a.boolean && FindFlag(args, "--" + BeforeEquals(name)).Some?
       else FindFlag(args, "--" + name).Some? && FindFlag(args, "--" + name).value.boolean == a.boolean
  }

  predicate FlagsRead(args: seq<Arg>) {
    forall i :: 0 <= i < |args| && args[i].flag ==> FlagReads(args, args[i])
  }

  /** The names the property was meant for: usable as one option each, and each its own. */
  predicate PlainNames(args: seq<Arg>) {
    && (forall i :: 0 <= i < |args| && args[i].flag ==> args[i].name != "" && '=' !in Dashed(args[i].name))
    && (forall i, j ::
          0 <= i < j < |args| && args[i].flag && args[j].flag ==> Dashed(args[i].name) != Dashed(args[j].name))
  }

  lemma PlainFindsItself(args: seq<Arg>, i: nat)
    requires PlainNames(args) && i < |args| && args[i].flag
    ensures FindFlag(args, FlagToken(args[i])) == Some(args[i]) && FlagReads(args, args[i])
  {
    FoundIsFlag(args, FlagToken(args[i]));
    var found := FindFlag(args, FlagToken(args[i]));
    assert found.Some?;
    var j :| 0 <= j < |args| && args[j] == found.value;
    assert Dashed(args[j].name) == FlagToken(args[j])[2..];
    assert Dashed(args[i].name) == FlagToken(args[i])[2..];
    assert i == j;
    BeforeEqualsPrefix(Dashed(args[i].name));
  }

  lemma PlainNamesRead(args: seq<Arg>)
    requires PlainNames(args)
    ensures FlagsRead(args)
  {
    forall i | 0 <= i < |args| && args[i].flag ensures FlagReads(args, args[i]) {
      PlainFindsItself(args, i);
    }
  }

  // ---- flags vanish, positionals stay -------------------------------------------------------------

  lemma AttachedSpan(args: seq<Arg>, a: Arg, v: string)
    requires FlagReads(args, a)
    ensures "-" <= FlagToken(a) + "=" + v && FlagToken(a) + "=" + v != "--"
    ensures OptionSpan(args, FlagToken(a) + "=" + v) == 1
  {
    BeforeEqualsPrefix(Dashed(a.name));
    FlagTokenParts(a);
    AttachedValue(FlagToken(a), v);
  }

  lemma BareSpan(args: seq<Arg>, a: Arg)
    requires FlagReads(args, a)
    ensures FlagToken(a) != "--" && OptionSpan(args, FlagToken(a)) == if a.boolean then 1 else 2
  {
    FlagTokenParts(a);
    BeforeEqualsPrefix(Dashed(a.name));
  }

  lemma {:induction false} ValuesVanish(args: seq<Arg>, a: Arg, texts: seq<string>, rest: seq<string>)
    requires FlagReads(args, a) && !a.boolean
    ensures Positionals(args, ValueTokens(FlagToken(a), texts) + rest) == Positionals(args, rest)
  {
    var f := FlagToken(a);
    if texts == [] {
      assert ValueTokens(f, texts) + rest == rest;
    } else {
      var more := ValueTokens(f, texts[1..]);
      ValuesVanish(args, a, texts[1..], rest);
      FlagTokenParts(a);
      if DoubleDashed(texts[0]) {
        AttachedSpan(args, a, texts[0]);
        Regroup([f + "=" + texts[0]], more, rest);
      } else {
        BareSpan(args, a);
        Regroup([f, texts[0]], more, rest);
      }
    }
  }

  lemma TokensVanish(args: seq<Arg>, a: Arg, values: Values, supplied: set<string>, rest: seq<string>)
    requires (a.flag ==> FlagReads(args, a)) && TokensFor(a, values, supplied).Some?
    ensures Positionals(args, TokensFor(a, values, supplied).value + rest) == Positionals(args, rest)
  {
    var tokens := TokensFor(a, values, supplied).value;
    if tokens == [] {
      assert tokens + rest == rest;
    } else if a.boolean {
      FlagTokenParts(a);
      AttachedSpan(args, a, "false");
      BareSpan(args, a);
      assert FlagToken(a) + "=" + "false" == FlagToken(a) + "=false";
    } else {
      ValuesVanish(args, a, ArgTexts(a, values[a.name]).value, rest);
    }
  }

  lemma {:induction false} FlagsVanish(
    args: seq<Arg>, some: seq<Arg>, values: Values, supplied: set<string>, rest: seq<string>)
    requires forall i :: 0 <= i < |some| && some[i].flag ==> FlagReads(args, some[i])
    requires FlagTokens(some, values, supplied).Some?
    ensures Positionals(args, FlagTokens(some, values, supplied).value + rest) == Positionals(args, rest)
    decreases |some|
  {
    var tokens := FlagTokens(some, values, supplied).value;
    if some == [] {
      assert tokens + rest == rest;
    } else {
      var init, a := some[..|some| - 1], some[|some| - 1];
      var before, own := FlagTokens(init, values, supplied).value, TokensFor(a, values, supplied).value;
      FlagsVanish(args, init, values, supplied, own + rest);
      TokensVanish(args, a, values, supplied, rest);
      Regroup(before, own, rest);
    }
  }

  lemma {:induction false} PlainStay(args: seq<Arg>, positionals: seq<string>, rest: seq<string>)
    requires forall i :: 0 <= i < |positionals| ==> !DoubleDashed(positionals[i])
    ensures Positionals(args, positionals + rest) == positionals + Positionals(args, rest)
  {
    if positionals == [] {
      assert positionals + rest == rest;
    } else {
      var token, more := positionals[0], positionals[1..];
      PlainStay(args, more, rest);
      PlainToken(args, token, more + rest);
      assert positionals == [token] + more;
      Regroup([token], more, rest);
      hide Positionals;
      Regroup([token], more, Positionals(args, rest));
    }
  }

  lemma PlainToken(args: seq<Arg>, token: string, rest: seq<string>)
    requires !DoubleDashed(token)
    ensures Positionals(args, [token] + rest) == [token] + Positionals(args, rest)
  {
    BeforeEqualsPrefix(token);
    FoundIsFlag(args, BeforeEquals(token));
    assert OptionSpan(args, token) == 0;
    assert ([token] + rest)[1..] == rest;
  }

  lemma AssembledReadBack(args: seq<Arg>, positionals: seq<string>, values: Values, supplied: set<string>)
    requires FlagsRead(args) && FlagTokens(args, values, supplied).Some?
    ensures Positionals(args, Assemble(positionals, FlagTokens(args, values, supplied).value)) == positionals
  {
    var flags := FlagTokens(args, values, supplied).value;
    if exists i :: 0 <= i < |positionals| && DoubleDashed(positionals[i]) {
      FlagsVanish(args, args, values, supplied, ["--"] + positionals);
      Regroup(flags, ["--"], positionals);
    } else {
      PlainStay(args, positionals, flags);
      FlagsVanish(args, args, values, supplied, []);
      assert flags + [] == flags;
    }
  }

  /** Re-reading a canonical argv gives exactly the positionals it was written from, dashes and all. */
  lemma ArgvRoundTrip(args: seq<Arg>, raw: seq<string>, values: Values, defaulted: set<string>, supplied: set<string>)
    requires FlagsRead(args) && CanonicalArgv(args, raw, values, defaulted, supplied).Some?
    ensures BoundPositionals(args, raw, values, defaulted + supplied)
            == Some(Positionals(args, CanonicalArgv(args, raw, values, defaulted, supplied).value))
  {
    AssembledReadBack(args, BoundPositionals(args, raw, values, defaulted + supplied).value, values, supplied);
  }

  /** How many of `total` raw positionals the declarations take. */
  function UsedBy(args: seq<Arg>, total: nat): (used: nat)
    ensures used <= total
  {
    if args == [] then 0
    else
      var before, a := UsedBy(args[..|args| - 1], total), args[|args| - 1];
      if a.flag then before else if a.repeatable then total else if before < total then before + 1 else before
  }

  /** Every positional declaration is bound to the raw text it takes, and none to anything else. */
  predicate BoundAsGiven(args: seq<Arg>, given: seq<string>, values: Values, keep: set<string>) {
    args == [] ||
    var init, a := args[..|args| - 1], args[|args| - 1];
    && BoundAsGiven(init, given, values, keep)
    && (a.flag ||
        var used := UsedBy(init, |given|);
        if used < |given| then
          && a.name in values
          && ArgTexts(a, values[a.name]) == Some(if a.repeatable then given[used..] else [given[used]])
        else a.name !in keep)
  }

  lemma {:induction false} GivenFilled(args: seq<Arg>, given: seq<string>, values: Values, keep: set<string>)
    requires BoundAsGiven(args, given, values, keep)
    ensures var used := UsedBy(args, |given|); FillAll(args, given, values, keep) == Some(Filled(given[..used], used))
  {
    if args != [] {
      var init, a := args[..|args| - 1], args[|args| - 1];
      GivenFilled(init, given, values, keep);
      var used := UsedBy(init, |given|);
      if !a.flag && used < |given| {
        assert given[..used] + given[used..] == given[..|given|];
        assert given[..used] + [given[used]] == given[..used + 1];
      }
    }
  }

  /** When values are bound as given, the canonical argv holds exactly the raw argv's positionals. */
  lemma GivenPositionalsKept(
    args: seq<Arg>, raw: seq<string>, values: Values, defaulted: set<string>, supplied: set<string>)
    requires FlagsRead(args) && CanonicalArgv(args, raw, values, defaulted, supplied).Some?
    requires BoundAsGiven(args, Positionals(args, raw), values, defaulted + supplied)
    ensures Positionals(args, CanonicalArgv(args, raw, values, defaulted, supplied).value) == Positionals(args, raw)
  {
    var given := Positionals(args, raw);
    GivenFilled(args, given, values, defaulted + supplied);
    var used := UsedBy(args, |given|);
    assert given[..used] + Drop(given, used) == given;
    ArgvRoundTrip(args, raw, values, defaulted, supplied);
  }

  // ---- exactly when it reads back -----------------------------------------------------------------

  ghost predicate AlwaysReadsBack(args: seq<Arg>) {
    forall positionals, values, supplied | FlagTokens(args, values, supplied).Some? ::
      Positionals(args, Assemble(positionals, FlagTokens(args, values, supplied).value)) == positionals
  }

  lemma {:induction false} OnlyOneValue(args: seq<Arg>, i: nat, v: Value)
    requires UniqueNames(args) && i < |args|
    ensures FlagTokens(args, map[args[i].name := v], {}) == TokensFor(args[i], map[args[i].name := v], {})
    decreases |args|
  {
    var init, last := args[..|args| - 1], args[|args| - 1];
    var values := map[args[i].name := v];
    if i < |init| {
      OnlyOneValue(init, i, v);
      assert init[i] == args[i];
      assert TokensFor(last, values, {}) == Some([]);
      if TokensFor(args[i], values, {}).Some? {
        assert TokensFor(args[i], values, {}).value + [] == TokensFor(args[i], values, {}).value;
      }
    } else {
      NoValues(init, values);
      if TokensFor(last, values, {}).Some? {
        assert [] + TokensFor(last, values, {}).value == TokensFor(last, values, {}).value;
      }
    }
  }

  lemma {:induction false} NoValues(args: seq<Arg>, values: Values)
    requires forall i :: 0 <= i < |args| ==> args[i].name !in values
    ensures FlagTokens(args, values, {}) == Some([])
  {
    if args != [] {
      NoValues(args[..|args| - 1], values);
      var none: seq<string> := [];
      assert none + none == none;
    }
  }

  lemma SetFlag(args: seq<Arg>, i: nat) returns (values: Values)
    requires UniqueNames(args) && i < |args| && args[i].flag && args[i].boolean
    ensures FlagTokens(args, values, {}) == Some([FlagToken(args[i])])
  {
    values := map[args[i].name := Bool(true)];
    OnlyOneValue(args, i, Bool(true));
  }

  lemma SetOption(args: seq<Arg>, i: nat) returns (values: Values)
    requires UniqueNames(args) && i < |args| && args[i].flag && !args[i].boolean
    ensures FlagTokens(args, values, {}) == Some([FlagToken(args[i]), "v"])
  {
    var v := if args[i].repeatable then List([Text("v")]) else Text("v");
    values := map[args[i].name := v];
    OnlyOneValue(args, i, v);
    assert [Text("v")][1..] == [];
    assert Texts([]) == Some([]);
    assert Texts([Text("v")]) == Some(["v"]) by { assert ["v"] + [] == ["v"]; }
    assert ArgTexts(args[i], v) == Some(["v"]);
    assert ["v"][1..] == [] && ValueTokens(FlagToken(args[i]), []) == [];
    assert !DoubleDashed("v");
    var tokens := [FlagToken(args[i]), "v"];
    assert tokens + [] == tokens;
    assert ValueTokens(FlagToken(args[i]), ["v"]) == tokens;
  }

  /** An option whose own value is taken for a positional. */
  lemma OptionLeaks(args: seq<Arg>, i: nat)
    requires UniqueNames(args) && i < |args| && args[i].flag && !args[i].boolean && !FlagReads(args, args[i])
    ensures !AlwaysReadsBack(args)
  {
    var values := SetOption(args, i);
    var f := FlagToken(args[i]);
    ShortSpan(args, i);
    assert Assemble([], [f, "v"]) == [f, "v"];
    hide FlagReads, OptionSpan, FlagToken, FlagTokens;
    ValueLeft(args, f);
  }

  lemma ShortSpan(args: seq<Arg>, i: nat)
    requires i < |args| && args[i].flag && !args[i].boolean && !FlagReads(args, args[i])
    ensures FlagToken(args[i]) != "--" ==> OptionSpan(args, FlagToken(args[i])) < 2
  {
    FlagTokenParts(args[i]);
    BeforeEqualsPrefix(Dashed(args[i].name));
    FoundIsFlag(args, FlagToken(args[i]));
  }

  lemma ValueLeft(args: seq<Arg>, f: string)
    requires f != "--" ==> OptionSpan(args, f) < 2
    ensures Positionals(args, [f, "v"]) != []
  {
    assert [f, "v"][1..] == ["v"];
    PlainToken(args, "v", []);
    assert Positionals(args, ["v"]) == ["v"] by { assert ["v"] + [] == ["v"]; }
    assert Drop([f, "v"], 1) == ["v"];
  }

  /** A switch that is taken for a positional, ends the options, or swallows the separator. */
  lemma SwitchLeaks(args: seq<Arg>, i: nat)
    requires UniqueNames(args) && i < |args| && args[i].flag && args[i].boolean && !FlagReads(args, args[i])
    ensures !AlwaysReadsBack(args)
  {
    var values := SetFlag(args, i);
    var f := FlagToken(args[i]);
    FlagTokenParts(args[i]);
    BeforeEqualsPrefix(Dashed(args[i].name));
    FoundIsFlag(args, FlagToken(args[i]));
    if f != "--" && OptionSpan(args, f) == 0 {
      assert Assemble([], [f]) == [f];
      assert Positionals(args, [f]) != [];
    } else {
      var argv := Assemble(["--"], [f]);
      assert argv == [f, "--", "--"] by {
        assert DoubleDashed(["--"][0]);
        assert [f] + ["--"] + ["--"] == [f, "--", "--"];
      }
      if f == "--" {
        assert Positionals(args, argv) == argv[1..];
      } else {
        assert OptionSpan(args, f) == 2;
        assert Drop(argv, 2) == ["--"];
        assert Positionals(args, ["--"]) == [];
      }
      assert Positionals(args, argv) != ["--"];
    }
  }

  /**
   The positionals survive for every input exactly when each flag name is usable as one option:
   non-empty, without an equals sign unless it is a switch whose front half is itself declared, and
   not shadowed by an earlier flag of the other sort that spells the same option.
   */
  lemma ReadsBackIff(args: seq<Arg>)
    requires UniqueNames(args)
    ensures AlwaysReadsBack(args) <==> FlagsRead(args)
  {
    if FlagsRead(args) {
      forall positionals, values, supplied | FlagTokens(args, values, supplied).Some?
        ensures Positionals(args, Assemble(positionals, FlagTokens(args, values, supplied).value)) == positionals
      {
        AssembledReadBack(args, positionals, values, supplied);
      }
    } else {
      var i :| 0 <= i < |args| && args[i].flag && !FlagReads(args, args[i]);
      if args[i].boolean {
        SwitchLeaks(args, i);
      } else {
        OptionLeaks(args, i);
      }
    }
  }

  lemma {:induction false} DashedConcat(a: string, b: string)
    ensures Dashed(a + b) == Dashed(a) + Dashed(b)
  {
    if a == "" {
      assert a + b == b;
    } else {
      DashedConcat(a[1..], b);
      assert (a + b)[1..] == a[1..] + b && (a + b)[0] == a[0];
    }
  }

  /** Distinct names are not enough: an underscore and a dash spell the same option. */
  lemma UnderscoreShadowsDash(a: string, b: string, switchFirst: bool)
    ensures var args := [Arg(a + "_" + b, true, switchFirst, false), Arg(a + "-" + b, true, !switchFirst, false)];
      UniqueNames(args) && !AlwaysReadsBack(args)
  {
    var first, second := Arg(a + "_" + b, true, switchFirst, false), Arg(a + "-" + b, true, !switchFirst, false);
    var args := [first, second];
    assert first.name[|a|] != second.name[|a|];
    assert UniqueNames(args);
    DashedConcat(a + "_", b);
    DashedConcat(a, "_");
    DashedConcat(a + "-", b);
    DashedConcat(a, "-");
    assert Dashed("_") == Dashed("-");
    assert FlagToken(first) == FlagToken(second);
    assert FindFlag(args, FlagToken(second)) == Some(first);
    BeforeEqualsPrefix(Dashed(second.name));
    if '=' in Dashed(second.name) {
      assert !FlagReads(args, if switchFirst then second else first);
    } else {
      assert !FlagReads(args, second);
    }
    assert args[0] == first && args[1] == second;
    hide FlagReads;
    ReadsBackIff(args);
  }
}
