/**
 The authority's reader of an operation's argv: options converted and bound as they are met,
 positionals handed to their declarations, and when it recovers the values the launcher wrote.
 */
module OperationBinding {
  import opened Wrappers
  import opened OperationArgv

  // ---- the authority's reader -----------------------------------------------------------------------

  /** An option occurrence: its declaration and the text given, if any. */
  datatype Reading = Reading(decl: Arg, text: Option<string>)

  /** The value a text converts to under the declaration's kind, if it does and is one of its choices. */
  type Convert = (Arg, Option<string>) -> Option<Value>

  datatype Scanned = Scanned(positionals: seq<string>, readings: seq<Reading>)

  function AfterEquals(token: string): string {
    if token == "" then "" else if token[0] == '=' then token[1..] else AfterEquals(token[1..])
  }

  /** The value an option takes: attached, or the next token unless that looks like an option too. */
  function OptionText(a: Arg, token: string, rest: seq<string>): Option<string> {
    if HasEquals(token) then Some(AfterEquals(token))
    else if !a.boolean && rest != [] && !DoubleDashed(rest[0]) then Some(rest[0])
    else None
  }

  function WithReading(r: Reading, scanned: Option<Scanned>): Option<Scanned> {
    match scanned
    case None => None
    case Some(s) => Some(Scanned(s.positionals, [r] + s.readings))
  }

  function WithPositional(token: string, scanned: Option<Scanned>): Option<Scanned> {
    match scanned
    case None => None
    case Some(s) => Some(Scanned([token] + s.positionals, s.readings))
  }

  /** Unlike the launcher's reader, this one refuses a dashed token it does not know. */
  function Scan(args: seq<Arg>, raw: seq<string>): Option<Scanned>
    decreases |raw|
  {
    if raw == [] then Some(Scanned([], []))
    else if raw[0] == "--" then Some(Scanned(raw[1..], []))
    else
      match FindFlag(args, BeforeEquals(raw[0]))
      case None =>
        if StartsWithDash(raw[0]) && raw[0] != "-" then None else WithPositional(raw[0], Scan(args, raw[1..]))
      case Some(a) =>
        var text := OptionText(a, raw[0], raw[1..]);
        if !a.boolean && text.None? then None
        else
          WithReading(Reading(a, text), Scan(args, Drop(raw, if !HasEquals(raw[0]) && text.Some? then 2 else 1)))
  }

  // ---- binding --------------------------------------------------------------------------------------

  /** Repeated occurrences collect in a list; any other option is given once. */
  function Insert(a: Arg, v: Value, values: Values): Option<Values> {
    if a.repeatable then
      if a.name !in values then Some(values[a.name := List([v])])
      else if values[a.name].List? then Some(values[a.name := List(values[a.name].items + [v])])
      else None
    else if a.name in values then None
    else Some(values[a.name := v])
  }

  function BindOne(convert: Convert, r: Reading, values: Values): Option<Values> {
    match convert(r.decl, r.text)
    case None => None
    case Some(v) => Insert(r.decl, v, values)
  }

  function BindReadings(convert: Convert, readings: seq<Reading>): Option<Values> {
    if readings == [] then Some(map[])
    else
      match BindReadings(convert, readings[..|readings| - 1])
      case None => None
      case Some(values) => BindOne(convert, readings[|readings| - 1], values)
  }

  function ConvertAll(convert: Convert, a: Arg, texts: seq<string>): Option<seq<Value>> {
    if texts == [] then Some([])
    else
      match (ConvertAll(convert, a, texts[..|texts| - 1]), convert(a, Some(texts[|texts| - 1])))
      case (Some(before), Some(v)) => Some(before + [v])
      case _ => None
  }

  /** The positionals not yet handed out, and what is bound. */
  datatype Hand = Hand(rest: seq<string>, values: Values)

  function HandOne(convert: Convert, a: Arg, h: Hand): Option<Hand> {
    if a.flag || a.name in h.values then Some(h)
    else if a.repeatable then
      match ConvertAll(convert, a, h.rest)
      case None => None
      case Some(vs) => Some(Hand([], if vs == [] then h.values else h.values[a.name := List(vs)]))
    else if h.rest == [] then Some(h)
    else
      match convert(a, Some(h.rest[0]))
      case None => None
      case Some(v) => Some(Hand(h.rest[1..], h.values[a.name := v]))
  }

  function HandAll(convert: Convert, args: seq<Arg>, h: Hand): Option<Hand> {
    if args == [] then Some(h)
    else
      match HandAll(convert, args[..|args| - 1], h)
      case None => None
      case Some(before) => HandOne(convert, args[|args| - 1], before)
  }

  /** Options bound, positionals still in order. */
  function BindOptions(convert: Convert, args: seq<Arg>, raw: seq<string>): Option<Hand> {
    match Scan(args, raw)
    case None => None
    case Some(s) =>
      match BindReadings(convert, s.readings)
      case None => None
      case Some(values) => Some(Hand(s.positionals, values))
  }

  /** Bind the options, hand out the positionals, and refuse any left over. */
  function Bind(convert: Convert, args: seq<Arg>, raw: seq<string>): Option<Values> {
    match BindOptions(convert, args, raw)
    case None => None
    case Some(hand) =>
      HandedWhole(HandAll(convert, args, hand))
  }

  /** A positional nobody takes is refused. */
  function HandedWhole(hand: Option<Hand>): Option<Values> {
    match hand
    case None => None
    case Some(h) => if h.rest == [] then Some(h.values) else None
  }

  /** The loop over the tokens, binding each option as it is met. */
  method BindTokens(convert: Convert, args: seq<Arg>, raw: seq<string>) returns (hand: Option<Hand>)
    ensures hand == BindOptions(convert, args, raw)
  {
    hide ScanProgress, Scan, FindFlag, BeforeEquals, OptionText, Drop, StartsWithDash, HasEquals;
    hide Insert, BindOne, BindReadings;
    var values: Values := map[];
    var positionals: seq<string> := [];
    ghost var readings: seq<Reading> := [];
    var options := true;
    var index := 0;
    ScanBegun(args, raw);
    NothingBound(convert);
    while index < |raw|
      invariant ScanProgress(args, raw, index, options, Scanned(positionals, readings))
      invariant BindReadings(convert, readings) == Some(values)
    {
      var token := raw[index];
      if options && token == "--" {
        ScanSeparator(args, raw, index, Scanned(positionals, readings));
        options := false;
      } else if options {
        var declaration := FindFlag(args, BeforeEquals(token));
        if declaration.None? {
          ScanUnknown(args, raw, index, Scanned(positionals, readings));
          if StartsWithDash(token) && token != "-" {
            return None;
          }
          positionals := positionals + [token];
        } else {
          var a := declaration.value;
          var text := OptionText(a, token, raw[index + 1..]);
          ScanOption(args, raw, index, Scanned(positionals, readings), a);
          if !a.boolean && text.None? {
            return None;
          }
          if !HasEquals(token) && text.Some? {
            index := index + 1;
          }
          BindOneMore(convert, readings, Reading(a, text));
          readings := readings + [Reading(a, text)];
          var inserted := BindOne(convert, Reading(a, text), values);
          if inserted.None? {
            RefusedFor(convert, args, raw, index + 1, Scanned(positionals, readings));
            return None;
          }
          values := inserted.value;
        }
      } else {
        ScanPlain(args, raw, index, Scanned(positionals, readings));
        positionals := positionals + [token];
      }
      index := index + 1;
    }
    ScanEnded(args, raw, index, options, Scanned(positionals, readings));
    return Some(Hand(positionals, values));
  }

  /** The binder: the tokens, then the positional declarations, then nothing may be left over. */
  method BindSuppliedCliArgs(convert: Convert, args: seq<Arg>, raw: seq<string>) returns (bound: Option<Values>)
    ensures bound == Bind(convert, args, raw)
  {
    hide Scan, HandOne, BindReadings;
    var scanned := BindTokens(convert, args, raw);
    if scanned.None? {
      return None;
    }
    var hand := scanned.value;
    var n := 0;
    while n < |args|
      invariant 0 <= n <= |args| && HandAll(convert, args[..n], scanned.value) == Some(hand)
    {
      HandStep(convert, args, n, scanned.value);
      var next := HandOne(convert, args[n], hand);
      if next.None? {
        HandFails(convert, args, n + 1, scanned.value);
        return None;
      }
      hand := next.value;
      n := n + 1;
    }
    assert args[..n] == args;
    return if hand.rest == [] then Some(hand.values) else None;
  }

  lemma NothingBound(convert: Convert)
    ensures BindReadings(convert, []) == Some(map[])
  {
  }

  lemma BindOneMore(convert: Convert, readings: seq<Reading>, r: Reading)
    ensures BindReadings(convert, readings + [r]) ==
      match BindReadings(convert, readings)
      case None => None
      case Some(values) => BindOne(convert, r, values)
  {
    assert (readings + [r])[..|readings|] == readings;
  }

  lemma {:induction false} RefusedStays(convert: Convert, readings: seq<Reading>, more: seq<Reading>)
    requires BindReadings(convert, readings).None?
    ensures BindReadings(convert, readings + more).None?
    decreases |more|
  {
    if more == [] {
      assert readings + more == readings;
    } else {
      RefusedStays(convert, readings, more[..|more| - 1]);
      assert (readings + more)[..|readings + more| - 1] == readings + more[..|more| - 1];
    }
  }

  /** What was refused of the occurrences read so far is refused of all. */
  lemma RefusedFor(convert: Convert, args: seq<Arg>, raw: seq<string>, index: nat, done: Scanned)
    requires ScanProgress(args, raw, index, true, done) && BindReadings(convert, done.readings).None?
    ensures BindOptions(convert, args, raw).None?
  {
    if Scan(args, raw).Some? {
      var all := Scan(args, raw).value.readings;
      RefusedStays(convert, done.readings, all[|done.readings|..]);
      assert done.readings + all[|done.readings|..] == all;
    }
  }

  lemma HandStep(convert: Convert, args: seq<Arg>, n: nat, h: Hand)
    requires n < |args|
    ensures HandAll(convert, args[..n + 1], h) ==
      match HandAll(convert, args[..n], h)
      case None => None
      case Some(before) => HandOne(convert, args[n], before)
  {
    assert args[..n + 1][..n] == args[..n];
  }

  lemma {:induction false} HandFails(convert: Convert, args: seq<Arg>, n: nat, h: Hand)
    requires n <= |args| && HandAll(convert, args[..n], h).None?
    ensures HandAll(convert, args, h).None?
    decreases |args|
  {
    if n == |args| {
      assert args[..n] == args;
    } else {
      assert args[..|args| - 1][..n] == args[..n];
      HandFails(convert, args[..|args| - 1], n, h);
    }
  }

  function Onto(done: Scanned, rest: Option<Scanned>): Option<Scanned> {
    match rest
    case None => None
    case Some(s) => Some(Scanned(done.positionals + s.positionals, done.readings + s.readings))
  }

  predicate ScanProgress(args: seq<Arg>, raw: seq<string>, index: nat, options: bool, done: Scanned) {
    Scan(args, raw) == Onto(done, if options then Scan(args, Drop(raw, index)) else Some(Scanned(Drop(raw, index), [])))
  }

  lemma ScanBegun(args: seq<Arg>, raw: seq<string>)
    ensures ScanProgress(args, raw, 0, true, Scanned([], []))
  {
    assert Drop(raw, 0) == raw;
    if Scan(args, raw).Some? {
      var s := Scan(args, raw).value;
      assert [] + s.positionals == s.positionals && [] + s.readings == s.readings;
    }
  }

  lemma ScanEnded(args: seq<Arg>, raw: seq<string>, index: nat, options: bool, done: Scanned)
    requires index >= |raw| && ScanProgress(args, raw, index, options, done)
    ensures Scan(args, raw) == Some(done)
  {
    assert Drop(raw, index) == [];
    assert done.positionals + [] == done.positionals && done.readings + [] == done.readings;
  }

  lemma ScanSeparator(args: seq<Arg>, raw: seq<string>, index: nat, done: Scanned)
    requires index < |raw| && ScanProgress(args, raw, index, true, done) && raw[index] == "--"
    ensures ScanProgress(args, raw, index + 1, false, done)
  {
    assert Drop(raw, index)[1..] == Drop(raw, index + 1);
  }

  lemma ScanPlain(args: seq<Arg>, raw: seq<string>, index: nat, done: Scanned)
    requires index < |raw| && ScanProgress(args, raw, index, false, done)
    ensures ScanProgress(args, raw, index + 1, false, Scanned(done.positionals + [raw[index]], done.readings))
  {
    assert Drop(raw, index) == [raw[index]] + Drop(raw, index + 1);
    Regroup(done.positionals, [raw[index]], Drop(raw, index + 1));
  }

  lemma OntoPositional(done: Scanned, token: string, rest: Option<Scanned>)
    ensures Onto(done, WithPositional(token, rest)) == Onto(Scanned(done.positionals + [token], done.readings), rest)
  {
    if rest.Some? {
      Regroup(done.positionals, [token], rest.value.positionals);
    }
  }

  lemma OntoReading(done: Scanned, r: Reading, rest: Option<Scanned>)
    ensures Onto(done, WithReading(r, rest)) == Onto(Scanned(done.positionals, done.readings + [r]), rest)
  {
    if rest.Some? {
      assert (done.readings + [r]) + rest.value.readings == done.readings + ([r] + rest.value.readings);
    }
  }

  lemma ScanUnknown(args: seq<Arg>, raw: seq<string>, index: nat, done: Scanned)
    requires index < |raw| && ScanProgress(args, raw, index, true, done)
    requires raw[index] != "--" && FindFlag(args, BeforeEquals(raw[index])).None?
    ensures if StartsWithDash(raw[index]) && raw[index] != "-" then Scan(args, raw).None?
            else ScanProgress(args, raw, index + 1, true, Scanned(done.positionals + [raw[index]], done.readings))
  {
    assert Drop(raw, index)[0] == raw[index] && Drop(raw, index)[1..] == Drop(raw, index + 1);
    OntoPositional(done, raw[index], Scan(args, Drop(raw, index + 1)));
  }

  lemma ScanAtOption(args: seq<Arg>, raw: seq<string>, a: Arg)
    requires raw != [] && raw[0] != "--" && FindFlag(args, BeforeEquals(raw[0])) == Some(a)
    ensures var text := OptionText(a, raw[0], raw[1..]);
      Scan(args, raw) ==
        if !a.boolean && text.None? then None
        else WithReading(Reading(a, text), Scan(args, Drop(raw, if !HasEquals(raw[0]) && text.Some? then 2 else 1)))
  {
  }

  lemma ScanOption(args: seq<Arg>, raw: seq<string>, index: nat, done: Scanned, a: Arg)
    requires index < |raw| && ScanProgress(args, raw, index, true, done)
    requires raw[index] != "--" && FindFlag(args, BeforeEquals(raw[index])) == Some(a)
    ensures var text := OptionText(a, raw[index], raw[index + 1..]);
      if !a.boolean && text.None? then Scan(args, raw).None?
      else ScanProgress(args, raw, if !HasEquals(raw[index]) && text.Some? then index + 2 else index + 1, true,
                        Scanned(done.positionals, done.readings + [Reading(a, text)]))
  {
    hide Scan, FindFlag, BeforeEquals, OptionText, HasEquals, WithReading;
    var text := OptionText(a, raw[index], raw[index + 1..]);
    var span := if !HasEquals(raw[index]) && text.Some? then 2 else 1;
    ScanAtOption(args, Drop(raw, index), a);
    hide Drop;
    OntoReading(done, Reading(a, text), Scan(args, Drop(raw, index + span)));
  }

  // ---- the binder recovers what was written ---------------------------------------------------------

  function TextReadings(a: Arg, texts: seq<string>): seq<Reading> {
    if texts == [] then [] else [Reading(a, Some(texts[0]))] + TextReadings(a, texts[1..])
  }

  /** The occurrences a canonical argv should hold for one flag. */
  function ReadingsFor(a: Arg, values: Values, supplied: set<string>): seq<Reading> {
    if !a.flag || a.name !in values then []
    else if a.boolean then
      if values[a.name] == Bool(true) then [Reading(a, None)]
      else if a.name in supplied then [Reading(a, Some("false"))] else []
    else if ArgTexts(a, values[a.name]).None? then []
    else TextReadings(a, ArgTexts(a, values[a.name]).value)
  }

  function Readings(args: seq<Arg>, values: Values, supplied: set<string>): seq<Reading> {
    if args == [] then []
    else Readings(args[..|args| - 1], values, supplied) + ReadingsFor(args[|args| - 1], values, supplied)
  }

  predicate FindsItself(args: seq<Arg>, a: Arg) {
    a.name != "" && '=' !in Dashed(a.name) && FindFlag(args, FlagToken(a)) == Some(a)
  }

  lemma {:induction false} AfterEqualsOf(f: string, v: string)
    requires '=' !in f
    ensures AfterEquals(f + "=" + v) == v
  {
    if f == "" {
      assert f + "=" + v == "=" + v;
    } else {
      AfterEqualsOf(f[1..], v);
      assert (f + "=" + v)[1..] == f[1..] + "=" + v;
      assert f == [f[0]] + f[1..];
    }
  }

  lemma OwnToken(args: seq<Arg>, a: Arg)
    requires FindsItself(args, a)
    ensures FlagToken(a) != "--" && !HasEquals(FlagToken(a)) && BeforeEquals(FlagToken(a)) == FlagToken(a)
  {
    FlagTokenParts(a);
    BeforeEqualsPrefix(FlagToken(a));
    assert |Dashed(a.name)| == |a.name|;
  }

  lemma ScanAttached(args: seq<Arg>, a: Arg, v: string, rest: seq<string>)
    requires FindsItself(args, a)
    ensures Scan(args, [FlagToken(a) + "=" + v] + rest) == WithReading(Reading(a, Some(v)), Scan(args, rest))
  {
    var token := FlagToken(a) + "=" + v;
    OwnToken(args, a);
    AttachedValue(FlagToken(a), v);
    AfterEqualsOf(FlagToken(a), v);
    assert token != "--" by { assert |token| > |FlagToken(a)|; assert |FlagToken(a)| >= 2; }
    var raw := [token] + rest;
    assert raw[1..] == rest && Drop(raw, 1) == rest;
    hide Scan;
    ScanAtOption(args, raw, a);
  }

  lemma ScanBare(args: seq<Arg>, a: Arg, rest: seq<string>)
    requires FindsItself(args, a) && a.boolean
    ensures Scan(args, [FlagToken(a)] + rest) == WithReading(Reading(a, None), Scan(args, rest))
  {
    OwnToken(args, a);
    var raw := [FlagToken(a)] + rest;
    assert raw[1..] == rest && Drop(raw, 1) == rest;
    hide Scan;
    ScanAtOption(args, raw, a);
  }

  lemma ScanPair(args: seq<Arg>, a: Arg, v: string, rest: seq<string>)
    requires FindsItself(args, a) && !a.boolean && !DoubleDashed(v)
    ensures Scan(args, [FlagToken(a), v] + rest) == WithReading(Reading(a, Some(v)), Scan(args, rest))
  {
    OwnToken(args, a);
    var raw := [FlagToken(a), v] + rest;
    assert raw[0] == FlagToken(a) && raw[1..] == [v] + rest && Drop(raw, 2) == rest;
    hide Scan;
    ScanAtOption(args, raw, a);
  }

  function Prepend(readings: seq<Reading>, scanned: Option<Scanned>): Option<Scanned> {
    Onto(Scanned([], readings), scanned)
  }

  lemma PrependMore(first: seq<Reading>, second: seq<Reading>, scanned: Option<Scanned>)
    ensures Prepend(first, Prepend(second, scanned)) == Prepend(first + second, scanned)
    ensures Prepend([], scanned) == scanned
    ensures forall r :: WithReading(r, scanned) == Prepend([r], scanned)
  {
    if scanned.Some? {
      var s := scanned.value;
      assert [] + ([] + s.positionals) == [] + s.positionals == s.positionals;
      assert [] + s.readings == s.readings;
      assert first + (second + s.readings) == (first + second) + s.readings;
    }
  }

  lemma {:induction false} ScanValues(args: seq<Arg>, a: Arg, texts: seq<string>, rest: seq<string>)
    requires FindsItself(args, a) && !a.boolean
    ensures Scan(args, ValueTokens(FlagToken(a), texts) + rest) == Prepend(TextReadings(a, texts), Scan(args, rest))
  {
    var f := FlagToken(a);
    if texts == [] {
      assert ValueTokens(f, texts) + rest == rest;
      PrependMore([], [], Scan(args, rest));
    } else {
      var more := ValueTokens(f, texts[1..]);
      ScanValues(args, a, texts[1..], rest);
      hide Scan, Prepend;
      var r := Reading(a, Some(texts[0]));
      if DoubleDashed(texts[0]) {
        ScanAttached(args, a, texts[0], more + rest);
        Regroup([f + "=" + texts[0]], more, rest);
      } else {
        ScanPair(args, a, texts[0], more + rest);
        Regroup([f, texts[0]], more, rest);
      }
      PrependMore([r], TextReadings(a, texts[1..]), Scan(args, rest));
      PrependMore([], [], Scan(args, more + rest));
    }
  }

  lemma ScanTokens(args: seq<Arg>, a: Arg, values: Values, supplied: set<string>, rest: seq<string>)
    requires (a.flag ==> FindsItself(args, a)) && TokensFor(a, values, supplied).Some?
    ensures Scan(args, TokensFor(a, values, supplied).value + rest)
            == Prepend(ReadingsFor(a, values, supplied), Scan(args, rest))
  {
    hide Scan;
    var tokens := TokensFor(a, values, supplied).value;
    PrependMore([], [], Scan(args, rest));
    if !a.flag || a.name !in values {
      assert tokens + rest == rest;
    } else if !a.boolean {
      ScanValues(args, a, ArgTexts(a, values[a.name]).value, rest);
    } else if values[a.name] == Bool(true) {
      ScanBare(args, a, rest);
    } else if a.name in supplied {
      ScanAttached(args, a, "false", rest);
      assert FlagToken(a) + "=" + "false" == FlagToken(a) + "=false";
    } else {
      assert tokens + rest == rest;
    }
  }

  lemma {:induction false} ScanFlags(
    args: seq<Arg>, some: seq<Arg>, values: Values, supplied: set<string>, rest: seq<string>)
    requires forall i :: 0 <= i < |some| && some[i].flag ==> FindsItself(args, some[i])
    requires FlagTokens(some, values, supplied).Some?
    ensures Scan(args, FlagTokens(some, values, supplied).value + rest)
            == Prepend(Readings(some, values, supplied), Scan(args, rest))
    decreases |some|
  {
    hide Scan, FindsItself;
    var tokens := FlagTokens(some, values, supplied).value;
    if some == [] {
      assert tokens + rest == rest;
      PrependMore([], [], Scan(args, rest));
    } else {
      var init, a := some[..|some| - 1], some[|some| - 1];
      var before, own := FlagTokens(init, values, supplied).value, TokensFor(a, values, supplied).value;
      ScanFlags(args, init, values, supplied, own + rest);
      ScanTokens(args, a, values, supplied, rest);
      Regroup(before, own, rest);
      PrependMore(Readings(init, values, supplied), ReadingsFor(a, values, supplied), Scan(args, rest));
    }
  }

  predicate OptionLike(token: string) {
    StartsWithDash(token) && token != "-"
  }

  lemma {:induction false} ScanPositionals(args: seq<Arg>, positionals: seq<string>, rest: seq<string>)
    requires forall i :: 0 <= i < |positionals| ==> !DoubleDashed(positionals[i])
    ensures Scan(args, positionals + rest) ==
      if exists i :: 0 <= i < |positionals| && OptionLike(positionals[i]) then None
      else Onto(Scanned(positionals, []), Scan(args, rest))
  {
    if positionals == [] {
      assert positionals + rest == rest;
      PrependMore([], [], Scan(args, rest));
    } else {
      var token, more := positionals[0], positionals[1..];
      ScanPositionals(args, more, rest);
      ScanPlainToken(args, token, more + rest);
      assert positionals == [token] + more;
      Regroup([token], more, rest);
      assert (exists i :: 0 <= i < |positionals| && OptionLike(positionals[i])) <==>
        OptionLike(token) || exists i :: 0 <= i < |more| && OptionLike(more[i]) by {
        forall i | 0 <= i < |more| ensures positionals[i + 1] == more[i] {}
      }
      hide Scan, OptionLike;
      if Scan(args, rest).Some? {
        Regroup([token], more, Scan(args, rest).value.positionals);
      }
    }
  }

  lemma ScanPlainToken(args: seq<Arg>, token: string, rest: seq<string>)
    requires !DoubleDashed(token)
    ensures Scan(args, [token] + rest) == if OptionLike(token) then None else WithPositional(token, Scan(args, rest))
  {
    BeforeEqualsPrefix(token);
    FoundIsFlag(args, BeforeEquals(token));
    assert ([token] + rest)[1..] == rest && ([token] + rest)[0] == token;
  }

  /** The launcher left a dashed positional where the authority takes it for an unknown flag. */
  predicate DashLeftBare(positionals: seq<string>) {
    && (exists i :: 0 <= i < |positionals| && OptionLike(positionals[i]))
    && forall i :: 0 <= i < |positionals| ==> !DoubleDashed(positionals[i])
  }

  lemma ScanReadsBack(args: seq<Arg>, positionals: seq<string>, values: Values, supplied: set<string>)
    requires PlainNames(args) && FlagTokens(args, values, supplied).Some?
    ensures Scan(args, Assemble(positionals, FlagTokens(args, values, supplied).value)) ==
      if DashLeftBare(positionals) then None else Some(Scanned(positionals, Readings(args, values, supplied)))
  {
    hide Scan, FindFlag, Readings, FlagTokens, Prepend, OptionLike;
    var flags, readings := FlagTokens(args, values, supplied).value, Readings(args, values, supplied);
    forall i | 0 <= i < |args| && args[i].flag ensures FindsItself(args, args[i]) {
      PlainFindsItself(args, i);
    }
    hide FindsItself;
    if exists i :: 0 <= i < |positionals| && DoubleDashed(positionals[i]) {
      ScanFlags(args, args, values, supplied, ["--"] + positionals);
      Regroup(flags, ["--"], positionals);
      ScanSeparated(args, positionals, readings);
    } else {
      assert flags + [] == flags;
      ScanFlags(args, args, values, supplied, []);
      ScanPositionals(args, positionals, flags);
      ScanFinished(args, positionals, readings);
    }
  }

  lemma ScanSeparated(args: seq<Arg>, positionals: seq<string>, readings: seq<Reading>)
    ensures Prepend(readings, Scan(args, ["--"] + positionals)) == Some(Scanned(positionals, readings))
  {
    var tail := ["--"] + positionals;
    assert tail[1..] == positionals && tail[0] == "--";
    assert readings + [] == readings && [] + positionals == positionals;
  }

  lemma ScanFinished(args: seq<Arg>, positionals: seq<string>, readings: seq<Reading>)
    ensures Onto(Scanned(positionals, []), Prepend(readings, Scan(args, []))) == Some(Scanned(positionals, readings))
  {
    assert Scan(args, []) == Some(Scanned([], []));
    var none: seq<string> := [];
    assert none + none == none && positionals + none == positionals;
    assert readings + [] == readings && [] + readings == readings;
  }

  // ---- the launcher's values come back --------------------------------------------------------------

  /** The value reads back from the texts it is written as. */
  predicate TextsConvert(convert: Convert, a: Arg, v: Value) {
    if a.repeatable then
      v.List? && Texts(v.items).Some? && ConvertAll(convert, a, Texts(v.items).value) == Some(v.items)
    else ScalarText(v).Some? && convert(a, Some(ScalarText(v).value)) == Some(v)
  }

  /** A switch reads back from its bare name when on, and from "false" when off. */
  predicate FlagConverts(convert: Convert, a: Arg, v: Value) {
    if a.boolean then
      && !a.repeatable
      && (|| (v == Bool(true) && convert(a, None) == Some(v))
          || (v == Bool(false) && convert(a, Some("false")) == Some(v)))
    else TextsConvert(convert, a, v)
  }

  predicate WritesFlag(a: Arg, values: Values, supplied: set<string>) {
    ReadingsFor(a, values, supplied) != []
  }

  /** What the flags of a canonical argv should bind. */
  function FlagValues(args: seq<Arg>, values: Values, supplied: set<string>): Values {
    if args == [] then map[]
    else
      var before, a := FlagValues(args[..|args| - 1], values, supplied), args[|args| - 1];
      if WritesFlag(a, values, supplied) then before[a.name := values[a.name]] else before
  }

  predicate FlagsConvert(convert: Convert, args: seq<Arg>, values: Values, supplied: set<string>) {
    forall i :: 0 <= i < |args| && WritesFlag(args[i], values, supplied) ==>
      FlagConverts(convert, args[i], values[args[i].name])
  }

  lemma {:induction false} FlagValueNames(args: seq<Arg>, values: Values, supplied: set<string>)
    ensures forall n :: n in FlagValues(args, values, supplied) ==>
              exists i :: 0 <= i < |args| && args[i].flag && args[i].name == n
  {
    if args != [] {
      var init, a := args[..|args| - 1], args[|args| - 1];
      FlagValueNames(init, values, supplied);
      hide ReadingsFor;
      forall n | n in FlagValues(args, values, supplied)
        ensures exists i :: 0 <= i < |args| && args[i].flag && args[i].name == n
      {
        if n in FlagValues(init, values, supplied) {
          var i :| 0 <= i < |init| && init[i].flag && init[i].name == n;
          assert args[i] == init[i];
        } else {
          OnlyFlagsWrite(a, values, supplied);
        }
      }
    }
  }

  lemma OnlyFlagsWrite(a: Arg, values: Values, supplied: set<string>)
    ensures WritesFlag(a, values, supplied) ==> a.flag && a.name in values
  {
  }

  /** Occurrences of one repeatable option, bound after everything before them. */
  lemma {:induction false} BindList(
    convert: Convert, before: seq<Reading>, bound: Values, a: Arg, texts: seq<string>, vs: seq<Value>)
    requires a.repeatable && BindReadings(convert, before) == Some(bound) && a.name !in bound
    requires ConvertAll(convert, a, texts) == Some(vs)
    ensures BindReadings(convert, before + TextReadings(a, texts))
            == Some(if texts == [] then bound else bound[a.name := List(vs)])
    ensures |vs| == |texts|
    decreases |texts|
  {
    hide BindReadings, Insert;
    if texts == [] {
      assert before + TextReadings(a, texts) == before;
    } else {
      var init, last := texts[..|texts| - 1], texts[|texts| - 1];
      BindList(convert, before, bound, a, init, vs[..|vs| - 1]);
      TextReadingsLast(a, texts);
      assert before + TextReadings(a, texts) == (before + TextReadings(a, init)) + [Reading(a, Some(last))];
      BindOneMore(convert, before + TextReadings(a, init), Reading(a, Some(last)));
      InsertsLast(a, bound, vs);
    }
  }

  lemma InsertsLast(a: Arg, bound: Values, vs: seq<Value>)
    requires a.repeatable && a.name !in bound && vs != []
    ensures var init, v := vs[..|vs| - 1], vs[|vs| - 1];
            Insert(a, v, if init == [] then bound else bound[a.name := List(init)]) == Some(bound[a.name := List(vs)])
  {
    var init, v := vs[..|vs| - 1], vs[|vs| - 1];
    assert init + [v] == vs;
    assert bound[a.name := List(init)][a.name := List(vs)] == bound[a.name := List(vs)];
  }

  lemma {:induction false} TextReadingsLast(a: Arg, texts: seq<string>)
    requires texts != []
    ensures TextReadings(a, texts) == TextReadings(a, texts[..|texts| - 1]) + [Reading(a, Some(texts[|texts| - 1]))]
  {
    if |texts| > 1 {
      TextReadingsLast(a, texts[1..]);
      assert texts[1..][..|texts| - 2] == texts[..|texts| - 1][1..];
    }
  }

  lemma BindOwn(convert: Convert, before: seq<Reading>, bound: Values, a: Arg, values: Values, supplied: set<string>)
    requires BindReadings(convert, before) == Some(bound) && a.name !in bound
    requires WritesFlag(a, values, supplied) ==> FlagConverts(convert, a, values[a.name])
    ensures BindReadings(convert, before + ReadingsFor(a, values, supplied))
            == Some(if WritesFlag(a, values, supplied) then bound[a.name := values[a.name]] else bound)
  {
    hide BindReadings, ReadingsFor, TextsConvert, ArgTexts;
    if !WritesFlag(a, values, supplied) {
      assert before + ReadingsFor(a, values, supplied) == before;
    } else if a.repeatable {
      var texts := ListReadings(convert, a, values, supplied);
      BindList(convert, before, bound, a, texts, values[a.name].items);
    } else {
      SingleReading(convert, a, values, supplied);
      var r := ReadingsFor(a, values, supplied)[0];
      assert before + ReadingsFor(a, values, supplied) == before + [r];
      BindOneMore(convert, before, r);
    }
  }

  lemma ListReadings(convert: Convert, a: Arg, values: Values, supplied: set<string>) returns (texts: seq<string>)
    requires WritesFlag(a, values, supplied) && FlagConverts(convert, a, values[a.name]) && a.repeatable
    ensures ReadingsFor(a, values, supplied) == TextReadings(a, texts) && texts != [] && a.name in values
    ensures values[a.name].List? && ConvertAll(convert, a, texts) == Some(values[a.name].items)
  {
    texts := ArgTexts(a, values[a.name]).value;
  }

  lemma SingleReading(convert: Convert, a: Arg, values: Values, supplied: set<string>)
    requires WritesFlag(a, values, supplied) && FlagConverts(convert, a, values[a.name]) && !a.repeatable
    ensures |ReadingsFor(a, values, supplied)| == 1
    ensures var r := ReadingsFor(a, values, supplied)[0];
            r.decl == a && convert(a, r.text) == Some(values[a.name])
            && ReadingsFor(a, values, supplied) == [r]
  {
    if !a.boolean {
      var s := ScalarText(values[a.name]).value;
      assert [s][1..] == [] && TextReadings(a, [s]) == [Reading(a, Some(s))];
    }
  }

  /** Every option occurrence of a canonical argv binds to the launcher's value. */
  lemma {:induction false} FlagsComeBack(convert: Convert, args: seq<Arg>, values: Values, supplied: set<string>)
    requires PlainNames(args) && FlagsConvert(convert, args, values, supplied)
    ensures BindReadings(convert, Readings(args, values, supplied)) == Some(FlagValues(args, values, supplied))
  {
    if args != [] {
      hide ReadingsFor, FlagConverts;
      var init, a := args[..|args| - 1], args[|args| - 1];
      assert forall i :: 0 <= i < |init| ==> init[i] == args[i];
      FlagsComeBack(convert, init, values, supplied);
      FlagValueNames(init, values, supplied);
      OnlyFlagsWrite(a, values, supplied);
      if WritesFlag(a, values, supplied) {
        assert a.name !in FlagValues(init, values, supplied);
        BindOwn(convert, Readings(init, values, supplied), FlagValues(init, values, supplied), a, values, supplied);
      } else {
        assert Readings(args, values, supplied) == Readings(init, values, supplied);
      }
    }
  }

  // ---- positionals come back ------------------------------------------------------------------------

  /** A positional the launcher writes: one that takes a raw positional, `used` of `total` having gone to
      earlier ones, or was supplied or defaulted. */
  predicate KeptOne(a: Arg, used: nat, total: nat, keep: set<string>) {
    !a.flag && (used < total || a.name in keep)
  }

  predicate AllKept(args: seq<Arg>, total: nat, keep: set<string>) {
    args == [] ||
    var init, a := args[..|args| - 1], args[|args| - 1];
    AllKept(init, total, keep) && (a.flag || KeptOne(a, UsedBy(init, total), total, keep))
  }

  predicate NoneRepeats(args: seq<Arg>) {
    forall i :: 0 <= i < |args| && !args[i].flag ==> !args[i].repeatable
  }

  /** Only the last positional may repeat. */
  predicate LastRepeats(args: seq<Arg>) {
    args == [] || (LastRepeats(args[..|args| - 1]) && (args[|args| - 1].flag || NoneRepeats(args[..|args| - 1])))
  }

  function Written(a: Arg, used: nat, total: nat, values: Values, keep: set<string>): Option<Value> {
    if KeptOne(a, used, total, keep) && a.name in values && (a.repeatable ==> values[a.name] != List([]))
    then Some(values[a.name]) else None
  }

  /** No positional is written after one that is not. */
  predicate NoGap(args: seq<Arg>, total: nat, values: Values, keep: set<string>) {
    args == [] ||
    var init, a := args[..|args| - 1], args[|args| - 1];
    && NoGap(init, total, values, keep)
    && (Written(a, UsedBy(init, total), total, values, keep).Some? ==> AllKept(init, total, keep))
  }

  function WithWritten(a: Arg, written: Option<Value>, bound: Values): Values {
    match written
    case None => bound
    case Some(v) => bound[a.name := v]
  }

  /** What the positionals of a canonical argv should bind. */
  function PositionalValues(args: seq<Arg>, total: nat, values: Values, keep: set<string>): Values {
    if args == [] then map[]
    else
      var init, a := args[..|args| - 1], args[|args| - 1];
      WithWritten(a, Written(a, UsedBy(init, total), total, values, keep), PositionalValues(init, total, values, keep))
  }

  predicate PositionalsConvert(convert: Convert, args: seq<Arg>, total: nat, values: Values, keep: set<string>) {
    args == [] ||
    var init, a := args[..|args| - 1], args[|args| - 1];
    && PositionalsConvert(convert, init, total, values, keep)
    && (KeptOne(a, UsedBy(init, total), total, keep) && a.name in values ==> TextsConvert(convert, a, values[a.name]))
  }

  lemma {:induction false} FilledUses(args: seq<Arg>, raw: seq<string>, values: Values, keep: set<string>)
    requires FillAll(args, raw, values, keep).Some?
    ensures FillAll(args, raw, values, keep).value.used == UsedBy(args, |raw|)
  {
    if args != [] {
      FilledUses(args[..|args| - 1], raw, values, keep);
    }
  }

  lemma {:induction false} PositionalNames(args: seq<Arg>, total: nat, values: Values, keep: set<string>)
    ensures forall n :: n in PositionalValues(args, total, values, keep) ==>
              exists i :: 0 <= i < |args| && !args[i].flag && args[i].name == n
  {
    if args != [] {
      var init, a := args[..|args| - 1], args[|args| - 1];
      PositionalNames(init, total, values, keep);
      forall n | n in PositionalValues(args, total, values, keep)
        ensures exists i :: 0 <= i < |args| && !args[i].flag && args[i].name == n
      {
        if n in PositionalValues(init, total, values, keep) {
          var i :| 0 <= i < |init| && !init[i].flag && init[i].name == n;
          assert args[i] == init[i];
        } else {
          assert args[|args| - 1] == a && n == a.name && !a.flag;
        }
      }
    }
  }

  predicate Apart(args: seq<Arg>, bound: Values) {
    forall i :: 0 <= i < |args| && !args[i].flag ==> args[i].name !in bound
  }

  /** One declaration: it takes back the texts it was written as, and leaves the others. */
  lemma HandsOne(convert: Convert, a: Arg, used: nat, raw: seq<string>, values: Values, keep: set<string>,
                 before: Filled, tail: seq<string>, bound: Values)
    requires before.used == used && FillOne(a, raw, values, keep, before).Some? && (a.flag || a.name !in bound)
    requires KeptOne(a, used, |raw|, keep) && a.name in values ==> TextsConvert(convert, a, values[a.name])
    requires a.repeatable || !KeptOne(a, used, |raw|, keep) ==> a.flag || tail == []
    ensures exists own ::
      && FillOne(a, raw, values, keep, before).value.positionals == before.positionals + own
      && HandOne(convert, a, Hand(own + tail, bound))
         == Some(Hand(tail, WithWritten(a, Written(a, used, |raw|, values, keep), bound)))
      && (own == [] <==> Written(a, used, |raw|, values, keep).None?)
  {
    if a.flag || !KeptOne(a, used, |raw|, keep) {
      assert before.positionals + [] == before.positionals && [] + tail == tail;
      var own: seq<string> := [];
      assert HandOne(convert, a, Hand(own + tail, bound)) == Some(Hand(tail, bound)) by {
        assert tail == [] ==> ConvertAll(convert, a, tail) == Some([]);
      }
    } else {
      var own := ArgTexts(a, values[a.name]).value;
      if a.repeatable {
        assert own + tail == own;
        TextsLength(values[a.name].items);
      } else {
        assert (own + tail)[1..] == tail;
      }
    }
  }

  lemma {:induction false} TextsLength(items: seq<Value>)
    requires Texts(items).Some?
    ensures |Texts(items).value| == |items|
  {
    if items != [] {
      TextsLength(items[1..]);
    }
  }

  /** Handing out the written positionals gives back the launcher's values, and leaves what followed. */
  lemma {:induction false} PositionalsComeBack(
    convert: Convert, args: seq<Arg>, raw: seq<string>, values: Values, keep: set<string>, tail: seq<string>,
    bound: Values)
    requires UniqueNames(args) && LastRepeats(args) && NoGap(args, |raw|, values, keep) && Apart(args, bound)
    requires FillAll(args, raw, values, keep).Some? && PositionalsConvert(convert, args, |raw|, values, keep)
    requires tail == [] || (AllKept(args, |raw|, keep) && NoneRepeats(args))
    ensures HandAll(convert, args, Hand(FillAll(args, raw, values, keep).value.positionals + tail, bound))
            == Some(Hand(tail, bound + PositionalValues(args, |raw|, values, keep)))
    decreases |args|
  {
    hide FillOne, HandOne, KeptOne, Written, TextsConvert, Apart, UniqueNames, PositionalsConvert;
    hide NoGap, AllKept, LastRepeats, NoneRepeats;
    if args == [] {
      assert [] + tail == tail && bound + map[] == bound;
    } else {
      var init, a := args[..|args| - 1], args[|args| - 1];
      var before, used := FillAll(init, raw, values, keep).value, UsedBy(init, |raw|);
      var inner := bound + PositionalValues(init, |raw|, values, keep);
      FilledUses(init, raw, values, keep);
      InitApart(args, |raw|, values, keep, bound);
      LastFacts(convert, args, raw, values, keep, tail);
      HandsOne(convert, a, used, raw, values, keep, before, tail, inner);
      var own :| && FillOne(a, raw, values, keep, before).value.positionals == before.positionals + own
                 && HandOne(convert, a, Hand(own + tail, inner))
                    == Some(Hand(tail, WithWritten(a, Written(a, used, |raw|, values, keep), inner)))
                 && (own == [] <==> Written(a, used, |raw|, values, keep).None?);
      PositionalsComeBack(convert, init, raw, values, keep, own + tail, bound);
      Regroup(before.positionals, own, tail);
      WrittenLast(a, Written(a, used, |raw|, values, keep), bound, PositionalValues(init, |raw|, values, keep));
    }
  }

  lemma WrittenLast(a: Arg, written: Option<Value>, bound: Values, before: Values)
    ensures WithWritten(a, written, bound + before) == bound + WithWritten(a, written, before)
  {
  }

  lemma InitApart(args: seq<Arg>, total: nat, values: Values, keep: set<string>, bound: Values)
    requires args != [] && UniqueNames(args) && Apart(args, bound)
    ensures UniqueNames(args[..|args| - 1]) && Apart(args[..|args| - 1], bound)
    ensures !args[|args| - 1].flag ==>
              args[|args| - 1].name !in bound + PositionalValues(args[..|args| - 1], total, values, keep)
  {
    var init := args[..|args| - 1];
    PositionalNames(init, total, values, keep);
    assert forall i :: 0 <= i < |init| ==> init[i] == args[i];
  }

  lemma LastFacts(
    convert: Convert, args: seq<Arg>, raw: seq<string>, values: Values, keep: set<string>, tail: seq<string>)
    requires args != [] && LastRepeats(args) && NoGap(args, |raw|, values, keep)
    requires PositionalsConvert(convert, args, |raw|, values, keep)
    requires tail == [] || (AllKept(args, |raw|, keep) && NoneRepeats(args))
    ensures var init, a := args[..|args| - 1], args[|args| - 1];
            var used := UsedBy(init, |raw|);
            && LastRepeats(init) && NoGap(init, |raw|, values, keep)
            && PositionalsConvert(convert, init, |raw|, values, keep)
            && (KeptOne(a, used, |raw|, keep) && a.name in values ==> TextsConvert(convert, a, values[a.name]))
            && (a.repeatable || !KeptOne(a, used, |raw|, keep) ==> a.flag || tail == [])
            && (Written(a, used, |raw|, values, keep).Some? || tail != [] ==>
                  AllKept(init, |raw|, keep) && NoneRepeats(init))
  {
    var init, a := args[..|args| - 1], args[|args| - 1];
    assert forall i :: 0 <= i < |init| ==> init[i] == args[i];
    hide TextsConvert;
  }

  // ---- and only without a gap -----------------------------------------------------------------------

  lemma {:induction false} AllKeptHasNoGap(args: seq<Arg>, total: nat, values: Values, keep: set<string>)
    requires AllKept(args, total, keep)
    ensures NoGap(args, total, values, keep)
  {
    if args != [] {
      AllKeptHasNoGap(args[..|args| - 1], total, values, keep);
    }
  }

  /** A name is bound that the launcher's positionals do not bind. */
  predicate Spoiled(args: seq<Arg>, total: nat, values: Values, keep: set<string>, bound: Values) {
    exists i :: 0 <= i < |args| && !args[i].flag && args[i].name in bound
                && args[i].name !in PositionalValues(args, total, values, keep)
  }

  lemma SpoiledStays(args: seq<Arg>, total: nat, values: Values, keep: set<string>, bound: Values, more: Values)
    requires args != [] && UniqueNames(args) && Spoiled(args[..|args| - 1], total, values, keep, bound)
    requires bound.Keys <= more.Keys
    ensures Spoiled(args, total, values, keep, more)
  {
    var init, a := args[..|args| - 1], args[|args| - 1];
    var i :| 0 <= i < |init| && !init[i].flag && init[i].name in bound
             && init[i].name !in PositionalValues(init, total, values, keep);
    hide Written;
    assert args[i] == init[i] && args[i].name != a.name;
    assert args[i].name in more;
  }

  lemma HandOneKeeps(convert: Convert, a: Arg, h: Hand)
    ensures HandOne(convert, a, h).Some? ==> h.values.Keys <= HandOne(convert, a, h).value.values.Keys
  {
  }

  /** A text that reaches a declaration the launcher left out is bound to it. */
  lemma {:induction false} GapSpoils(
    convert: Convert, args: seq<Arg>, raw: seq<string>, values: Values, keep: set<string>, tail: seq<string>,
    bound: Values)
    requires UniqueNames(args) && LastRepeats(args) && Apart(args, bound) && (tail != [] ==> NoneRepeats(args))
    requires FillAll(args, raw, values, keep).Some? && PositionalsConvert(convert, args, |raw|, values, keep)
    requires !NoGap(args, |raw|, values, keep) || (tail != [] && !AllKept(args, |raw|, keep))
    ensures var h := HandAll(convert, args, Hand(FillAll(args, raw, values, keep).value.positionals + tail, bound));
            h.Some? ==> Spoiled(args, |raw|, values, keep, h.value.values)
    decreases |args|
  {
    hide HandOne, Written, TextsConvert, Spoiled;
    if args != [] {
      var init, a := args[..|args| - 1], args[|args| - 1];
      var before, used := FillAll(init, raw, values, keep).value, UsedBy(init, |raw|);
      FilledUses(init, raw, values, keep);
      InitApart(args, |raw|, values, keep, bound);
      var own := OwnTexts(a, used, raw, values, keep, before);
      InitRepeats(args, own, tail);
      Regroup(before.positionals, own, tail);
      if !NoGap(init, |raw|, values, keep) || (own + tail != [] && !AllKept(init, |raw|, keep)) {
        GapSpoils(convert, init, raw, values, keep, own + tail, bound);
        var h := HandAll(convert, init, Hand(before.positionals + (own + tail), bound));
        if h.Some? {
          HandOneKeeps(convert, a, h.value);
          if HandOne(convert, a, h.value).Some? {
            SpoiledStays(args, |raw|, values, keep, h.value.values, HandOne(convert, a, h.value).value.values);
          }
        }
      } else {
        assert own == [] && tail != [] && !a.flag && !KeptOne(a, used, |raw|, keep) && AllKept(init, |raw|, keep);
        LeftOutTakes(convert, args, raw, values, keep, tail, bound);
      }
    }
  }

  lemma LeftOutTakes(
    convert: Convert, args: seq<Arg>, raw: seq<string>, values: Values, keep: set<string>, tail: seq<string>,
    bound: Values)
    requires args != [] && UniqueNames(args) && LastRepeats(args) && Apart(args, bound)
    requires FillAll(args, raw, values, keep).Some? && PositionalsConvert(convert, args, |raw|, values, keep)
    requires var init, a := args[..|args| - 1], args[|args| - 1];
             && AllKept(init, |raw|, keep) && !a.flag && !KeptOne(a, UsedBy(init, |raw|), |raw|, keep)
    requires tail != [] && NoneRepeats(args)
    ensures var h := HandAll(convert, args, Hand(FillAll(args, raw, values, keep).value.positionals + tail, bound));
            h.Some? ==> Spoiled(args, |raw|, values, keep, h.value.values)
  {
    var init, a := args[..|args| - 1], args[|args| - 1];
    FilledUses(init, raw, values, keep);
    InitApart(args, |raw|, values, keep, bound);
    InitRepeats(args, [], tail);
    AllKeptHasNoGap(init, |raw|, values, keep);
    hide AllKept, NoGap, LastRepeats, TextsConvert, UniqueNames, Apart;
    PositionalsComeBack(convert, init, raw, values, keep, tail, bound);
    assert a == args[|args| - 1];
  }

  /** The texts one declaration adds, none unless it is written. */
  lemma OwnTexts(a: Arg, used: nat, raw: seq<string>, values: Values, keep: set<string>, before: Filled)
    returns (own: seq<string>)
    requires before.used == used && FillOne(a, raw, values, keep, before).Some?
    ensures FillOne(a, raw, values, keep, before).value.positionals == before.positionals + own
    ensures own == [] <==> Written(a, used, |raw|, values, keep).None?
    ensures own != [] ==> KeptOne(a, used, |raw|, keep)
  {
    if KeptOne(a, used, |raw|, keep) {
      own := ArgTexts(a, values[a.name]).value;
      if a.repeatable {
        TextsLength(values[a.name].items);
      }
    } else {
      own := [];
      assert before.positionals + own == before.positionals;
    }
  }

  lemma InitRepeats(args: seq<Arg>, own: seq<string>, tail: seq<string>)
    requires args != [] && LastRepeats(args) && (tail != [] ==> NoneRepeats(args))
    requires own != [] ==> !args[|args| - 1].flag
    ensures [] + tail == tail && (own + tail == [] <==> own == [] && tail == [])
    ensures own + tail != [] ==> NoneRepeats(args[..|args| - 1])
    ensures LastRepeats(args[..|args| - 1])
  {
    var init := args[..|args| - 1];
    assert forall i :: 0 <= i < |init| ==> init[i] == args[i];
  }

  /** The flags and the positionals the launcher wrote, with their values. */
  function WrittenValues(
    args: seq<Arg>, raw: seq<string>, values: Values, defaulted: set<string>, supplied: set<string>): Values
  {
    FlagValues(args, values, supplied)
    + PositionalValues(args, |Positionals(args, raw)|, values, defaulted + supplied)
  }

  /** Declarations the manifest admits, a raw argv they take whole, and values that survive their texts. */
  predicate Launched(
    convert: Convert, args: seq<Arg>, raw: seq<string>, values: Values, defaulted: set<string>, supplied: set<string>)
  {
    var total := |Positionals(args, raw)|;
    && UniqueNames(args) && PlainNames(args) && LastRepeats(args) && UsedBy(args, total) == total
    && FlagsConvert(convert, args, values, supplied)
    && PositionalsConvert(convert, args, total, values, defaulted + supplied)
    && CanonicalArgv(args, raw, values, defaulted, supplied).Some?
  }

  /**
   The authority binds a canonical argv to the very values the launcher wrote exactly when no positional
   is written after one that is left out, and the launcher left no dashed positional bare.
   */
  lemma BinderRecoversIff(
    convert: Convert, args: seq<Arg>, raw: seq<string>, values: Values, defaulted: set<string>, supplied: set<string>)
    requires Launched(convert, args, raw, values, defaulted, supplied)
    ensures Bind(convert, args, CanonicalArgv(args, raw, values, defaulted, supplied).value)
            == Some(WrittenValues(args, raw, values, defaulted, supplied)) <==>
            && !DashLeftBare(BoundPositionals(args, raw, values, defaulted + supplied).value)
            && NoGap(args, |Positionals(args, raw)|, values, defaulted + supplied)
  {
    hide Bind, HandAll, CanonicalArgv, DashLeftBare, NoGap, LastRepeats, FlagsConvert, PositionalsConvert, UniqueNames;
    var given, keep := Positionals(args, raw), defaulted + supplied;
    var flags := FlagValues(args, values, supplied);
    BoundAfterScan(convert, args, raw, values, defaulted, supplied);
    var filled := FillAll(args, given, values, keep).value;
    assert filled.positionals + [] == filled.positionals;
    FlagsApart(args, values, supplied);
    if NoGap(args, |given|, values, keep) {
      PositionalsComeBack(convert, args, given, values, keep, [], flags);
    } else {
      GapSpoils(convert, args, given, values, keep, [], flags);
      NotSpoiled(args, |given|, values, keep, supplied);
    }
  }

  /** Once scanned, a canonical argv leaves the written positionals to be handed out beside the flags' values. */
  lemma BoundAfterScan(
    convert: Convert, args: seq<Arg>, raw: seq<string>, values: Values, defaulted: set<string>, supplied: set<string>)
    requires Launched(convert, args, raw, values, defaulted, supplied)
    ensures var given, keep := Positionals(args, raw), defaulted + supplied;
            && FillAll(args, given, values, keep).Some?
            && var written := FillAll(args, given, values, keep).value.positionals;
               && BoundPositionals(args, raw, values, keep) == Some(written)
               && Bind(convert, args, CanonicalArgv(args, raw, values, defaulted, supplied).value)
                  == (if DashLeftBare(written) then None
                      else HandedWhole(HandAll(convert, args, Hand(written, FlagValues(args, values, supplied)))))
  {
    hide Scan, HandAll, Assemble, PlainNames, DashLeftBare, LastRepeats, FlagsConvert, PositionalsConvert, UniqueNames;
    hide Positionals, FillAll, FlagTokens, Readings, BindReadings;
    var given, keep := Positionals(args, raw), defaulted + supplied;
    var filled := FillAll(args, given, values, keep).value;
    FilledUses(args, given, values, keep);
    assert filled.positionals + Drop(given, filled.used) == filled.positionals + [] == filled.positionals;
    ScanReadsBack(args, filled.positionals, values, supplied);
    FlagsComeBack(convert, args, values, supplied);
  }

  lemma FlagsApart(args: seq<Arg>, values: Values, supplied: set<string>)
    requires UniqueNames(args)
    ensures Apart(args, FlagValues(args, values, supplied))
  {
    FlagValueNames(args, values, supplied);
  }

  lemma NotSpoiled(args: seq<Arg>, total: nat, values: Values, keep: set<string>, supplied: set<string>)
    requires UniqueNames(args)
    ensures !Spoiled(args, total, values, keep,
                     FlagValues(args, values, supplied) + PositionalValues(args, total, values, keep))
  {
    FlagsApart(args, values, supplied);
  }

  // ---- what the manifest rules out ------------------------------------------------------------------

  /** No positional has a default while another may be left out. */
  predicate NotMixed(args: seq<Arg>, required: set<string>, defaults: set<string>) {
    (exists i :: 0 <= i < |args| && !args[i].flag && args[i].name !in required && args[i].name !in defaults) ==>
      forall i :: 0 <= i < |args| && !args[i].flag ==> args[i].name !in defaults
  }

  /** A positional is supplied only by taking a raw one. */
  predicate SuppliedByTaking(args: seq<Arg>, total: nat, supplied: set<string>) {
    args == [] ||
    var init, a := args[..|args| - 1], args[|args| - 1];
    SuppliedByTaking(init, total, supplied) && (!a.flag && a.name in supplied ==> UsedBy(init, total) < total)
  }

  lemma {:induction false} GivenAllKept(args: seq<Arg>, total: nat, keep: set<string>)
    requires UsedBy(args, total) < total
    ensures AllKept(args, total, keep)
  {
    if args != [] {
      GivenAllKept(args[..|args| - 1], total, keep);
    }
  }

  lemma {:induction false} KeepAllKept(args: seq<Arg>, total: nat, keep: set<string>)
    requires forall i :: 0 <= i < |args| && !args[i].flag ==> args[i].name in keep
    ensures AllKept(args, total, keep)
  {
    if args != [] {
      assert forall i :: 0 <= i < |args| - 1 ==> args[..|args| - 1][i] == args[i];
      KeepAllKept(args[..|args| - 1], total, keep);
    }
  }

  /** Under the manifest's rules, with every required argument supplied and every other default applied,
      there is no gap. */
  lemma {:induction false} ManifestLeavesNoGap(
    args: seq<Arg>, n: nat, total: nat, values: Values, defaulted: set<string>, supplied: set<string>,
    required: set<string>, defaults: set<string>)
    requires n <= |args| && NotMixed(args, required, defaults) && SuppliedByTaking(args[..n], total, supplied)
    requires forall i :: 0 <= i < |args| && !args[i].flag ==>
               && (args[i].name in required ==> args[i].name in supplied)
               && (args[i].name in defaulted <==> args[i].name in defaults && args[i].name !in supplied)
    ensures NoGap(args[..n], total, values, defaulted + supplied)
    decreases n
  {
    if n > 0 {
      var init, a, keep := args[..n - 1], args[n - 1], defaulted + supplied;
      assert args[..n][..n - 1] == init;
      ManifestLeavesNoGap(args, n - 1, total, values, defaulted, supplied, required, defaults);
      if !a.flag && a.name in defaulted {
        KeepAllKept(init, total, keep);
      } else if KeptOne(a, UsedBy(init, total), total, keep) {
        GivenAllKept(init, total, keep);
      }
    }
  }

  /** Without that rule: two optional positionals, the second defaulted, and its value lands in the first. */
  lemma GapMisbinds(a: string, b: string)
    requires a != b
    ensures var args := [Arg(a, false, false, false), Arg(b, false, false, false)];
            var convert := (d: Arg, text: Option<string>) => if text.Some? then Some(Text(text.value)) else None;
            var argv := CanonicalArgv(args, [], map[b := Text("x")], {b}, {});
            && argv == Some(["x"])
            && Bind(convert, args, argv.value) == Some(map[a := Text("x")])
  {
    var first, second := Arg(a, false, false, false), Arg(b, false, false, false);
    var args, values: Values := [first, second], map[b := Text("x")];
    var convert := (d: Arg, text: Option<string>) => if text.Some? then Some(Text(text.value)) else None;
    assert args[..1] == [first] && [first][..0] == [] && args[1..] == [second] && [second][1..] == [];
    assert FillAll([first], [], values, {b}) == Some(Filled([], 0));
    assert [] + ["x"] == ["x"] && ["x"] + [] == ["x"] && ["x"][1..] == [];
    assert FillOne(second, [], values, {b}, Filled([], 0)) == Some(Filled(["x"], 0));
    assert FillAll(args, [], values, {b}) == Some(Filled(["x"], 0));
    assert Positionals(args, []) == [] && Drop([], 0) == [];
    assert BoundPositionals(args, [], values, {b}) == Some(["x"]);
    assert FlagTokens([first], values, {}) == Some([]) && FlagTokens(args, values, {}) == Some([]);
    assert {b} + {} == {b} && !DoubleDashed("x");
    assert CanonicalArgv(args, [], values, {b}, {}) == Some(["x"]);
    assert FindFlag([second], BeforeEquals("x")).None? && FindFlag(args, BeforeEquals("x")).None?;
    assert Scan(args, []) == Some(Scanned([], []));
    assert Scan(args, ["x"]) == Some(Scanned(["x"], []));
    assert HandAll(convert, [first], Hand(["x"], map[])) == Some(Hand([], map[a := Text("x")]));
    assert HandAll(convert, args, Hand(["x"], map[])) == Some(Hand([], map[a := Text("x")]));
  }
}
