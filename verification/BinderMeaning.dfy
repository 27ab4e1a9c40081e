/**
 What the authority's binder makes of an argv, whichever it is: the ways an argv can be written, and
 the values its options and positionals stand for.
 */
module BinderMeaning {
  import opened Wrappers
  import opened OperationArgv
  import opened OperationBinding

  // ---- how an argv is written -----------------------------------------------------------------------

  /** A stretch of an argv: a positional, or an option alone, with its text attached, or before it. */
  datatype Piece = Plain(token: string) | Bare(decl: Arg) | Attached(decl: Arg, text: string)
                 | Spaced(decl: Arg, text: string)

  /** An option is two dashes and the name, each underscore a dash. */
  lemma {:induction false} OptionSpelling(a: Arg)
    ensures |FlagToken(a)| == |a.name| + 2 && FlagToken(a)[..2] == "--"
    ensures forall i :: 0 <= i < |a.name| ==> FlagToken(a)[i + 2] == (if a.name[i] == '_' then '-' else a.name[i])
    ensures '=' in FlagToken(a) <==> '=' in a.name
  {
    DashedLetters(a.name);
    var d := Dashed(a.name);
    assert FlagToken(a) == "--" + d && FlagToken(a)[2..] == d;
    if '=' in a.name {
      var i :| 0 <= i < |a.name| && a.name[i] == '=';
      assert FlagToken(a)[i + 2] == '=';
    }
    if '=' in FlagToken(a) {
      var i :| 0 <= i < |FlagToken(a)| && FlagToken(a)[i] == '=';
      assert i >= 2 && a.name[i - 2] == '=';
    }
  }

  lemma {:induction false} DashedLetters(s: string)
    ensures forall i :: 0 <= i < |s| ==> Dashed(s)[i] == (if s[i] == '_' then '-' else s[i])
  {
    if s != "" {
      DashedLetters(s[1..]);
    }
  }

  /** The first declaration of a flag spelled this way, by a name without an equals sign. */
  ghost predicate Declares(args: seq<Arg>, a: Arg) {
    && '=' !in a.name
    && exists i :: 0 <= i < |args| && args[i] == a && a.flag
                   && forall j :: 0 <= j < i ==> !args[j].flag || FlagToken(args[j]) != FlagToken(a)
  }

  /** A positional has no dash in front, unless it is a lone one. Without an equals sign an option is
      a switch, or takes the next token, which does not start with two dashes. */
  ghost predicate PieceOk(args: seq<Arg>, p: Piece) {
    match p
    case Plain(token) => token == "" || token[0] != '-' || token == "-"
    case Bare(a) => Declares(args, a) && a.name != "" && a.boolean
    case Attached(a, _) => Declares(args, a)
    case Spaced(a, text) => Declares(args, a) && a.name != "" && !a.boolean && !("--" <= text)
  }

  function TokensOf(p: Piece): seq<string> {
    match p
    case Plain(token) => [token]
    case Bare(a) => [FlagToken(a)]
    case Attached(a, text) => [FlagToken(a) + "=" + text]
    case Spaced(a, text) => [FlagToken(a), text]
  }

  /** The pieces, then the separator and what is behind it, if anything. */
  function Written(pieces: seq<Piece>, behind: Option<seq<string>>): seq<string> {
    if pieces == [] then if behind.Some? then ["--"] + behind.value else []
    else TokensOf(pieces[0]) + Written(pieces[1..], behind)
  }

  function PlainsOf(pieces: seq<Piece>): seq<string> {
    if pieces == [] then []
    else (if pieces[0].Plain? then [pieces[0].token] else []) + PlainsOf(pieces[1..])
  }

  function ReadingOf(p: Piece): seq<Reading> {
    match p
    case Plain(_) => []
    case Bare(a) => [Reading(a, None)]
    case Attached(a, text) => [Reading(a, Some(text))]
    case Spaced(a, text) => [Reading(a, Some(text))]
  }

  function OptionsOf(pieces: seq<Piece>): seq<Reading> {
    if pieces == [] then [] else ReadingOf(pieces[0]) + OptionsOf(pieces[1..])
  }

  /** Everything the pieces say, and the tokens behind the separator as positionals. */
  function SaidBy(pieces: seq<Piece>, behind: Option<seq<string>>): Scanned {
    Scanned(PlainsOf(pieces) + (if behind.Some? then behind.value else []), OptionsOf(pieces))
  }

  ghost predicate Writes(args: seq<Arg>, pieces: seq<Piece>, behind: Option<seq<string>>, raw: seq<string>) {
    (forall i :: 0 <= i < |pieces| ==> PieceOk(args, pieces[i])) && raw == Written(pieces, behind)
  }

  // ---- finding declarations -------------------------------------------------------------------------

  lemma {:induction false} FindsDeclared(args: seq<Arg>, a: Arg)
    ensures Declares(args, a) <==> '=' !in a.name && a.flag && FindFlag(args, FlagToken(a)) == Some(a)
  {
    if args != [] {
      FindsDeclared(args[1..], a);
      if !args[0].flag || FlagToken(args[0]) != FlagToken(a) {
        DeclaredLater(args, a);
      } else if args[0] == a && '=' !in a.name {
        assert args[0] == a;
      }
    }
  }

  lemma DeclaredLater(args: seq<Arg>, a: Arg)
    requires args != [] && (!args[0].flag || FlagToken(args[0]) != FlagToken(a))
    ensures Declares(args, a) <==> Declares(args[1..], a)
  {
    hide Declares;
    if Declares(args[1..], a) {
      DeclaredBehind(args, a);
    }
    if Declares(args, a) {
      DeclaredNotFirst(args, a);
    }
  }

  lemma DeclaredBehind(args: seq<Arg>, a: Arg)
    requires args != [] && (!args[0].flag || FlagToken(args[0]) != FlagToken(a)) && Declares(args[1..], a)
    ensures Declares(args, a)
  {
    hide FlagToken;
    var rest := args[1..];
    var i :| 0 <= i < |rest| && rest[i] == a && a.flag
             && forall j :: 0 <= j < i ==> !rest[j].flag || FlagToken(rest[j]) != FlagToken(a);
    assert args[i + 1] == a && forall j :: 0 < j < i + 1 ==> args[j] == rest[j - 1];
  }

  lemma DeclaredNotFirst(args: seq<Arg>, a: Arg)
    requires args != [] && (!args[0].flag || FlagToken(args[0]) != FlagToken(a)) && Declares(args, a)
    ensures Declares(args[1..], a)
  {
    hide FlagToken;
    var rest := args[1..];
    var i :| 0 <= i < |args| && args[i] == a && a.flag
             && forall j :: 0 <= j < i ==> !args[j].flag || FlagToken(args[j]) != FlagToken(a);
    assert i > 0 && rest[i - 1] == a && forall j :: 0 <= j < |rest| ==> rest[j] == args[j + 1];
  }

  lemma {:induction false} FoundIsFlag(args: seq<Arg>, option: string)
    ensures FindFlag(args, option).Some? ==>
              var a := FindFlag(args, option).value; a in args && a.flag && FlagToken(a) == option
  {
    if args != [] {
      FoundIsFlag(args[1..], option);
    }
  }

  lemma {:induction false} EqualsParts(token: string)
    ensures '=' !in BeforeEquals(token) && BeforeEquals(token) <= token
    ensures HasEquals(token) ==> token == BeforeEquals(token) + "=" + AfterEquals(token)
    ensures !HasEquals(token) ==> token == BeforeEquals(token)
  {
    if token != "" && token[0] != '=' {
      EqualsParts(token[1..]);
      assert token == [token[0]] + token[1..];
      assert HasEquals(token) <==> HasEquals(token[1..]);
    } else if token != "" {
      assert token == "" + "=" + token[1..];
    }
  }

  lemma {:induction false} EqualsSplit(f: string, v: string)
    requires '=' !in f
    ensures var token := f + "=" + v;
            HasEquals(token) && BeforeEquals(token) == f && AfterEquals(token) == v
  {
    var token := f + "=" + v;
    assert token[|f|] == '=';
    if f == "" {
      assert token == "=" + v;
    } else {
      EqualsSplit(f[1..], v);
      assert token[1..] == f[1..] + "=" + v && f == [f[0]] + f[1..];
    }
  }

  /** A token with an option's name is dashed, so what has no dash names none. */
  lemma PlainFindsNothing(args: seq<Arg>, token: string)
    requires token == "" || token[0] != '-' || token == "-"
    ensures token != "--" && FindFlag(args, BeforeEquals(token)).None?
  {
    EqualsParts(token);
    FoundIsFlag(args, BeforeEquals(token));
    if FindFlag(args, BeforeEquals(token)).Some? {
      OptionSpelling(FindFlag(args, BeforeEquals(token)).value);
      assert false;
    }
  }

  // ---- reading is the inverse of writing --------------------------------------------------------------

  function WithPiece(p: Piece, scanned: Option<Scanned>): Option<Scanned> {
    if p.Plain? then WithPositional(p.token, scanned)
    else WithReading(Reading(p.decl, if p.Bare? then None else Some(p.text)), scanned)
  }

  lemma ReadPiece(args: seq<Arg>, p: Piece, rest: seq<string>)
    requires PieceOk(args, p)
    ensures Scan(args, TokensOf(p) + rest) == WithPiece(p, Scan(args, rest))
  {
    hide Scan, FlagToken;
    var raw := TokensOf(p) + rest;
    match p
    case Plain(token) =>
      ReadPlain(args, token, rest);
    case Attached(a, text) =>
      ReadAttached(args, a, text, rest);
    case Bare(a) =>
      ReadBare(args, a, raw);
      assert Drop(raw, 1) == rest && raw[1..] == rest;
    case Spaced(a, text) =>
      ReadBare(args, a, raw);
      assert Drop(raw, 2) == rest && raw[1..] == [text] + rest;
  }

  lemma ReadPlain(args: seq<Arg>, token: string, rest: seq<string>)
    requires PieceOk(args, Plain(token))
    ensures Scan(args, [token] + rest) == WithPositional(token, Scan(args, rest))
  {
    PlainFindsNothing(args, token);
    assert ([token] + rest)[1..] == rest;
  }

  lemma ReadAttached(args: seq<Arg>, a: Arg, text: string, rest: seq<string>)
    requires Declares(args, a)
    ensures Scan(args, [FlagToken(a) + "=" + text] + rest) == WithReading(Reading(a, Some(text)), Scan(args, rest))
  {
    hide Scan;
    var raw := [FlagToken(a) + "=" + text] + rest;
    FindsDeclared(args, a);
    OptionSpelling(a);
    EqualsSplit(FlagToken(a), text);
    assert raw[1..] == rest && Drop(raw, 1) == rest;
    assert raw[0] != "--" by { assert |raw[0]| > 2; }
    ScanAtOption(args, raw, a);
  }

  lemma ReadBare(args: seq<Arg>, a: Arg, raw: seq<string>)
    requires Declares(args, a) && a.name != "" && raw != [] && raw[0] == FlagToken(a)
    ensures !HasEquals(raw[0])
    ensures var text := OptionText(a, raw[0], raw[1..]);
      Scan(args, raw) ==
        if !a.boolean && text.None? then None
        else WithReading(Reading(a, text), Scan(args, Drop(raw, if text.Some? then 2 else 1)))
  {
    FindsDeclared(args, a);
    OptionSpelling(a);
    EqualsParts(raw[0]);
    assert raw[0] != "--" by { assert |raw[0]| > 2; }
    hide Scan;
    ScanAtOption(args, raw, a);
  }

  /** However an argv is written, the binder reads what its pieces say. */
  lemma {:induction false} WrittenScans(args: seq<Arg>, pieces: seq<Piece>, behind: Option<seq<string>>)
    requires forall i :: 0 <= i < |pieces| ==> PieceOk(args, pieces[i])
    ensures Scan(args, Written(pieces, behind)) == Some(SaidBy(pieces, behind))
  {
    if pieces != [] {
      var rest := Written(pieces[1..], behind);
      WrittenScans(args, pieces[1..], behind);
      hide Scan;
      ReadPiece(args, pieces[0], rest);
      SaidMore(pieces, behind);
    } else {
      var tail := if behind.Some? then behind.value else [];
      assert PlainsOf(pieces) + tail == tail && OptionsOf(pieces) == [];
      assert behind.Some? ==> Written(pieces, behind)[1..] == tail;
    }
  }

  lemma SaidMore(pieces: seq<Piece>, behind: Option<seq<string>>)
    requires pieces != []
    ensures Some(SaidBy(pieces, behind)) == WithPiece(pieces[0], Some(SaidBy(pieces[1..], behind)))
  {
    var tail := if behind.Some? then behind.value else [];
    if pieces[0].Plain? {
      Regroup([pieces[0].token], PlainsOf(pieces[1..]), tail);
    } else {
      assert [] + PlainsOf(pieces[1..]) == PlainsOf(pieces[1..]);
    }
    assert [] + OptionsOf(pieces[1..]) == OptionsOf(pieces[1..]);
  }

  /** What the binder can read was written in such pieces. */
  lemma {:induction false} ScannedWritten(args: seq<Arg>, raw: seq<string>)
    returns (pieces: seq<Piece>, behind: Option<seq<string>>)
    requires Scan(args, raw).Some?
    ensures Writes(args, pieces, behind, raw)
    decreases |raw|
  {
    hide Scan, PieceOk;
    pieces, behind := [], None;
    if raw == [] {
    } else if raw[0] == "--" {
      behind := Some(raw[1..]);
    } else {
      var p := FirstPiece(args, raw);
      var more;
      more, behind := ScannedWritten(args, raw[|TokensOf(p)|..]);
      pieces := [p] + more;
      WritesMore(args, p, more, behind, raw);
      hide Writes;
    }
  }

  lemma WritesMore(args: seq<Arg>, p: Piece, more: seq<Piece>, behind: Option<seq<string>>, raw: seq<string>)
    requires PieceOk(args, p) && TokensOf(p) <= raw && Writes(args, more, behind, raw[|TokensOf(p)|..])
    ensures Writes(args, [p] + more, behind, raw)
  {
    hide PieceOk;
    var pieces := [p] + more;
    assert pieces[0] == p && pieces[1..] == more;
    assert raw == TokensOf(p) + raw[|TokensOf(p)|..];
    hide TokensOf;
  }

  lemma FirstPiece(args: seq<Arg>, raw: seq<string>) returns (p: Piece)
    requires Scan(args, raw).Some? && raw != [] && raw[0] != "--"
    ensures PieceOk(args, p) && TokensOf(p) <= raw && Scan(args, raw[|TokensOf(p)|..]).Some?
  {
    var found := FindFlag(args, BeforeEquals(raw[0]));
    if found.None? {
      p := Plain(raw[0]);
      assert StartsWithDash(raw[0]) <==> raw[0] != "" && raw[0][0] == '-';
    } else {
      var a := found.value;
      var text := OptionText(a, raw[0], raw[1..]);
      EqualsParts(raw[0]);
      FoundIsFlag(args, BeforeEquals(raw[0]));
      OptionSpelling(a);
      FindsDeclared(args, a);
      p := if HasEquals(raw[0]) then Attached(a, AfterEquals(raw[0]))
           else if text.Some? then Spaced(a, text.value) else Bare(a);
      assert a.name == "" ==> FlagToken(a) == "--";
      assert raw[|TokensOf(p)|..] == Drop(raw, if !HasEquals(raw[0]) && text.Some? then 2 else 1);
      assert TokensOf(p) == raw[..|TokensOf(p)|];
    }
  }

  // ---- what readings stand for ------------------------------------------------------------------------

  ghost predicate AllConvert(convert: Convert, rs: seq<Reading>) {
    forall i :: 0 <= i < |rs| ==> convert(rs[i].decl, rs[i].text).Some?
  }

  ghost predicate OnceUnlessRepeatable(rs: seq<Reading>) {
    forall i, j :: 0 <= i < j < |rs| && rs[i].decl == rs[j].decl ==> rs[i].decl.repeatable
  }

  /** The values one declaration's readings convert to, in order. */
  function Collected(convert: Convert, rs: seq<Reading>, a: Arg): seq<Value> {
    if rs == [] then []
    else
      var r := rs[|rs| - 1];
      Collected(convert, rs[..|rs| - 1], a)
      + if r.decl == a && convert(r.decl, r.text).Some? then [convert(r.decl, r.text).value] else []
  }

  function NamesIn(rs: seq<Reading>): set<string> {
    set i | 0 <= i < |rs| :: rs[i].decl.name
  }

  /** The map has the value of a reading given once, or the list of all of its declaration in order. */
  ghost predicate Holds(convert: Convert, rs: seq<Reading>, values: Values, r: Reading) {
    && r.decl.name in values && convert(r.decl, r.text).Some?
    && values[r.decl.name] == if r.decl.repeatable then List(Collected(convert, rs, r.decl))
                              else convert(r.decl, r.text).value
  }

  /** Every reading converts, none is repeated that may not be, and the map holds just them. */
  ghost predicate StandFor(convert: Convert, rs: seq<Reading>, values: Values) {
    && AllConvert(convert, rs) && OnceUnlessRepeatable(rs)
    && values.Keys == NamesIn(rs)
    && forall i :: 0 <= i < |rs| ==> Holds(convert, rs, values, rs[i])
  }

  /** Readings of one name are of one declaration. */
  ghost predicate OneDeclaration(rs: seq<Reading>) {
    forall i, j :: 0 <= i < j < |rs| && rs[i].decl.name == rs[j].decl.name ==> rs[i].decl == rs[j].decl
  }

  lemma StandForOne(convert: Convert, rs: seq<Reading>, x: Values, y: Values)
    requires StandFor(convert, rs, x) && StandFor(convert, rs, y)
    ensures x == y
  {
    forall n | n in x.Keys
      ensures x[n] == y[n]
    {
      assert n in NamesIn(rs);
    }
  }

  lemma {:induction false} NothingCollected(convert: Convert, rs: seq<Reading>, a: Arg)
    requires a.name !in NamesIn(rs)
    ensures Collected(convert, rs, a) == []
  {
    if rs != [] {
      var n := |rs| - 1;
      assert rs[n].decl.name in NamesIn(rs);
      assert NamesIn(rs[..n]) <= NamesIn(rs) by {
        forall i | 0 <= i < n ensures rs[..n][i].decl.name in NamesIn(rs) { assert rs[i] == rs[..n][i]; }
      }
      NothingCollected(convert, rs[..n], a);
    }
  }

  lemma NamesInMore(rs: seq<Reading>, r: Reading)
    ensures NamesIn(rs + [r]) == NamesIn(rs) + {r.decl.name}
  {
    var all := rs + [r];
    assert all[|rs|] == r;
    forall i | 0 <= i < |rs|
      ensures all[i] == rs[i]
    {
    }
    forall n | n in NamesIn(rs)
      ensures n in NamesIn(all)
    {
      var i :| 0 <= i < |rs| && rs[i].decl.name == n;
      assert all[i].decl.name == n;
    }
  }

  lemma CollectedMore(convert: Convert, rs: seq<Reading>, r: Reading, a: Arg)
    ensures Collected(convert, rs + [r], a)
            == Collected(convert, rs, a)
               + if r.decl == a && convert(r.decl, r.text).Some? then [convert(r.decl, r.text).value] else []
  {
    assert (rs + [r])[..|rs|] == rs;
  }

  lemma StandForNext(convert: Convert, rs: seq<Reading>, r: Reading, values: Values)
    requires StandFor(convert, rs, values) && OneDeclaration(rs + [r]) && BindOne(convert, r, values).Some?
    ensures StandFor(convert, rs + [r], BindOne(convert, r, values).value)
  {
    var all, next := rs + [r], BindOne(convert, r, values).value;
    NameKnown(rs, r, values);
    NamesInMore(rs, r);
    OnceMore(convert, rs, r, values);
    hide Holds, NamesIn, OneDeclaration, Collected, OnceUnlessRepeatable, AllConvert;
    assert next.Keys == NamesIn(all);
    forall i | 0 <= i < |all|
      ensures Holds(convert, all, next, all[i])
    {
      if i < |rs| {
        SameName(rs, r, i);
        HoldsStill(convert, rs, r, values, rs[i]);
      } else {
        HoldsNext(convert, rs, r, values);
      }
    }
  }

  lemma OnceMore(convert: Convert, rs: seq<Reading>, r: Reading, values: Values)
    requires StandFor(convert, rs, values) && OneDeclaration(rs + [r]) && BindOne(convert, r, values).Some?
    ensures AllConvert(convert, rs + [r]) && OnceUnlessRepeatable(rs + [r])
  {
    var all := rs + [r];
    assert all[|rs|] == r && forall i :: 0 <= i < |rs| ==> all[i] == rs[i];
    NameKnown(rs, r, values);
    hide Holds, NamesIn, OneDeclaration, Collected;
  }

  /** One more reading is bound exactly when it converts and is new or repeatable. */
  lemma StandForMore(convert: Convert, rs: seq<Reading>, r: Reading, values: Values)
    requires StandFor(convert, rs, values) && OneDeclaration(rs + [r])
    ensures BindOne(convert, r, values).Some? ==> StandFor(convert, rs + [r], BindOne(convert, r, values).value)
    ensures BindOne(convert, r, values).None? ==> !AllConvert(convert, rs + [r]) || !OnceUnlessRepeatable(rs + [r])
  {
    var all := rs + [r];
    if BindOne(convert, r, values).Some? {
      StandForNext(convert, rs, r, values);
    } else {
      assert all[|rs|] == r;
      NameKnown(rs, r, values);
      if convert(r.decl, r.text).Some? {
        var i :| 0 <= i < |rs| && rs[i].decl == r.decl;
        HeldList(convert, rs, values, rs[i]);
        assert all[i] == rs[i];
      }
    }
    hide StandFor, Holds, NamesIn, OneDeclaration, Collected;
  }

  lemma HeldList(convert: Convert, rs: seq<Reading>, values: Values, x: Reading)
    requires Holds(convert, rs, values, x)
    ensures x.decl.repeatable ==> values[x.decl.name] == List(Collected(convert, rs, x.decl))
  {
  }

  lemma HoldsStill(convert: Convert, rs: seq<Reading>, r: Reading, values: Values, x: Reading)
    requires Holds(convert, rs, values, x) && BindOne(convert, r, values).Some?
    requires x.decl.name == r.decl.name ==> x.decl == r.decl
    ensures Holds(convert, rs + [r], BindOne(convert, r, values).value, x)
  {
    CollectedMore(convert, rs, r, x.decl);
    hide Collected;
  }

  lemma HoldsNext(convert: Convert, rs: seq<Reading>, r: Reading, values: Values)
    requires StandFor(convert, rs, values) && OneDeclaration(rs + [r]) && BindOne(convert, r, values).Some?
    ensures Holds(convert, rs + [r], BindOne(convert, r, values).value, r)
  {
    CollectedMore(convert, rs, r, r.decl);
    NameKnown(rs, r, values);
    if r.decl.name !in values {
      NothingCollected(convert, rs, r.decl);
    } else {
      var i :| 0 <= i < |rs| && rs[i].decl == r.decl;
      HeldList(convert, rs, values, rs[i]);
    }
    hide Collected, NamesIn, OneDeclaration;
  }

  lemma NameKnown(rs: seq<Reading>, r: Reading, values: Values)
    requires values.Keys == NamesIn(rs) && OneDeclaration(rs + [r])
    ensures r.decl.name in values <==> exists i :: 0 <= i < |rs| && rs[i].decl == r.decl
  {
    var all := rs + [r];
    assert all[|rs|] == r && forall i :: 0 <= i < |rs| ==> all[i] == rs[i];
    if r.decl.name in values {
      var i :| 0 <= i < |rs| && rs[i].decl.name == r.decl.name;
      assert all[i].decl == all[|rs|].decl;
    }
  }

  lemma SameName(rs: seq<Reading>, r: Reading, i: nat)
    requires i < |rs + [r]| && OneDeclaration(rs + [r])
    ensures (rs + [r])[i].decl.name == r.decl.name <==> (rs + [r])[i].decl == r.decl
  {
    assert (rs + [r])[|rs|] == r;
  }

  lemma FewerReadings(convert: Convert, rs: seq<Reading>, n: nat)
    requires n <= |rs|
    ensures AllConvert(convert, rs) ==> AllConvert(convert, rs[..n])
    ensures OnceUnlessRepeatable(rs) ==> OnceUnlessRepeatable(rs[..n])
    ensures OneDeclaration(rs) ==> OneDeclaration(rs[..n])
  {
    assert forall i :: 0 <= i < n ==> rs[..n][i] == rs[i];
  }

  /** Options are bound to what they stand for, and refused only when one does not convert or is given
      twice without being repeatable. */
  lemma {:induction false} OptionsStandFor(convert: Convert, rs: seq<Reading>)
    requires OneDeclaration(rs)
    ensures BindReadings(convert, rs).Some? <==> AllConvert(convert, rs) && OnceUnlessRepeatable(rs)
    ensures BindReadings(convert, rs).Some? ==> StandFor(convert, rs, BindReadings(convert, rs).value)
  {
    if rs != [] {
      var n := |rs| - 1;
      FewerReadings(convert, rs, n);
      OptionsStandFor(convert, rs[..n]);
      assert rs[..n] + [rs[n]] == rs;
      hide StandFor, AllConvert, OnceUnlessRepeatable, OneDeclaration, BindOne;
      if BindReadings(convert, rs[..n]).Some? {
        StandForMore(convert, rs[..n], rs[n], BindReadings(convert, rs[..n]).value);
        if BindReadings(convert, rs).Some? {
          StandForConverts(convert, rs, BindReadings(convert, rs).value);
        }
      }
    }
  }

  lemma StandForConverts(convert: Convert, rs: seq<Reading>, values: Values)
    requires StandFor(convert, rs, values)
    ensures AllConvert(convert, rs) && OnceUnlessRepeatable(rs)
  {
  }

  // ---- what positionals stand for ---------------------------------------------------------------------

  function Takers(args: seq<Arg>): seq<Arg> {
    if args == [] then [] else (if args[0].flag then [] else [args[0]]) + Takers(args[1..])
  }

  /** Who takes the k-th positional: the k-th declaration, or a repeatable one that comes before it. */
  function TakerOf(takers: seq<Arg>, k: nat): Option<Arg> {
    if takers == [] then None
    else if takers[0].repeatable || k == 0 then Some(takers[0])
    else TakerOf(takers[1..], k - 1)
  }

  predicate AllTaken(takers: seq<Arg>, positionals: seq<string>) {
    forall k :: 0 <= k < |positionals| ==> TakerOf(takers, k).Some?
  }

  /** Each positional as a reading of the declaration that takes it. */
  function Handouts(takers: seq<Arg>, positionals: seq<string>): (rs: seq<Reading>)
    requires AllTaken(takers, positionals)
    ensures |rs| == |positionals|
  {
    seq(|positionals|, k requires 0 <= k < |positionals| => Reading(TakerOf(takers, k).value, Some(positionals[k])))
  }

  lemma {:induction false} HandFirst(convert: Convert, args: seq<Arg>, h: Hand)
    requires args != []
    ensures HandAll(convert, args, h) ==
      match HandOne(convert, args[0], h)
      case None => None
      case Some(next) => HandAll(convert, args[1..], next)
  {
    var init := args[..|args| - 1];
    if init == [] {
      assert args[1..] == [];
    } else {
      HandFirst(convert, init, h);
      assert args[1..][..|args[1..]| - 1] == init[1..];
      hide HandOne;
    }
  }

  /** All of one declaration's texts, read as its values in order. */
  lemma {:induction false} ConvertAllReads(convert: Convert, a: Arg, texts: seq<string>)
    ensures var rs := seq(|texts|, k requires 0 <= k < |texts| => Reading(a, Some(texts[k])));
            && (ConvertAll(convert, a, texts).Some? <==> AllConvert(convert, rs))
            && (ConvertAll(convert, a, texts).Some? ==>
                  ConvertAll(convert, a, texts).value == Collected(convert, rs, a))
  {
    var rs := seq(|texts|, k requires 0 <= k < |texts| => Reading(a, Some(texts[k])));
    if texts != [] {
      var n := |texts| - 1;
      ConvertAllReads(convert, a, texts[..n]);
      assert rs[..n] == seq(n, k requires 0 <= k < n => Reading(a, Some(texts[..n][k])));
      assert rs[n] == Reading(a, Some(texts[n]));
      if AllConvert(convert, rs[..n]) && convert(a, Some(texts[n])).Some? {
        forall i | 0 <= i < |rs|
          ensures convert(rs[i].decl, rs[i].text).Some?
        {
          assert i < n ==> rs[..n][i] == rs[i];
        }
      }
      FewerReadings(convert, rs, n);
    }
  }

  ghost predicate NewName(rs: seq<Reading>, a: Arg) {
    forall i :: 0 <= i < |rs| ==> rs[i].decl.name != a.name
  }

  lemma FreshDeclaration(rs: seq<Reading>, more: seq<Reading>, a: Arg)
    requires OneDeclaration(rs) && NewName(rs, a) && forall i :: 0 <= i < |more| ==> more[i].decl == a
    ensures OneDeclaration(rs + more)
  {
  }

  /** A repeatable declaration's texts, all at once, are what they would be one by one. */
  lemma {:induction false} RestStandsFor(convert: Convert, a: Arg, texts: seq<string>, rs: seq<Reading>, values: Values)
    requires a.repeatable && texts != [] && ConvertAll(convert, a, texts).Some?
    requires StandFor(convert, rs, values) && OneDeclaration(rs) && NewName(rs, a)
    ensures var more := seq(|texts|, k requires 0 <= k < |texts| => Reading(a, Some(texts[k])));
            StandFor(convert, rs + more, values[a.name := List(ConvertAll(convert, a, texts).value)])
  {
    var n := |texts| - 1;
    var more := seq(|texts|, k requires 0 <= k < |texts| => Reading(a, Some(texts[k])));
    var before := seq(n, k requires 0 <= k < n => Reading(a, Some(texts[..n][k])));
    var r := Reading(a, Some(texts[n]));
    var vs := ConvertAll(convert, a, texts).value;
    assert more == before + [r];
    assert (rs + before) + [r] == rs + more;
    FreshDeclaration(rs, more, a);
    NotBound(convert, rs, values, a);
    ConvertAllLast(convert, a, texts);
    hide StandFor, OneDeclaration, NewName, ConvertAll;
    if n == 0 {
      assert rs + before == rs && vs[..n] == [];
      BindFirst(convert, r, values, vs);
      StandForMore(convert, rs, r, values);
    } else {
      RestStandsFor(convert, a, texts[..n], rs, values);
      BindNext(convert, r, values, vs);
      StandForMore(convert, rs + before, r, values[a.name := List(vs[..n])]);
    }
  }

  lemma ConvertAllLast(convert: Convert, a: Arg, texts: seq<string>)
    requires texts != [] && ConvertAll(convert, a, texts).Some?
    ensures var n, vs := |texts| - 1, ConvertAll(convert, a, texts).value;
            && |vs| > 0 && ConvertAll(convert, a, texts[..n]) == Some(vs[..|vs| - 1])
            && convert(a, Some(texts[n])) == Some(vs[|vs| - 1])
            && |vs| == |texts|
  {
    ConvertAllLength(convert, a, texts);
    ConvertAllLength(convert, a, texts[..|texts| - 1]);
  }

  lemma {:induction false} ConvertAllLength(convert: Convert, a: Arg, texts: seq<string>)
    ensures ConvertAll(convert, a, texts).Some? ==> |ConvertAll(convert, a, texts).value| == |texts|
  {
    if texts != [] {
      ConvertAllLength(convert, a, texts[..|texts| - 1]);
    }
  }

  lemma BindFirst(convert: Convert, r: Reading, values: Values, vs: seq<Value>)
    requires r.decl.repeatable && r.decl.name !in values
    requires |vs| == 1 && convert(r.decl, r.text) == Some(vs[0])
    ensures BindOne(convert, r, values) == Some(values[r.decl.name := List(vs)])
  {
    assert vs == [vs[0]];
  }

  lemma BindNext(convert: Convert, r: Reading, values: Values, vs: seq<Value>)
    requires r.decl.repeatable && vs != [] && convert(r.decl, r.text) == Some(vs[|vs| - 1])
    ensures BindOne(convert, r, values[r.decl.name := List(vs[..|vs| - 1])]) == Some(values[r.decl.name := List(vs)])
  {
    var held := values[r.decl.name := List(vs[..|vs| - 1])];
    assert vs[..|vs| - 1] + [vs[|vs| - 1]] == vs;
    assert held[r.decl.name := List(vs)] == values[r.decl.name := List(vs)];
  }

  lemma NotBound(convert: Convert, rs: seq<Reading>, values: Values, a: Arg)
    requires StandFor(convert, rs, values)
    ensures NewName(rs, a) <==> a.name !in values
  {
    if a.name in values {
      assert a.name in NamesIn(rs);
    }
    forall i | 0 <= i < |rs|
      ensures rs[i].decl.name in values
    {
      assert rs[i].decl.name in NamesIn(rs);
    }
  }

  /** No positional declaration has a value yet. */
  ghost predicate Unbound(args: seq<Arg>, values: Values) {
    UniqueNames(args) && forall i :: 0 <= i < |args| && !args[i].flag ==> args[i].name !in values
  }

  /** What is handed out to declarations without a value: refused, or the values the positionals stand
      for beside those already bound. */
  ghost predicate HandsOut(
    convert: Convert, args: seq<Arg>, positionals: seq<string>, rs: seq<Reading>, values: Values, final: Values)
  {
    HandedWhole(HandAll(convert, args, Hand(positionals, values))) == Some(final) <==>
    AllTaken(Takers(args), positionals) && StandFor(convert, rs + Handouts(Takers(args), positionals), final)
  }

  lemma {:induction false} PositionalsStandFor(
    convert: Convert, args: seq<Arg>, positionals: seq<string>, rs: seq<Reading>, values: Values, final: Values)
    requires Unbound(args, values) && StandFor(convert, rs, values) && OneDeclaration(rs)
    ensures HandsOut(convert, args, positionals, rs, values, final)
    decreases |args|
  {
    if args == [] {
      NoneTake(convert, positionals, rs, values, final);
    } else {
      var a, rest := args[0], args[1..];
      HandFirst(convert, args, Hand(positionals, values));
      NotBound(convert, rs, values, a);
      assert Unbound(rest, values);
      hide StandFor, OneDeclaration, HandAll;
      if a.flag {
        assert [] + Takers(rest) == Takers(rest);
        PositionalsStandFor(convert, rest, positionals, rs, values, final);
      } else if positionals == [] {
        PositionalsStandFor(convert, rest, [], rs, values, final);
        assert Handouts(Takers(args), []) == Handouts(Takers(rest), []);
      } else if a.repeatable {
        RestTaken(convert, args, positionals, rs, values, final);
      } else {
        OneTaken(convert, args, positionals, rs, values, final);
      }
    }
  }

  lemma NoneTake(
    convert: Convert, positionals: seq<string>, rs: seq<Reading>, values: Values, final: Values)
    requires StandFor(convert, rs, values)
    ensures HandsOut(convert, [], positionals, rs, values, final)
  {
    if positionals == [] {
      assert rs + Handouts([], []) == rs;
      if StandFor(convert, rs, final) {
        StandForOne(convert, rs, values, final);
      }
    } else {
      assert TakerOf([], 0).None?;
    }
  }

  lemma FirstTaken(takers: seq<Arg>, positionals: seq<string>)
    requires takers != [] && positionals != [] && !takers[0].repeatable
    ensures AllTaken(takers, positionals) <==> AllTaken(takers[1..], positionals[1..])
    ensures AllTaken(takers, positionals) ==>
              Handouts(takers, positionals)
              == [Reading(takers[0], Some(positionals[0]))] + Handouts(takers[1..], positionals[1..])
  {
    forall k | 0 < k < |positionals|
      ensures TakerOf(takers, k) == TakerOf(takers[1..], k - 1)
    {
    }
    if AllTaken(takers, positionals) {
      forall k | 0 <= k < |positionals[1..]|
        ensures TakerOf(takers[1..], k).Some?
      {
        assert TakerOf(takers, k + 1).Some?;
      }
    }
  }

  lemma FewerConvert(convert: Convert, rs: seq<Reading>, more: seq<Reading>, values: Values)
    requires StandFor(convert, rs + more, values)
    ensures AllConvert(convert, more)
  {
    forall i | 0 <= i < |more|
      ensures convert(more[i].decl, more[i].text).Some?
    {
      assert (rs + more)[|rs| + i] == more[i];
    }
  }

  lemma UnreadFails(convert: Convert, rs: seq<Reading>, more: seq<Reading>, k: nat, final: Values)
    requires k < |more| && convert(more[k].decl, more[k].text).None?
    ensures !StandFor(convert, rs + more, final)
  {
    if StandFor(convert, rs + more, final) {
      FewerConvert(convert, rs, more, final);
    }
  }

  lemma OneTaken(
    convert: Convert, args: seq<Arg>, positionals: seq<string>, rs: seq<Reading>, values: Values, final: Values)
    requires args != [] && positionals != [] && !args[0].flag && !args[0].repeatable
    requires Unbound(args, values) && StandFor(convert, rs, values) && OneDeclaration(rs) && NewName(rs, args[0])
    ensures HandsOut(convert, args, positionals, rs, values, final)
    decreases |args|, 0
  {
    var a, rest, takers := args[0], args[1..], Takers(args);
    var r := Reading(a, Some(positionals[0]));
    HandFirst(convert, args, Hand(positionals, values));
    FirstTaken(takers, positionals);
    assert takers[1..] == Takers(rest);
    hide StandFor, HandAll, Takers, TakerOf;
    if convert(a, r.text).None? {
      if AllTaken(takers, positionals) {
        UnreadFails(convert, rs, Handouts(takers, positionals), 0, final);
      }
    } else {
      var next := values[a.name := convert(a, r.text).value];
      FreshDeclaration(rs, [r], a);
      NotBound(convert, rs, values, a);
      StandForMore(convert, rs, r, values);
      assert Unbound(rest, next);
      hide OneDeclaration, Unbound, HandsOut, AllTaken;
      PositionalsStandFor(convert, rest, positionals[1..], rs + [r], next, final);
      HandsOutMore(convert, args, positionals, rs, values, next, final);
    }
  }

  lemma HandsOutMore(
    convert: Convert, args: seq<Arg>, positionals: seq<string>, rs: seq<Reading>, values: Values, next: Values,
    final: Values)
    requires args != [] && positionals != [] && !args[0].flag && !args[0].repeatable
    requires HandAll(convert, args, Hand(positionals, values))
             == HandAll(convert, args[1..], Hand(positionals[1..], next))
    requires HandsOut(convert, args[1..], positionals[1..], rs + [Reading(args[0], Some(positionals[0]))], next, final)
    ensures HandsOut(convert, args, positionals, rs, values, final)
  {
    var r := Reading(args[0], Some(positionals[0]));
    assert Takers(args) == [args[0]] + Takers(args[1..]);
    FirstTaken(Takers(args), positionals);
    hide StandFor, HandAll, TakerOf, Takers, AllTaken;
    if AllTaken(Takers(args), positionals) {
      var behind := Handouts(Takers(args)[1..], positionals[1..]);
      assert (rs + [r]) + behind == rs + ([r] + behind);
    }
  }

  lemma RestTaken(
    convert: Convert, args: seq<Arg>, positionals: seq<string>, rs: seq<Reading>, values: Values, final: Values)
    requires args != [] && positionals != [] && !args[0].flag && args[0].repeatable
    requires Unbound(args, values) && StandFor(convert, rs, values) && OneDeclaration(rs) && NewName(rs, args[0])
    ensures HandsOut(convert, args, positionals, rs, values, final)
    decreases |args|, 0
  {
    var a, rest, takers := args[0], args[1..], Takers(args);
    var more := seq(|positionals|, k requires 0 <= k < |positionals| => Reading(a, Some(positionals[k])));
    HandFirst(convert, args, Hand(positionals, values));
    assert AllTaken(takers, positionals) && Handouts(takers, positionals) == more;
    ConvertAllReads(convert, a, positionals);
    hide StandFor, HandAll;
    if ConvertAll(convert, a, positionals).None? {
      if StandFor(convert, rs + more, final) {
        FewerConvert(convert, rs, more, final);
      }
    } else {
      var vs := ConvertAll(convert, a, positionals).value;
      var next := values[a.name := List(vs)];
      RestStandsFor(convert, a, positionals, rs, values);
      FreshDeclaration(rs, more, a);
      assert Unbound(rest, next);
      ConvertAllLength(convert, a, positionals);
      hide OneDeclaration;
      PositionalsStandFor(convert, rest, [], rs + more, next, final);
      assert (rs + more) + Handouts(Takers(rest), []) == rs + more;
    }
  }

  // ---- what an argv stands for ------------------------------------------------------------------------

  /** Every option and positional, as a reading of its declaration. */
  ghost function AllReadings(args: seq<Arg>, said: Scanned): seq<Reading>
    requires AllTaken(Takers(args), said.positionals)
  {
    said.readings + Handouts(Takers(args), said.positionals)
  }

  lemma {:induction false} OptionsAreFlags(args: seq<Arg>, pieces: seq<Piece>)
    requires forall i :: 0 <= i < |pieces| ==> PieceOk(args, pieces[i])
    ensures forall i :: 0 <= i < |OptionsOf(pieces)| ==>
              OptionsOf(pieces)[i].decl in args && OptionsOf(pieces)[i].decl.flag
  {
    if pieces != [] {
      OptionsAreFlags(args, pieces[1..]);
      var first := ReadingOf(pieces[0]);
      assert forall i :: 0 <= i < |first| ==> first[i].decl in args && first[i].decl.flag;
    }
  }

  lemma DeclaredOnce(args: seq<Arg>, rs: seq<Reading>)
    requires UniqueNames(args)
    requires forall i :: 0 <= i < |rs| ==> rs[i].decl in args && rs[i].decl.flag
    ensures OneDeclaration(rs)
    ensures forall i, j :: 0 <= i < |args| && !args[i].flag && 0 <= j < |rs| ==> rs[j].decl.name != args[i].name
  {
  }

  /** An argv is bound to final values exactly when it can be written in pieces whose options and
      positionals stand for them: each positional has a declaration to take it, each text converts, and
      nothing comes twice that is not repeatable. Anything else is refused. */
  lemma BindMeaning(convert: Convert, args: seq<Arg>, raw: seq<string>, final: Values)
    requires UniqueNames(args)
    ensures Bind(convert, args, raw) == Some(final) <==>
            exists pieces, behind {:trigger Writes(args, pieces, behind, raw)} ::
              && Writes(args, pieces, behind, raw)
              && AllTaken(Takers(args), SaidBy(pieces, behind).positionals)
              && StandFor(convert, AllReadings(args, SaidBy(pieces, behind)), final)
  {
    hide Scan, Writes, SaidBy, AllReadings, StandFor, AllTaken, BindReadings, HandAll;
    forall pieces, behind {:trigger Writes(args, pieces, behind, raw)} | Writes(args, pieces, behind, raw)
      ensures Bind(convert, args, raw) == Some(final) <==>
              AllTaken(Takers(args), SaidBy(pieces, behind).positionals)
              && StandFor(convert, AllReadings(args, SaidBy(pieces, behind)), final)
    {
      WrittenBinds(convert, args, raw, pieces, behind, final);
    }
    if Bind(convert, args, raw) == Some(final) {
      var pieces, behind := ScannedWritten(args, raw);
      assert Writes(args, pieces, behind, raw);
    }
  }

  lemma WrittenBinds(
    convert: Convert, args: seq<Arg>, raw: seq<string>, pieces: seq<Piece>, behind: Option<seq<string>>, final: Values)
    requires UniqueNames(args) && Writes(args, pieces, behind, raw)
    ensures Bind(convert, args, raw) == Some(final) <==>
            AllTaken(Takers(args), SaidBy(pieces, behind).positionals)
            && StandFor(convert, AllReadings(args, SaidBy(pieces, behind)), final)
  {
    WrittenScans(args, pieces, behind);
    OptionsAreFlags(args, pieces);
    var said := SaidBy(pieces, behind);
    DeclaredOnce(args, said.readings);
    OptionsStandFor(convert, said.readings);
    hide Scan, SaidBy, AllTaken, BindReadings, HandAll, OneDeclaration;
    if BindReadings(convert, said.readings).Some? {
      var values := BindReadings(convert, said.readings).value;
      assert Unbound(args, values) by {
        forall i | 0 <= i < |args| && !args[i].flag
          ensures args[i].name !in values
        {
          NotBound(convert, said.readings, values, args[i]);
        }
      }
      PositionalsStandFor(convert, args, said.positionals, said.readings, values, final);
    } else if AllTaken(Takers(args), said.positionals) && StandFor(convert, AllReadings(args, said), final) {
      SaidOnce(convert, args, said, final);
    }
  }

  /** So an option given twice, unless repeatable, is refused, whatever else is in the argv. */
  lemma TwiceRefused(
    convert: Convert, args: seq<Arg>, raw: seq<string>, pieces: seq<Piece>, behind: Option<seq<string>>)
    requires UniqueNames(args) && Writes(args, pieces, behind, raw)
    requires !OnceUnlessRepeatable(OptionsOf(pieces))
    ensures Bind(convert, args, raw).None?
  {
    hide StandFor, OnceUnlessRepeatable, AllTaken, Bind;
    if Bind(convert, args, raw).Some? {
      WrittenBinds(convert, args, raw, pieces, behind, Bind(convert, args, raw).value);
      SaidOnce(convert, args, SaidBy(pieces, behind), Bind(convert, args, raw).value);
    }
  }

  lemma SaidOnce(convert: Convert, args: seq<Arg>, said: Scanned, final: Values)
    requires AllTaken(Takers(args), said.positionals) && StandFor(convert, AllReadings(args, said), final)
    ensures AllConvert(convert, said.readings) && OnceUnlessRepeatable(said.readings)
  {
    assert AllReadings(args, said)[..|said.readings|] == said.readings;
    FewerReadings(convert, AllReadings(args, said), |said.readings|);
  }

  /** And so is one more positional than there are declarations, when none of them is repeatable. */
  lemma {:induction false} SurplusRefused(
    convert: Convert, args: seq<Arg>, raw: seq<string>, pieces: seq<Piece>, behind: Option<seq<string>>)
    requires UniqueNames(args) && Writes(args, pieces, behind, raw)
    requires forall i :: 0 <= i < |args| ==> args[i].flag || !args[i].repeatable
    requires |SaidBy(pieces, behind).positionals| > |Takers(args)|
    ensures Bind(convert, args, raw).None?
  {
    TakersUnrepeatable(args);
    NoTaker(Takers(args), |Takers(args)|);
    assert !AllTaken(Takers(args), SaidBy(pieces, behind).positionals);
    if Bind(convert, args, raw).Some? {
      WrittenBinds(convert, args, raw, pieces, behind, Bind(convert, args, raw).value);
    }
  }

  lemma {:induction false} TakersUnrepeatable(args: seq<Arg>)
    requires forall i :: 0 <= i < |args| ==> args[i].flag || !args[i].repeatable
    ensures forall i :: 0 <= i < |Takers(args)| ==> !Takers(args)[i].repeatable
  {
    if args != [] {
      TakersUnrepeatable(args[1..]);
    }
  }

  lemma {:induction false} NoTaker(takers: seq<Arg>, k: nat)
    requires k >= |takers| && forall i :: 0 <= i < |takers| ==> !takers[i].repeatable
    ensures TakerOf(takers, k).None?
  {
    if takers != [] {
      NoTaker(takers[1..], k - 1);
    }
  }

  // ---- what the launcher writes -----------------------------------------------------------------------

  /** The text of a value as it goes into an argv: a switch as a word, a text as it is. */
  function WordOf(v: Value): seq<string> {
    if v == Bool(true) then ["true"] else if v == Bool(false) then ["false"] else if v.Text? then [v.s] else []
  }

  function WordsOf(items: seq<Value>): seq<string> {
    if items == [] then [] else WordOf(items[0]) + WordsOf(items[1..])
  }

  /** A list item by item. */
  function TextsOf(v: Value): seq<string> {
    if v.List? then WordsOf(v.items) else WordOf(v)
  }

  /** An option with its text, attached when the text would be taken for an option. */
  function OptionPieces(a: Arg, texts: seq<string>): seq<Piece> {
    if texts == [] then []
    else
      [if |texts[0]| >= 2 && texts[0][..2] == "--" then Attached(a, texts[0]) else Spaced(a, texts[0])]
      + OptionPieces(a, texts[1..])
  }

  /** A switch that is on stands alone; one that is off is written only when it was supplied. */
  function PiecesFor(a: Arg, values: Values, supplied: set<string>): seq<Piece> {
    if !a.flag || a.name !in values then []
    else if !a.boolean then OptionPieces(a, TextsOf(values[a.name]))
    else if values[a.name] == Bool(true) then [Bare(a)]
    else if a.name in supplied then [Attached(a, "false")] else []
  }

  function FlagPieces(args: seq<Arg>, values: Values, supplied: set<string>): seq<Piece> {
    if args == [] then []
    else FlagPieces(args[..|args| - 1], values, supplied) + PiecesFor(args[|args| - 1], values, supplied)
  }

  function PlainPieces(positionals: seq<string>): seq<Piece> {
    if positionals == [] then [] else [Plain(positionals[0])] + PlainPieces(positionals[1..])
  }

  lemma {:induction false} WrittenConcat(p: seq<Piece>, q: seq<Piece>, behind: Option<seq<string>>)
    ensures Written(p + q, behind) == Written(p, None) + Written(q, behind)
  {
    if p == [] {
      assert p + q == q;
    } else {
      WrittenConcat(p[1..], q, behind);
      assert (p + q)[0] == p[0] && (p + q)[1..] == p[1..] + q;
      Regroup(TokensOf(p[0]), Written(p[1..], None), Written(q, behind));
    }
  }

  lemma {:induction false} PlainsWritten(positionals: seq<string>)
    ensures Written(PlainPieces(positionals), None) == positionals
  {
    if positionals != [] {
      PlainsWritten(positionals[1..]);
      assert [positionals[0]] + positionals[1..] == positionals;
    }
  }

  lemma {:induction false} OptionsWritten(a: Arg, texts: seq<string>)
    ensures Written(OptionPieces(a, texts), None) == ValueTokens(FlagToken(a), texts)
  {
    if texts != [] {
      OptionsWritten(a, texts[1..]);
      assert OptionPieces(a, texts)[1..] == OptionPieces(a, texts[1..]);
      assert DoubleDashed(texts[0]) <==> |texts[0]| >= 2 && texts[0][..2] == "--";
      hide FlagToken;
    }
  }

  lemma {:induction false} ListTexts(items: seq<Value>)
    ensures Texts(items).Some? ==> Texts(items).value == WordsOf(items)
  {
    if items != [] {
      ListTexts(items[1..]);
    }
  }

  lemma WrittenOne(p: Piece)
    ensures Written([p], None) == TokensOf(p)
  {
    assert [p][1..] == [];
  }

  lemma TokensWritten(a: Arg, values: Values, supplied: set<string>)
    ensures TokensFor(a, values, supplied).Some? ==>
              TokensFor(a, values, supplied).value == Written(PiecesFor(a, values, supplied), None)
  {
    if a.flag && a.name in values && !a.boolean && ArgTexts(a, values[a.name]).Some? {
      if a.repeatable {
        ListTexts(values[a.name].items);
      }
      assert ArgTexts(a, values[a.name]).value == TextsOf(values[a.name]);
      OptionsWritten(a, TextsOf(values[a.name]));
    } else {
      WrittenOne(Bare(a));
      WrittenOne(Attached(a, "false"));
      assert FlagToken(a) + "=" + "false" == FlagToken(a) + "=false";
    }
  }

  lemma {:induction false} FlagsWritten(args: seq<Arg>, values: Values, supplied: set<string>)
    requires FlagTokens(args, values, supplied).Some?
    ensures FlagTokens(args, values, supplied).value == Written(FlagPieces(args, values, supplied), None)
  {
    if args != [] {
      var n := |args| - 1;
      FlagsWritten(args[..n], values, supplied);
      TokensWritten(args[n], values, supplied);
      WrittenConcat(FlagPieces(args[..n], values, supplied), PiecesFor(args[n], values, supplied), None);
      hide TokensFor, PiecesFor, Written;
    }
  }

  /** A canonical argv is written in such pieces: the positionals and then each flag's value, or, when a
      positional starts with two dashes, the flags and then the positionals behind the separator. */
  lemma LauncherWrites(
    args: seq<Arg>, raw: seq<string>, values: Values, defaulted: set<string>, supplied: set<string>)
    requires CanonicalArgv(args, raw, values, defaulted, supplied).Some?
    ensures BoundPositionals(args, raw, values, defaulted + supplied).Some?
    ensures var positionals := BoundPositionals(args, raw, values, defaulted + supplied).value;
            var flags := FlagPieces(args, values, supplied);
            CanonicalArgv(args, raw, values, defaulted, supplied).value ==
              if exists i :: 0 <= i < |positionals| && |positionals[i]| >= 2 && positionals[i][..2] == "--"
              then Written(flags, Some(positionals))
              else Written(PlainPieces(positionals) + flags, None)
  {
    hide FlagTokens, BoundPositionals;
    var positionals := BoundPositionals(args, raw, values, defaulted + supplied).value;
    var flags := FlagPieces(args, values, supplied);
    FlagsWritten(args, values, supplied);
    PlainsWritten(positionals);
    WrittenConcat(PlainPieces(positionals), flags, None);
    WrittenConcat(flags, [], Some(positionals));
    assert flags + [] == flags;
    forall i | 0 <= i < |positionals|
      ensures DoubleDashed(positionals[i]) <==> |positionals[i]| >= 2 && positionals[i][..2] == "--"
    {
    }
    hide FlagPieces, PlainPieces;
    Regroup(Written(flags, None), ["--"], positionals);
  }
}
