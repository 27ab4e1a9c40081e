/**
 App object references: the one canonical `app://` spelling of each reference, and the parser that
 accepts nothing else. Strings are byte sequences.
 */
module ObjectRefs {
  import opened Wrappers

  type Byte = c: char | c as int < 256 witness 'a'

  type Bytes = seq<Byte>

  // ---- UTF-8 (section 4 of RFC 3629) ------------------------------------------------------------

  predicate Between(low: int, b: Byte, high: int) {
    low <= b as int <= high
  }

  predicate Continuation(b: Byte) {
    Between(0x80, b, 0xBF)
  }

  /** Length of the well-formed sequence at the front, or zero when there is none. */
  function RuneSize(s: Bytes): nat
    ensures RuneSize(s) <= |s|
  {
    if |s| >= 1 && Between(0, s[0], 0x7F) then 1
    else if |s| >= 2 && Between(0xC2, s[0], 0xDF) && Continuation(s[1]) then 2
    else if |s| >= 3 && Between(0xE0, s[0], 0xEF) && Second3(s[0], s[1]) && Continuation(s[2]) then 3
    else if |s| >= 4 && Between(0xF0, s[0], 0xF4) && Second4(s[0], s[1]) && Continuation(s[2]) && Continuation(s[3])
    then 4
    else 0
  }

  predicate Second3(a: Byte, b: Byte) {
    if a as int == 0xE0 then Between(0xA0, b, 0xBF)
    else if a as int == 0xED then Between(0x80, b, 0x9F)
    else Continuation(b)
  }

  predicate Second4(a: Byte, b: Byte) {
    if a as int == 0xF0 then Between(0x90, b, 0xBF)
    else if a as int == 0xF4 then Between(0x80, b, 0x8F)
    else Continuation(b)
  }

  predicate ValidUtf8(s: Bytes) {
    s == [] || (RuneSize(s) > 0 && ValidUtf8(s[RuneSize(s)..]))
  }

  /** The six payload bits of a continuation byte under the bits already read. */
  function Join(high: nat, b: Byte): int {
    high * 64 + (b as int - 0x80)
  }

  function RuneAt(s: Bytes): nat
    requires RuneSize(s) > 0
  {
    match RuneSize(s)
    case 1 => s[0] as int
    case 2 => Join(s[0] as int - 0xC0, s[1])
    case 3 => Join(Join(s[0] as int - 0xE0, s[1]), s[2])
    case _ => Join(Join(Join(s[0] as int - 0xF0, s[1]), s[2]), s[3])
  }

  predicate IsControl(rune: nat) {
    rune < 0x20 || 0x7F <= rune < 0xA0
  }

  predicate NoControls(s: Bytes)
    requires ValidUtf8(s)
  {
    s == [] || (!IsControl(RuneAt(s)) && NoControls(s[RuneSize(s)..]))
  }

  /** The encoder UTF-8 is defined by, against which the recogniser above is judged. */
  predicate IsScalar(rune: nat) {
    rune < 0xD800 || 0xE000 <= rune < 0x110000
  }

  function ByteOf(n: nat): Byte
    requires n < 256
  {
    n as char
  }

  function Low6(n: nat): Byte {
    ByteOf(0x80 + n % 64)
  }

  function EncodeRune(rune: nat): Bytes
    requires IsScalar(rune)
  {
    if rune < 0x80 then [ByteOf(rune)]
    else if rune < 0x800 then [ByteOf(0xC0 + rune / 64), Low6(rune)]
    else if rune < 0x10000 then [ByteOf(0xE0 + rune / 64 / 64), Low6(rune / 64), Low6(rune)]
    else [ByteOf(0xF0 + rune / 64 / 64 / 64), Low6(rune / 64 / 64), Low6(rune / 64), Low6(rune)]
  }

  predicate AllScalars(runes: seq<nat>) {
    forall i :: 0 <= i < |runes| ==> IsScalar(runes[i])
  }

  function EncodeRunes(runes: seq<nat>): Bytes
    requires AllScalars(runes)
  {
    if runes == [] then [] else EncodeRune(runes[0]) + EncodeRunes(runes[1..])
  }

  function Runes(s: Bytes): seq<nat>
    requires ValidUtf8(s)
  {
    if s == [] then [] else [RuneAt(s)] + Runes(s[RuneSize(s)..])
  }

  lemma JoinSplits(high: nat, b: Byte)
    requires Continuation(b)
    ensures Join(high, b) >= 0 && Join(high, b) / 64 == high && Low6(Join(high, b)) == b
  {
  }

  lemma SplitJoins(n: nat)
    ensures Continuation(Low6(n)) && Join(n / 64, Low6(n)) == n
  {
  }

  lemma RuneAtEncodes(s: Bytes)
    requires RuneSize(s) > 0
    ensures IsScalar(RuneAt(s)) && EncodeRune(RuneAt(s)) == s[..RuneSize(s)]
  {
    if RuneSize(s) == 2 {
      JoinSplits(s[0] as int - 0xC0, s[1]);
    } else if RuneSize(s) == 3 {
      RuneAt3(s);
    } else if RuneSize(s) == 4 {
      RuneAt4(s);
    }
  }

  lemma RuneAt3(s: Bytes)
    requires RuneSize(s) == 3
    ensures IsScalar(RuneAt(s)) && EncodeRune(RuneAt(s)) == s[..3]
  {
    var first := Join(s[0] as int - 0xE0, s[1]);
    JoinSplits(s[0] as int - 0xE0, s[1]);
    assert 0x20 <= first < 0x360 || 0x380 <= first < 0x400;
    JoinSplits(first, s[2]);
    hide Low6;
  }

  lemma RuneAt4(s: Bytes)
    requires RuneSize(s) == 4
    ensures IsScalar(RuneAt(s)) && EncodeRune(RuneAt(s)) == s[..4]
  {
    var first := Join(s[0] as int - 0xF0, s[1]);
    JoinSplits(s[0] as int - 0xF0, s[1]);
    assert 0x10 <= first < 0x110;
    JoinSplits(first, s[2]);
    JoinSplits(Join(first, s[2]), s[3]);
    hide Low6;
  }

  lemma EncodedRuneRead(rune: nat, rest: Bytes)
    requires IsScalar(rune)
    ensures var s := EncodeRune(rune) + rest; RuneSize(s) == |EncodeRune(rune)| && RuneAt(s) == rune
  {
    if rune >= 0x10000 {
      EncodedRead4(rune, rest);
    } else if rune >= 0x800 {
      EncodedRead3(rune, rest);
    } else if rune >= 0x80 {
      SplitJoins(rune);
    }
  }

  lemma EncodedRead3(rune: nat, rest: Bytes)
    requires IsScalar(rune) && 0x800 <= rune < 0x10000
    ensures var s := EncodeRune(rune) + rest; RuneSize(s) == 3 && RuneAt(s) == rune
  {
    SplitJoins(rune);
    SplitJoins(rune / 64);
    var s := EncodeRune(rune) + rest;
    assert s[0] == ByteOf(0xE0 + rune / 64 / 64) && s[1] == Low6(rune / 64) && s[2] == Low6(rune);
    assert Second3(s[0], s[1]);
    hide Low6;
  }

  lemma EncodedRead4(rune: nat, rest: Bytes)
    requires IsScalar(rune) && 0x10000 <= rune
    ensures var s := EncodeRune(rune) + rest; RuneSize(s) == 4 && RuneAt(s) == rune
  {
    SplitJoins(rune);
    SplitJoins(rune / 64);
    SplitJoins(rune / 64 / 64);
    var s := EncodeRune(rune) + rest;
    assert s[0] == ByteOf(0xF0 + rune / 64 / 64 / 64) && s[1] == Low6(rune / 64 / 64);
    assert s[2] == Low6(rune / 64) && s[3] == Low6(rune);
    assert Second4(s[0], s[1]);
    hide Low6;
  }

  /** The valid strings are exactly the encodings of scalar sequences, and each encodes one. */
  lemma {:induction false} ValidEncodes(s: Bytes)
    requires ValidUtf8(s)
    ensures AllScalars(Runes(s)) && EncodeRunes(Runes(s)) == s
    ensures NoControls(s) <==> forall i :: 0 <= i < |Runes(s)| ==> !IsControl(Runes(s)[i])
  {
    if s != [] {
      var rest := s[RuneSize(s)..];
      RuneAtEncodes(s);
      ValidEncodes(rest);
      assert Runes(s)[1..] == Runes(rest);
      assert s == s[..RuneSize(s)] + rest;
    }
  }

  lemma {:induction false} EncodedValid(runes: seq<nat>)
    requires AllScalars(runes)
    ensures ValidUtf8(EncodeRunes(runes)) && Runes(EncodeRunes(runes)) == runes
  {
    if runes != [] {
      var rest := EncodeRunes(runes[1..]);
      EncodedValid(runes[1..]);
      EncodedRuneRead(runes[0], rest);
      var s := EncodeRunes(runes);
      assert s[RuneSize(s)..] == rest;
    }
  }

  // ---- references -------------------------------------------------------------------------------

  datatype Reference = Reference(appId: Bytes, objectType: Bytes, objectId: Bytes, revision: Option<Bytes>)

  datatype Fault =
    | BadAppId | BadObjectType | BadObjectId | BadRevision | TooLong | NotUtf8 | BadScheme | MissingId
    | NoObjectType | NoValue | UnknownParameter | BadEncoding | NotCanonical

  const MAX_URI: nat := 4096

  predicate Lower(c: Byte) {
    'a' <= c <= 'z'
  }

  predicate ComponentByte(c: Byte) {
    Lower(c) || '0' <= c <= '9' || c == '_' || c == '-'
  }

  predicate Component(s: Bytes, limit: nat) {
    1 <= |s| <= limit && Lower(s[0]) && forall i :: 0 <= i < |s| ==> ComponentByte(s[i])
  }

  predicate Opaque(s: Bytes, limit: nat) {
    1 <= |s| <= limit && ValidUtf8(s) && NoControls(s)
  }

  predicate Valid(r: Reference) {
    && Component(r.appId, 128) && Component(r.objectType, 64)
    && Opaque(r.objectId, 1024) && (r.revision.Some? ==> Opaque(r.revision.value, 128))
  }

  method ObjectComponent(value: Bytes, limit: nat) returns (ok: bool)
    ensures ok == Component(value, limit)
  {
    if |value| == 0 || |value| > limit || value[0] < 'a' || value[0] > 'z' {
      return false;
    }
    var index := 0;
    while index < |value|
      invariant 0 <= index <= |value| && forall i :: 0 <= i < index ==> ComponentByte(value[i])
    {
      if !ComponentByte(value[index]) {
        return false;
      }
      index := index + 1;
    }
    return true;
  }

  method ObjectOpaque(value: Bytes, limit: nat) returns (ok: bool)
    ensures ok == Opaque(value, limit)
  {
    if |value| == 0 || |value| > limit || !ValidUtf8(value) {
      return false;
    }
    var index := 0;
    while index < |value|
      invariant 0 <= index <= |value| && ValidUtf8(value[index..])
      invariant NoControls(value[index..]) == NoControls(value)
    {
      var rest := value[index..];
      if IsControl(RuneAt(rest)) {
        return false;
      }
      assert rest[RuneSize(rest)..] == value[index + RuneSize(rest)..];
      index := index + RuneSize(rest);
    }
    return true;
  }

  // ---- percent encoding (sections 2.1 and 2.3 of RFC 3986) --------------------------------------

  predicate Unreserved(c: Byte) {
    'A' <= c <= 'Z' || 'a' <= c <= 'z' || '0' <= c <= '9' || c == '-' || c == '.' || c == '_' || c == '~'
  }

  function HexDigit(n: nat): Byte
    requires n < 16
  {
    if n < 10 then (n + 48) as char else (n + 55) as char
  }

  predicate IsHex(c: Byte) {
    '0' <= c <= '9' || 'A' <= c <= 'F' || 'a' <= c <= 'f'
  }

  function FromHex(c: Byte): nat
    requires IsHex(c)
    ensures FromHex(c) < 16
  {
    if c <= '9' then c as int - 48 else if c <= 'F' then c as int - 55 else c as int - 87
  }

  function Escape(c: Byte): Bytes {
    if Unreserved(c) then [c] else ['%', HexDigit(c as int / 16), HexDigit(c as int % 16)]
  }

  function Encode(s: Bytes): Bytes {
    if s == [] then [] else Escape(s[0]) + Encode(s[1..])
  }

  /** The form-encoding escape: as above, but a space becomes a plus sign. */
  function QueryEscape(s: Bytes): Bytes {
    if s == [] then [] else (if s[0] == ' ' then ['+'] else Escape(s[0])) + QueryEscape(s[1..])
  }

  function ReplacePlus(s: Bytes): Bytes {
    if s == [] then [] else SpaceFor(s[0]) + ReplacePlus(s[1..])
  }

  function SpaceFor(c: Byte): Bytes {
    if c == '+' then ['%', '2', '0'] else [c]
  }

  function EncodeObjectQuery(s: Bytes): Bytes {
    ReplacePlus(QueryEscape(s))
  }

  predicate WellEscaped(e: Bytes) {
    e == [] ||
    if Unreserved(e[0]) then WellEscaped(e[1..])
    else e[0] == '%' && |e| >= 3 && IsHex(e[1]) && IsHex(e[2]) && WellEscaped(e[3..])
  }

  function Unescape(e: Bytes): Bytes
    requires WellEscaped(e)
  {
    if e == [] then []
    else if Unreserved(e[0]) then [e[0]] + Unescape(e[1..])
    else [(FromHex(e[1]) * 16 + FromHex(e[2])) as char] + Unescape(e[3..])
  }

  function Decode(e: Bytes): Option<Bytes> {
    if WellEscaped(e) && ValidUtf8(Unescape(e)) then Some(Unescape(e)) else None
  }

  method DecodeObjectQuery(value: Bytes) returns (decoded: Option<Bytes>)
    ensures decoded == Decode(value)
  {
    var index := 0;
    while index < |value|
      invariant 0 <= index <= |value| && WellEscaped(value[index..]) == WellEscaped(value)
    {
      var c := value[index];
      assert value[index..][1..] == value[index + 1..];
      if !Unreserved(c) {
        if c != '%' || index + 2 >= |value| || !IsHex(value[index + 1]) || !IsHex(value[index + 2]) {
          return None;
        }
        assert value[index..][3..] == value[index + 3..];
        index := index + 2;
      }
      index := index + 1;
    }
    var bytes := Unescape(value);
    return if ValidUtf8(bytes) then Some(bytes) else None;
  }

  // ---- printing and parsing ---------------------------------------------------------------------

  function Uri(appId: Bytes, objectType: Bytes, id: Bytes, revision: Option<Bytes>): Bytes {
    "app://" + appId + "/" + objectType + "?id=" + id + if revision.Some? then "&revision=" + revision.value else []
  }

  function Spelling(r: Reference): Bytes {
    Uri(r.appId, r.objectType, EncodeObjectQuery(r.objectId),
        if r.revision.Some? then Some(EncodeObjectQuery(r.revision.value)) else None)
  }

  function FaultOf(r: Reference): Option<Fault> {
    if !Component(r.appId, 128) then Some(BadAppId)
    else if !Component(r.objectType, 64) then Some(BadObjectType)
    else if !Opaque(r.objectId, 1024) then Some(BadObjectId)
    else if r.revision.Some? && !Opaque(r.revision.value, 128) then Some(BadRevision)
    else None
  }

  function Format(r: Reference): Result<Bytes, Fault> {
    if FaultOf(r).Some? then Failure(FaultOf(r).value)
    else if |Spelling(r)| > MAX_URI then Failure(TooLong)
    else Success(Spelling(r))
  }

  datatype Halves = Whole | Halves(before: Bytes, after: Bytes)

  /** Around the first occurrence of the separator. */
  function Cut(s: Bytes, sep: Byte): (h: Halves)
    ensures h.Halves? ==> s == h.before + [sep] + h.after && sep !in h.before
    ensures h.Whole? ==> sep !in s
  {
    if s == [] then Whole
    else if s[0] == sep then Halves([], s[1..])
    else
      match Cut(s[1..], sep)
      case Whole => Whole
      case Halves(before, after) => Halves([s[0]] + before, after)
  }

  function Split(s: Bytes, sep: Byte): seq<Bytes>
    decreases |s|
  {
    match Cut(s, sep)
    case Whole => [s]
    case Halves(before, after) => [before] + Split(after, sep)
  }

  datatype Parameters = Parameters(id: Option<Bytes>, revision: Option<Bytes>)

  function ReadParameter(parameter: Bytes, read: Parameters): Result<Parameters, Fault> {
    match Cut(parameter, '=')
    case Whole => Failure(NoValue)
    case Halves(key, encoded) =>
      if key == "id" && read.id.None? then
        match Decode(encoded) case None => Failure(BadEncoding) case Some(d) => Success(read.(id := Some(d)))
      else if key == "revision" && read.revision.None? then
        match Decode(encoded) case None => Failure(BadEncoding) case Some(d) => Success(read.(revision := Some(d)))
      else Failure(UnknownParameter)
  }

  function ReadParameters(parameters: seq<Bytes>, read: Parameters): Result<Parameters, Fault> {
    if parameters == [] then Success(read)
    else
      match ReadParameter(parameters[0], read)
      case Failure(fault) => Failure(fault)
      case Success(more) => ReadParameters(parameters[1..], more)
  }

  /** What the address and the query say, before the spelling is compared. */
  function Read(value: Bytes): Result<Reference, Fault> {
    if |value| > MAX_URI then Failure(TooLong)
    else if !ValidUtf8(value) then Failure(NotUtf8)
    else if !("app://" <= value) then Failure(BadScheme)
    else
      match Cut(value[6..], '?')
      case Whole => Failure(MissingId)
      case Halves(address, query) =>
        match Cut(address, '/')
        case Whole => Failure(NoObjectType)
        case Halves(appId, objectType) =>
          match ReadParameters(Split(query, '&'), Parameters(None, None))
          case Failure(fault) => Failure(fault)
          case Success(read) =>
            if read.id.None? then Failure(MissingId)
            else Success(Reference(appId, objectType, read.id.value, read.revision))
  }

  function Parse(value: Bytes): Result<Reference, Fault> {
    match Read(value)
    case Failure(fault) => Failure(fault)
    case Success(reference) =>
      match Format(reference)
      case Failure(fault) => Failure(fault)
      case Success(canonical) => if canonical != value then Failure(NotCanonical) else Success(reference)
  }

  method ParseReference(value: Bytes) returns (r: Result<Reference, Fault>)
    ensures r == Parse(value)
  {
    if |value| > MAX_URI {
      return Failure(TooLong);
    }
    if !ValidUtf8(value) {
      return Failure(NotUtf8);
    }
    if !("app://" <= value) {
      return Failure(BadScheme);
    }
    var outer := Cut(value[6..], '?');
    if outer.Whole? {
      return Failure(MissingId);
    }
    var inner := Cut(outer.before, '/');
    if inner.Whole? {
      return Failure(NoObjectType);
    }
    var read := Parameters(None, None);
    var parameters := Split(outer.after, '&');
    var n := 0;
    while n < |parameters|
      invariant 0 <= n <= |parameters|
      invariant ReadParameters(parameters[n..], read) == ReadParameters(parameters, Parameters(None, None))
    {
      var parameter := Cut(parameters[n], '=');
      assert parameters[n..][1..] == parameters[n + 1..];
      if parameter.Whole? {
        return Failure(NoValue);
      }
      if parameter.before == "id" && read.id.None? {
        var decoded := DecodeObjectQuery(parameter.after);
        if decoded.None? {
          return Failure(BadEncoding);
        }
        read := read.(id := decoded);
      } else if parameter.before == "revision" && read.revision.None? {
        var decoded := DecodeObjectQuery(parameter.after);
        if decoded.None? {
          return Failure(BadEncoding);
        }
        read := read.(revision := decoded);
      } else {
        return Failure(UnknownParameter);
      }
      n := n + 1;
    }
    if read.id.None? {
      return Failure(MissingId);
    }
    var reference := Reference(inner.before, inner.after, read.id.value, read.revision);
    var canonical := Format(reference);
    if canonical.Failure? {
      return Failure(canonical.error);
    }
    if canonical.value != value {
      return Failure(NotCanonical);
    }
    return Success(reference);
  }

  // ---- percent encoding is exact ----------------------------------------------------------------

  /** The detour over the form encoding escapes byte by byte. */
  lemma {:induction false} EscapesBytewise(s: Bytes)
    ensures EncodeObjectQuery(s) == Encode(s)
  {
    if s != [] {
      EscapesBytewise(s[1..]);
      var first := if s[0] == ' ' then ['+'] else Escape(s[0]);
      ReplacePlusConcat(first, QueryEscape(s[1..]));
      if s[0] == ' ' {
        assert ReplacePlus(['+']) == ['%', '2', '0'];
      } else {
        EscapeClean(s[0]);
        ReplaceNothing(first);
      }
    }
  }

  lemma {:induction false} ReplacePlusConcat(a: Bytes, b: Bytes)
    ensures ReplacePlus(a + b) == ReplacePlus(a) + ReplacePlus(b)
  {
    if a == [] {
      assert a + b == b;
    } else {
      ReplacePlusConcat(a[1..], b);
      assert (a + b)[1..] == a[1..] + b && (a + b)[0] == a[0];
      assert ReplacePlus(a + b) == SpaceFor(a[0]) + ReplacePlus(a[1..] + b);
      hide ReplacePlus, SpaceFor;
      Regroup(SpaceFor(a[0]), ReplacePlus(a[1..]), ReplacePlus(b));
      assert ReplacePlus(a) == SpaceFor(a[0]) + ReplacePlus(a[1..]) by {
        ReplacePlusFirst(a);
      }
    }
  }

  lemma ReplacePlusFirst(a: Bytes)
    requires a != []
    ensures ReplacePlus(a) == SpaceFor(a[0]) + ReplacePlus(a[1..])
  {
  }

  lemma {:induction false} ReplaceNothing(s: Bytes)
    requires '+' !in s
    ensures ReplacePlus(s) == s
  {
    if s != [] {
      ReplaceNothing(s[1..]);
    }
  }

  /** Bytes an escaped value is made of: none of them separates anything in a URI. */
  predicate Clean(s: Bytes) {
    forall i :: 0 <= i < |s| ==> Unreserved(s[i]) || s[i] == '%'
  }

  lemma EscapeClean(c: Byte)
    ensures Clean(Escape(c)) && '+' !in Escape(c)
    ensures 1 <= |Escape(c)| <= 3
  {
  }

  lemma {:induction false} EncodeClean(s: Bytes)
    ensures Clean(Encode(s)) && |s| <= |Encode(s)| <= 3 * |s|
  {
    if s != [] {
      EncodeClean(s[1..]);
      EscapeClean(s[0]);
    }
  }

  lemma HexRoundTrip(n: nat)
    requires n < 16
    ensures IsHex(HexDigit(n)) && FromHex(HexDigit(n)) == n
  {
  }

  /** Whatever the bytes, escaping and unescaping gives them back. */
  lemma {:induction false} UnescapeEncode(s: Bytes)
    ensures WellEscaped(Encode(s)) && Unescape(Encode(s)) == s
  {
    if s != [] {
      UnescapeEncode(s[1..]);
      var e, c := Encode(s), s[0];
      if Unreserved(c) {
        assert e[1..] == Encode(s[1..]);
      } else {
        HexRoundTrip(c as int / 16);
        HexRoundTrip(c as int % 16);
        assert e[0] == '%' && e[1] == HexDigit(c as int / 16) && e[2] == HexDigit(c as int % 16);
        assert e[3..] == Encode(s[1..]);
        assert (c as int / 16 * 16 + c as int % 16) as char == c;
      }
      assert s == [c] + s[1..];
    }
  }

  lemma DecodeEncode(s: Bytes)
    requires ValidUtf8(s)
    ensures Decode(EncodeObjectQuery(s)) == Some(s)
  {
    EscapesBytewise(s);
    UnescapeEncode(s);
  }

  // ---- the printer never fails on a valid reference ---------------------------------------------

  const LONGEST: nat := 3669

  /** A valid reference never needs the whole limit, so the limit refuses none. */
  lemma FormatTotal(r: Reference)
    ensures Format(r).Success? <==> Valid(r)
    ensures Valid(r) ==> Format(r) == Success(Spelling(r)) && |Spelling(r)| <= LONGEST < MAX_URI
  {
    if Valid(r) {
      EscapesBytewise(r.objectId);
      EncodeClean(r.objectId);
      if r.revision.Some? {
        EscapesBytewise(r.revision.value);
        EncodeClean(r.revision.value);
      }
    }
  }

  function Repeat(c: Byte, n: nat): (s: Bytes)
    ensures |s| == n && forall i :: 0 <= i < n ==> s[i] == c
  {
    if n == 0 then [] else [c] + Repeat(c, n - 1)
  }

  lemma LongestAttained() returns (r: Reference)
    ensures Valid(r) && |Spelling(r)| == LONGEST
  {
    r := PaddedReference(128, 64, 1024, 128);
  }

  lemma PaddedReference(app: nat, kind: nat, id: nat, revision: nat) returns (r: Reference)
    requires 1 <= app <= 128 && 1 <= kind <= 64 && 1 <= id <= 1024 && 1 <= revision <= 128
    ensures Valid(r) && |Spelling(r)| == 21 + app + kind + 3 * id + 3 * revision
  {
    r := Reference(Repeat('a', app), Repeat('a', kind), Repeat(' ', id), Some(Repeat(' ', revision)));
    SpacesOpaque(id);
    SpacesOpaque(revision);
    EscapesBytewise(r.objectId);
    EscapesBytewise(r.revision.value);
  }

  lemma {:induction false} SpacesOpaque(n: nat)
    ensures ValidUtf8(Repeat(' ', n)) && NoControls(Repeat(' ', n)) && |Encode(Repeat(' ', n))| == 3 * n
  {
    if n > 0 {
      SpacesOpaque(n - 1);
      assert Repeat(' ', n)[1..] == Repeat(' ', n - 1);
    }
  }

  // ---- reading back -----------------------------------------------------------------------------

  lemma {:induction false} CutAtFirst(a: Bytes, sep: Byte, b: Bytes)
    requires sep !in a
    ensures Cut(a + [sep] + b, sep) == Halves(a, b)
  {
    if a == [] {
      assert a + [sep] + b == [sep] + b;
    } else {
      CutAtFirst(a[1..], sep, b);
      assert (a + [sep] + b)[1..] == a[1..] + [sep] + b;
      assert [a[0]] + a[1..] == a;
    }
  }

  lemma SplitNone(s: Bytes, sep: Byte)
    requires sep !in s
    ensures Split(s, sep) == [s]
  {
    CutFinds(s, sep);
  }

  lemma CutFinds(s: Bytes, sep: Byte)
    ensures Cut(s, sep).Halves? <==> sep in s
  {
    if Cut(s, sep).Halves? {
      assert s[|Cut(s, sep).before|] == sep;
    }
  }

  lemma SplitOnce(a: Bytes, sep: Byte, b: Bytes)
    requires sep !in a && sep !in b
    ensures Split(a + [sep] + b, sep) == [a, b]
  {
    CutAtFirst(a, sep, b);
    SplitNone(b, sep);
  }

  lemma {:induction false} AsciiValid(s: Bytes)
    requires forall i :: 0 <= i < |s| ==> s[i] as int < 0x80
    ensures ValidUtf8(s)
  {
    if s != [] {
      AsciiValid(s[1..]);
    }
  }

  /** A value that survives the splitting of the query, with what it decodes to. */
  predicate Carries(e: Bytes, s: Bytes) {
    Clean(e) && Decode(e) == Some(s)
  }

  lemma EncodedCarries(s: Bytes)
    requires ValidUtf8(s)
    ensures Carries(EncodeObjectQuery(s), s)
  {
    EscapesBytewise(s);
    EncodeClean(s);
    DecodeEncode(s);
  }

  lemma CleanSeparatesNothing(e: Bytes)
    requires Clean(e)
    ensures '&' !in e && '=' !in e && '?' !in e
    ensures forall i :: 0 <= i < |e| ==> e[i] as int < 0x80
  {
  }

  lemma IdReads(e: Bytes, s: Bytes)
    requires Carries(e, s)
    ensures ReadParameter("id=" + e, Parameters(None, None)) == Success(Parameters(Some(s), None))
    ensures '&' !in "id=" + e
  {
    CleanSeparatesNothing(e);
    assert "id=" + e == "id" + ['='] + e;
    CutAtFirst("id", '=', e);
  }

  lemma RevisionReads(e: Bytes, s: Bytes, id: Bytes)
    requires Carries(e, s)
    ensures ReadParameter("revision=" + e, Parameters(Some(id), None)) == Success(Parameters(Some(id), Some(s)))
    ensures '&' !in "revision=" + e
  {
    CleanSeparatesNothing(e);
    assert "revision=" + e == "revision" + ['='] + e;
    CutAtFirst("revision", '=', e);
    var key: Bytes := "revision";
    assert key != "id" by { assert |key| != 2; }
  }

  function QueryOf(id: Bytes, revision: Option<Bytes>): Bytes {
    "id=" + id + if revision.Some? then "&revision=" + revision.value else []
  }

  lemma ReadOne(parameter: Bytes, read: Parameters, more: Parameters)
    requires ReadParameter(parameter, read) == Success(more)
    ensures ReadParameters([parameter], read) == Success(more)
  {
    assert [parameter][1..] == [];
  }

  lemma ReadTwo(first: Bytes, second: Bytes, read: Parameters, more: Parameters, most: Parameters)
    requires ReadParameter(first, read) == Success(more) && ReadParameter(second, more) == Success(most)
    ensures ReadParameters([first, second], read) == Success(most)
  {
    ReadOne(second, more, most);
    assert [first, second][1..] == [second];
  }

  lemma QueryReads(e: Bytes, id: Bytes, f: Option<Bytes>, revision: Option<Bytes>)
    requires Carries(e, id) && f.Some? == revision.Some? && (f.Some? ==> Carries(f.value, revision.value))
    ensures ReadParameters(Split(QueryOf(e, f), '&'), Parameters(None, None)) == Success(Parameters(Some(id), revision))
  {
    hide Carries, ReadParameter, ReadParameters, Split;
    IdReads(e, id);
    var one := Parameters(Some(id), None);
    var first: Bytes := "id=" + e;
    if f.None? {
      assert QueryOf(e, f) == first;
      SplitNone(first, '&');
      ReadOne(first, Parameters(None, None), one);
    } else {
      RevisionReads(f.value, revision.value, id);
      var second: Bytes := "revision=" + f.value;
      assert "&revision=" + f.value == ['&'] + second;
      assert QueryOf(e, f) == first + ['&'] + second;
      SplitOnce(first, '&', second);
      ReadTwo(first, second, Parameters(None, None), one, Parameters(Some(id), revision));
    }
  }

  lemma UriAscii(appId: Bytes, objectType: Bytes, e: Bytes, f: Option<Bytes>)
    requires Component(appId, 128) && Component(objectType, 64) && Clean(e) && (f.Some? ==> Clean(f.value))
    ensures ValidUtf8(Uri(appId, objectType, e, f))
  {
    CleanSeparatesNothing(e);
    if f.Some? {
      CleanSeparatesNothing(f.value);
    }
    AsciiValid(Uri(appId, objectType, e, f));
  }

  /** However its values are percent-encoded, a URI reads as the reference it carries. */
  lemma AnyEscapingReads(
    appId: Bytes, objectType: Bytes, e: Bytes, id: Bytes, f: Option<Bytes>, revision: Option<Bytes>)
    requires Component(appId, 128) && Component(objectType, 64)
    requires Carries(e, id) && f.Some? == revision.Some? && (f.Some? ==> Carries(f.value, revision.value))
    requires |Uri(appId, objectType, e, f)| <= MAX_URI
    ensures Read(Uri(appId, objectType, e, f)) == Success(Reference(appId, objectType, id, revision))
  {
    UriAscii(appId, objectType, e, f);
    hide ReadParameters, Split, ValidUtf8, Carries;
    var u := Uri(appId, objectType, e, f);
    var address: Bytes := appId + ['/'] + objectType;
    UriParts(appId, objectType, e, f);
    AddressClean(appId, objectType);
    CutAtFirst(address, '?', QueryOf(e, f));
    CutAtFirst(appId, '/', objectType);
    QueryReads(e, id, f, revision);
  }

  lemma AddressClean(appId: Bytes, objectType: Bytes)
    requires Component(appId, 128) && Component(objectType, 64)
    ensures '/' !in appId && '?' !in appId + ['/'] + objectType
  {
  }

  lemma UriParts(appId: Bytes, objectType: Bytes, e: Bytes, f: Option<Bytes>)
    ensures "app://" <= Uri(appId, objectType, e, f)
    ensures Uri(appId, objectType, e, f)[6..] == (appId + ['/'] + objectType) + ['?'] + QueryOf(e, f)
  {
    var u := Uri(appId, objectType, e, f);
    var tail := (appId + ['/'] + objectType) + ['?'] + QueryOf(e, f);
    assert "?id=" + e == ['?'] + ("id=" + e);
    assert u == "app://" + tail;
  }

  lemma SpellingReads(r: Reference)
    requires Valid(r)
    ensures Read(Spelling(r)) == Success(r)
  {
    FormatTotal(r);
    EncodedCarries(r.objectId);
    if r.revision.Some? {
      EncodedCarries(r.revision.value);
    }
    hide Read;
    AnyEscapingReads(r.appId, r.objectType, EncodeObjectQuery(r.objectId), r.objectId,
                     if r.revision.Some? then Some(EncodeObjectQuery(r.revision.value)) else None, r.revision);
  }

  /** Every valid reference survives being written and read. */
  lemma RoundTrip(r: Reference)
    requires Valid(r)
    ensures Format(r).Success? && Parse(Format(r).value) == Success(r)
  {
    FormatTotal(r);
    SpellingReads(r);
  }

  /** The parser accepts exactly the spellings of valid references, and gives back the one it spells. */
  lemma ParseIffSpelling(u: Bytes, r: Reference)
    ensures Parse(u) == Success(r) <==> Valid(r) && u == Spelling(r)
  {
    FormatTotal(r);
    if Valid(r) && u == Spelling(r) {
      SpellingReads(r);
    }
  }

  /** No two references share a spelling. */
  lemma SpellingInjective(a: Reference, b: Reference)
    requires Valid(a) && Valid(b) && Spelling(a) == Spelling(b)
    ensures a == b
  {
    SpellingReads(a);
    SpellingReads(b);
  }

  /** Any other percent-encoding of the id reads as the same reference; only the comparison refuses it. */
  lemma OtherEscapingRefused(r: Reference, e: Bytes)
    requires Valid(r) && r.revision.None? && Carries(e, r.objectId) && e != EncodeObjectQuery(r.objectId)
    requires |Uri(r.appId, r.objectType, e, None)| <= MAX_URI
    ensures Read(Uri(r.appId, r.objectType, e, None)) == Success(r)
    ensures Parse(Uri(r.appId, r.objectType, e, None)) == Failure(NotCanonical)
  {
    var u := Uri(r.appId, r.objectType, e, None);
    AnyEscapingReads(r.appId, r.objectType, e, r.objectId, None, None);
    FormatTotal(r);
    UrisApart(r.appId, r.objectType, e, EncodeObjectQuery(r.objectId));
    hide Uri, Read, Format, Valid, Carries;
  }

  lemma UrisApart(appId: Bytes, objectType: Bytes, e: Bytes, f: Bytes)
    requires e != f
    ensures Uri(appId, objectType, e, None) != Uri(appId, objectType, f, None)
  {
    var n := |"app://" + appId + "/" + objectType + "?id="|;
    assert Uri(appId, objectType, e, None)[n..] == e;
    assert Uri(appId, objectType, f, None)[n..] == f;
  }

  /** There are such encodings: an escaped letter is one. */
  lemma EscapedLetter()
    ensures Carries("%61", "a") && EncodeObjectQuery("a") == "a"
  {
    var e: Bytes := "%61";
    assert e[3..] == [];
    assert Unescape(e) == ['a'];
    AsciiValid("a");
    EscapesBytewise("a");
    assert Encode("a") == ['a'];
  }
}
