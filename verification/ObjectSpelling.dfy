/**
 The letters of an `app://` reference: which bytes are written bare, how the others are escaped, what
 an escape may look like when read, and what each part may hold.
 */
module ObjectSpelling {
  import opened Wrappers
  import opened ObjectRefs

  const LETTERS: string := "abcdefghijklmnopqrstuvwxyz"
  const CAPITALS: string := "ABCDEFGHIJKLMNOPQRSTUVWXYZ"
  const DIGITS: string := "0123456789"
  const UPPER_HEX: string := "0123456789ABCDEF"
  const LOWER_HEX: string := "0123456789abcdef"

  /** The unreserved characters of section 2.3 of RFC 3986. */
  predicate Bare(c: Byte) {
    c in LETTERS || c in CAPITALS || c in DIGITS || c in "-._~"
  }

  lemma BareRule(c: Byte)
    ensures Unreserved(c) <==> Bare(c)
  {
    LetterRule(c);
    CapitalRule(c);
    DigitRule(c);
  }

  lemma LetterRule(c: char)
    ensures c in LETTERS <==> 'a' <= c <= 'z'
  {
  }

  lemma CapitalRule(c: char)
    ensures c in CAPITALS <==> 'A' <= c <= 'Z'
  {
  }

  lemma DigitRule(c: char)
    ensures c in DIGITS <==> '0' <= c <= '9'
  {
  }

  // ---- writing ------------------------------------------------------------------------------------

  /** How one byte is written: bare, or as a percent sign and two upper-case hexadecimal digits. */
  function WrittenAs(c: Byte): string {
    if Bare(c) then [c] else ['%', UPPER_HEX[c as int / 16], UPPER_HEX[c as int % 16]]
  }

  lemma EscapeRule(c: Byte)
    ensures Escape(c) == WrittenAs(c)
  {
    BareRule(c);
    HexRule(c as int / 16);
    HexRule(c as int % 16);
  }

  lemma HexRule(n: nat)
    requires n < 16
    ensures HexDigit(n) == UPPER_HEX[n]
  {
  }

  lemma {:induction false} EncodeConcat(a: Bytes, b: Bytes)
    ensures Encode(a + b) == Encode(a) + Encode(b)
  {
    hide Escape;
    if a == [] {
      assert a + b == b;
    } else {
      EncodeConcat(a[1..], b);
      assert (a + b)[1..] == a[1..] + b && (a + b)[0] == a[0];
      Regroup(Escape(a[0]), Encode(a[1..]), Encode(b));
    }
  }

  lemma Regroup(a: Bytes, b: Bytes, c: Bytes)
    ensures (a + b) + c == a + (b + c)
  {
  }

  /** Behind what is written for the bytes before it, each byte is written as itself when unreserved and
      otherwise as a percent sign and its two upper-case hexadecimal digits; nothing else is written. */
  lemma WrittenBytewise(s: Bytes, i: nat)
    requires i < |s|
    ensures EncodeObjectQuery([]) == []
    ensures EncodeObjectQuery(s[..i + 1]) == EncodeObjectQuery(s[..i]) + WrittenAs(s[i])
    ensures EncodeObjectQuery(s[..i + 1]) <= EncodeObjectQuery(s)
  {
    hide Encode, EncodeObjectQuery, Escape, WrittenAs;
    EscapesBytewise([]);
    EscapesBytewise(s);
    EscapesBytewise(s[..i]);
    EscapesBytewise(s[..i + 1]);
    assert s[..i] + [s[i]] == s[..i + 1] && s[..i + 1] + s[i + 1..] == s;
    EncodeConcat(s[..i], [s[i]]);
    EncodeConcat(s[..i + 1], s[i + 1..]);
    EncodeOne(s[i]);
    EscapeRule(s[i]);
  }

  lemma EncodeOne(c: Byte)
    ensures Encode([]) == [] && Encode([c]) == Escape(c)
  {
    assert [c][1..] == [];
  }

  /** A percent sign is only ever written before two upper-case hexadecimal digits. */
  predicate UpperEscapes(e: Bytes) {
    forall k :: 0 <= k < |e| && e[k] == '%' ==> k + 2 < |e| && e[k + 1] in UPPER_HEX && e[k + 2] in UPPER_HEX
  }

  lemma UpperConcat(a: Bytes, b: Bytes)
    requires UpperEscapes(a) && UpperEscapes(b)
    ensures UpperEscapes(a + b)
  {
  }

  lemma EscapeUpper(c: Byte)
    ensures UpperEscapes(Escape(c))
  {
    EscapeRule(c);
    var w := WrittenAs(c);
    assert '%' !in UPPER_HEX;
    assert UPPER_HEX[c as int / 16] in UPPER_HEX && UPPER_HEX[c as int % 16] in UPPER_HEX;
  }

  lemma {:induction false} EncodeUpper(s: Bytes)
    ensures UpperEscapes(Encode(s))
  {
    if s != [] {
      EncodeUpper(s[1..]);
      EscapeUpper(s[0]);
      hide UpperEscapes, Escape;
      UpperConcat(Escape(s[0]), Encode(s[1..]));
    }
  }

  /** So a reference that is accepted holds no other escape. */
  lemma AcceptedUpper(u: Bytes)
    requires Parse(u).Success?
    ensures UpperEscapes(u)
  {
    var r := Parse(u).value;
    ParseIffSpelling(u, r);
    EscapesBytewise(r.objectId);
    EncodeUpper(r.objectId);
    if r.revision.Some? {
      EscapesBytewise(r.revision.value);
      EncodeUpper(r.revision.value);
    }
    hide UpperEscapes, Uri, Parse, Component, Opaque, Encode, EncodeObjectQuery;
    UriUpper(r.appId, r.objectType, EncodeObjectQuery(r.objectId),
             if r.revision.Some? then Some(EncodeObjectQuery(r.revision.value)) else None);
  }

  lemma UriUpper(appId: Bytes, objectType: Bytes, e: Bytes, f: Option<Bytes>)
    requires Component(appId, 128) && Component(objectType, 64)
    requires UpperEscapes(e) && (f.Some? ==> UpperEscapes(f.value))
    ensures UpperEscapes(Uri(appId, objectType, e, f))
  {
    var address: Bytes := "app://" + appId + "/" + objectType + "?id=";
    assert '%' !in appId && '%' !in objectType;
    assert '%' !in address && UpperEscapes(address);
    var tail: Bytes := "&revision=";
    assert UpperEscapes(tail) && UpperEscapes([]);
    UpperConcat(address, e);
    if f.Some? {
      UpperConcat(tail, f.value);
      UpperConcat(address + e, tail + f.value);
    } else {
      UpperConcat(address + e, []);
    }
    hide UpperEscapes;
  }

  /** An id escaped with a lower-case digit reads as the id it carries and is refused all the same. */
  lemma LowerCaseRefused(r: Reference, e: Bytes)
    requires Valid(r) && r.revision.None? && Carries(e, r.objectId) && !UpperEscapes(e)
    requires |Uri(r.appId, r.objectType, e, None)| <= MAX_URI
    ensures Parse(Uri(r.appId, r.objectType, e, None)) == Failure(NotCanonical)
  {
    EscapesBytewise(r.objectId);
    EncodeUpper(r.objectId);
    OtherEscapingRefused(r, e);
  }

  /** There is one: the slash, which is escaped in upper case. */
  lemma SlashEscaped()
    ensures EncodeObjectQuery("/") == "%2F"
    ensures Carries("%2f", "/") && !UpperEscapes("%2f")
  {
    EscapesBytewise("/");
    EncodeOne('/');
    EscapeRule('/');
    hide EncodeObjectQuery;
    SlashLowered("%2f");
  }

  lemma SlashLowered(e: Bytes)
    requires e == "%2f"
    ensures Carries(e, "/") && !UpperEscapes(e)
  {
    assert e[0] == '%' && e[1] == LOWER_HEX[2] && e[2] == LOWER_HEX[15] && e[3..] == [];
    assert EscapingOf(e, "/");
    hide EscapingOf;
    AsciiValid("/");
    DecodeIff(e, "/");
    assert e[2] !in UPPER_HEX;
  }

  // ---- reading ------------------------------------------------------------------------------------

  /** A hexadecimal digit of this value, in either case. */
  predicate HexOf(c: Byte, n: nat) {
    n < 16 && (c == UPPER_HEX[n] || c == LOWER_HEX[n])
  }

  lemma HexValue(c: Byte)
    ensures IsHex(c) <==> c in UPPER_HEX || c in LOWER_HEX
    ensures IsHex(c) ==> forall n :: HexOf(c, n) <==> n == FromHex(c)
  {
  }

  /** The text spells the bytes: each either bare, which only an unreserved one may be, or as a percent
      sign and the two digits of its value. */
  predicate EscapingOf(e: Bytes, s: Bytes) {
    if s == [] then e == []
    else
      || (e != [] && e[0] == s[0] && Bare(s[0]) && EscapingOf(e[1..], s[1..]))
      || (|e| >= 3 && e[0] == '%' && HexOf(e[1], s[0] as int / 16) && HexOf(e[2], s[0] as int % 16)
          && EscapingOf(e[3..], s[1..]))
  }

  lemma Nibbles(h: nat, l: nat, c: Byte)
    requires h < 16 && l < 16
    ensures (h * 16 + l) as char == c <==> c as int / 16 == h && c as int % 16 == l
  {
  }

  lemma HeadAndTail(x: Byte, rest: Bytes, s: Bytes)
    ensures [x] + rest == s <==> s != [] && s[0] == x && s[1..] == rest
  {
    if s != [] && s[0] == x && s[1..] == rest {
      assert s == [s[0]] + s[1..];
    }
  }

  lemma {:induction false} UnescapeIff(e: Bytes, s: Bytes)
    ensures EscapingOf(e, s) <==> WellEscaped(e) && Unescape(e) == s
    decreases |e|
  {
    if e != [] && s != [] {
      BareRule(e[0]);
      if Bare(e[0]) {
        UnescapeIff(e[1..], s[1..]);
        if WellEscaped(e) {
          HeadAndTail(e[0], Unescape(e[1..]), s);
        }
      } else if |e| >= 3 && e[0] == '%' && IsHex(e[1]) && IsHex(e[2]) {
        UnescapeIff(e[3..], s[1..]);
        HexValue(e[1]);
        HexValue(e[2]);
        Nibbles(FromHex(e[1]), FromHex(e[2]), s[0]);
        if WellEscaped(e) {
          HeadAndTail((FromHex(e[1]) * 16 + FromHex(e[2])) as char, Unescape(e[3..]), s);
        }
        hide FromHex, IsHex, HexOf;
      } else if |e| >= 3 {
        HexValue(e[1]);
        HexValue(e[2]);
      }
    }
  }

  /** A value decodes exactly from its escapings, in either case and bare or not, if it is UTF-8. */
  lemma DecodeIff(e: Bytes, s: Bytes)
    ensures Decode(e) == Some(s) <==> ValidUtf8(s) && EscapingOf(e, s)
  {
    UnescapeIff(e, s);
  }

  // ---- what each part may hold ----------------------------------------------------------------------

  /** One to the limit of lower-case letters, digits, underscores and dashes, a letter first. */
  predicate Name(s: Bytes, limit: nat) {
    && 1 <= |s| <= limit && s[0] in LETTERS
    && forall i :: 0 <= i < |s| ==> s[i] in LETTERS || s[i] in DIGITS || s[i] in "_-"
  }

  lemma ComponentRule(s: Bytes, limit: nat)
    ensures Component(s, limit) <==> Name(s, limit)
  {
    forall i | 0 <= i < |s|
      ensures ComponentByte(s[i]) <==> s[i] in LETTERS || s[i] in DIGITS || s[i] in "_-"
      ensures Lower(s[i]) <==> s[i] in LETTERS
    {
      LetterRule(s[i]);
      DigitRule(s[i]);
    }
  }

  /** One to the limit of bytes that encode scalar values, none of them one of the thirty-two C0
      controls, delete, or the thirty-two C1 controls. */
  ghost predicate Printable(s: Bytes, limit: nat) {
    && 1 <= |s| <= limit
    && exists runes {:trigger EncodeRunes(runes)} ::
         && AllScalars(runes) && EncodeRunes(runes) == s
         && forall i :: 0 <= i < |runes| ==> 32 <= runes[i] && runes[i] != 127 && !(128 <= runes[i] < 160)
  }

  lemma OpaqueRule(s: Bytes, limit: nat)
    ensures Opaque(s, limit) <==> Printable(s, limit)
  {
    if ValidUtf8(s) {
      ValidEncodes(s);
      assert EncodeRunes(Runes(s)) == s;
      forall runes | AllScalars(runes) && EncodeRunes(runes) == s
        ensures runes == Runes(s)
      {
        EncodedValid(runes);
      }
    } else {
      forall runes | AllScalars(runes)
        ensures EncodeRunes(runes) != s
      {
        EncodedValid(runes);
      }
    }
  }

  /** The first part out of its bounds decides the refusal; with none there is no refusal at all. */
  lemma FormatRule(r: Reference)
    ensures Format(r) == Failure(BadAppId) <==> !Name(r.appId, 128)
    ensures Format(r) == Failure(BadObjectType) <==> Name(r.appId, 128) && !Name(r.objectType, 64)
    ensures Format(r) == Failure(BadObjectId) <==>
            Name(r.appId, 128) && Name(r.objectType, 64) && !Printable(r.objectId, 1024)
    ensures Format(r) == Failure(BadRevision) <==>
            && Name(r.appId, 128) && Name(r.objectType, 64) && Printable(r.objectId, 1024)
            && r.revision.Some? && !Printable(r.revision.value, 128)
    ensures Format(r).Success? <==>
            && Name(r.appId, 128) && Name(r.objectType, 64) && Printable(r.objectId, 1024)
            && (r.revision.Some? ==> Printable(r.revision.value, 128))
  {
    ComponentRule(r.appId, 128);
    ComponentRule(r.objectType, 64);
    OpaqueRule(r.objectId, 1024);
    if r.revision.Some? {
      OpaqueRule(r.revision.value, 128);
    }
    FormatTotal(r);
    hide Component, Opaque, Name, Printable, Spelling;
  }

  lemma {:induction false} ParameterFaults(parameters: seq<Bytes>, read: Parameters)
    ensures ReadParameters(parameters, read).Failure? ==>
              ReadParameters(parameters, read).error in {NoValue, BadEncoding, UnknownParameter}
  {
    hide Cut, Decode;
    if parameters != [] && ReadParameter(parameters[0], read).Success? {
      ParameterFaults(parameters[1..], ReadParameter(parameters[0], read).value);
    }
  }

  /** A reference is refused for its length exactly when it has more than 4096 bytes. */
  lemma LengthRule(u: Bytes)
    ensures Parse(u) == Failure(TooLong) <==> |u| > 4096
  {
    hide ValidUtf8, Cut, Split, ReadParameters, Format;
    if |u| <= 4096 && Read(u).Failure? && "app://" <= u && Cut(u[6..], '?').Halves? {
      ParameterFaults(Split(Cut(u[6..], '?').after, '&'), Parameters(None, None));
    }
    if |u| <= 4096 && Read(u).Success? {
      FormatTotal(Read(u).value);
      FormatRule(Read(u).value);
    }
  }
}
