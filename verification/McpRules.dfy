/**
 What a manifest's declarations and a call's conditions come to, spelled out over the list.
 */
module McpRules {
  import opened Wrappers
  import opened WireNumbers
  import opened McpArguments
  import opened McpSchema

  /** The white space of Unicode, by code point. */
  predicate WhiteSpace(c: char) {
    var n := c as int;
    || n in {9, 10, 11, 12, 13, 32, 133, 160, 5760, 8192, 8193, 8194, 8195, 8196, 8197, 8198, 8199, 8200}
    || n in {8201, 8202, 8232, 8233, 8239, 8287, 12288}
  }

  lemma SpaceRule(c: char)
    ensures IsSpace(c) <==> WhiteSpace(c)
  {
  }

  /** Equal to a declared value: numbers by the number, anything else by being the same. */
  ghost predicate SameValue(a: Json, b: Json) {
    if a.Num? && b.Num? then a.l.Denotes() == b.l.Denotes() else a == b
  }

  lemma EqualRule(a: Json, b: Json)
    ensures ValuesEqual(a, b) <==> SameValue(a, b)
  {
    hide KeyText, Normalise;
    if a.Num? && b.Num? {
      SameKeyIffSameNumber(a.l, b.l);
    }
  }

  /** A value of the kind: a switch is a boolean, an integer is a number the decoder takes for one, and paths,
      hosts, names and texts are strings. */
  ghost predicate OfKind(kind: Kind, v: Json) {
    || (kind == BoolKind && v.Bool?) || (kind == NumberKind && v.Num?)
    || (kind == IntegerKind && v.Num? && GoDecode(v.l) != None)
    || (kind in {PathKind, HostKind, NameKind, TextKind} && v.Str?)
  }

  ghost predicate Chosen(a: Arg, v: Json) {
    OfKind(a.kind, v) && (a.choices == [] || exists i :: 0 <= i < |a.choices| && SameValue(a.choices[i], v))
  }

  /** A value of the declared kind and choices, or a list of them for a repeatable argument. */
  ghost predicate Fits(a: Arg, v: Json) {
    if a.repeatable then v.Arr? && forall i :: 0 <= i < |v.items| ==> Chosen(a, v.items[i]) else Chosen(a, v)
  }

  lemma ChosenRule(a: Arg, v: Json)
    ensures CallScalarOk(a, v) <==> Chosen(a, v)
  {
    forall i | 0 <= i < |a.choices|
      ensures ValuesEqual(a.choices[i], v) <==> SameValue(a.choices[i], v)
    {
      EqualRule(a.choices[i], v);
    }
    hide ValuesEqual, SameValue;
  }

  lemma FitsRule(a: Arg, v: Json)
    ensures ValueOk(a, v) <==> Fits(a, v)
  {
    hide CallScalarOk, Chosen;
    if v.Arr? {
      forall i | 0 <= i < |v.items|
        ensures CallScalarOk(a, v.items[i]) <==> Chosen(a, v.items[i])
      {
        ChosenRule(a, v.items[i]);
      }
    }
    ChosenRule(a, v);
  }

  /** A declaration is sound beside the ones before it: a name that is not blank and not theirs; no repeatable
      switch; choices of its kind, no two equal; nothing required that has a default; a condition on one
      of them, with a value to compare, and only on an argument that is neither required, repeatable nor
      defaulted; and a default that fits. */
  ghost predicate Sound(args: seq<Arg>, i: nat)
    requires i < |args|
  {
    var a := args[i];
    && (exists k :: 0 <= k < |a.name| && !WhiteSpace(a.name[k]))
    && (forall j :: 0 <= j < i ==> args[j].name != a.name)
    && (a.kind == BoolKind ==> !a.repeatable)
    && (forall k :: 0 <= k < |a.choices| ==> OfKind(a.kind, a.choices[k]))
    && (forall j, k :: 0 <= j < k < |a.choices| ==> !SameValue(a.choices[k], a.choices[j]))
    && (a.required ==> a.default == None)
    && (a.requiredWhen.Some? ==>
          && (exists j :: 0 <= j < i && args[j].name == a.requiredWhen.value.arg)
          && (a.requiredWhen.value.ArgPresent? || a.requiredWhen.value.value != Null)
          && !a.required && !a.repeatable && a.default == None)
    && (a.default.Some? ==> Fits(a, a.default.value))
  }

  lemma NamesRule(args: seq<Arg>, n: nat, name: string)
    requires n <= |args|
    ensures name in Names(args[..n]) <==> exists j :: 0 <= j < n && args[j].name == name
  {
    if name in Names(args[..n]) {
      var a :| a in args[..n] && a.name == name;
      var j :| 0 <= j < n && args[..n][j] == a;
      assert args[j].name == name;
    }
    if j :| 0 <= j < n && args[j].name == name {
      assert args[..n][j] == args[j];
      assert args[j] in args[..n];
    }
  }

  lemma BlankRule(name: string)
    ensures BlankName(name) <==> !exists k :: 0 <= k < |name| && !WhiteSpace(name[k])
  {
    forall k | 0 <= k < |name|
      ensures IsSpace(name[k]) <==> WhiteSpace(name[k])
    {
      SpaceRule(name[k]);
    }
    hide IsSpace, WhiteSpace;
  }

  lemma ChoicesRule(a: Arg)
    ensures ChoicesOk(a) <==>
            && (forall k :: 0 <= k < |a.choices| ==> OfKind(a.kind, a.choices[k]))
            && (forall j, k :: 0 <= j < k < |a.choices| ==> !SameValue(a.choices[k], a.choices[j]))
  {
    forall j, k | 0 <= j < k < |a.choices|
      ensures ValuesEqual(a.choices[k], a.choices[j]) <==> SameValue(a.choices[k], a.choices[j])
    {
      EqualRule(a.choices[k], a.choices[j]);
    }
    hide ValuesEqual, SameValue;
  }

  /** A manifest's list is loaded exactly when each declaration is sound beside the ones before it. */
  lemma DeclaredRule(args: seq<Arg>)
    ensures Declared(args) <==> forall i :: 0 <= i < |args| ==> Sound(args, i)
  {
    forall i | 0 <= i < |args|
      ensures DeclarationOk(Names(args[..i]), args[i]) <==> Sound(args, i)
    {
      SoundRule(args, i);
    }
    hide DeclarationOk, Sound;
  }

  lemma SoundRule(args: seq<Arg>, i: nat)
    requires i < |args|
    ensures DeclarationOk(Names(args[..i]), args[i]) <==> Sound(args, i)
  {
    hide BlankName, ChoicesOk, ValueOk, Fits, Names, OfKind, SameValue, WhiteSpace;
    var a := args[i];
    BlankRule(a.name);
    ChoicesRule(a);
    NamesRule(args, i, a.name);
    if a.requiredWhen.Some? {
      NamesRule(args, i, a.requiredWhen.value.arg);
    }
    if a.default.Some? {
      FitsRule(a, a.default.value);
    }
  }

  /** A condition looks at what is there: present, equal, or present and not equal. */
  lemma ConditionRule(c: Condition, values: Fields)
    ensures ConditionHolds(c, values) <==>
            && c.arg in values
            && (c.ArgEquals? ==> SameValue(values[c.arg], c.value))
            && (c.ArgNotEquals? ==> !SameValue(values[c.arg], c.value))
  {
    hide ValuesEqual, SameValue;
    if c.arg in values && !c.ArgPresent? {
      EqualRule(values[c.arg], c.value);
    }
  }

  /** A number fits a frame of 16 MiB, or a manifest of 1 MiB, in fewer digits than that. */
  lemma DigitsRule(l: Lexeme)
    ensures Within(Num(l), FRAME_BYTES) <==> l.WellFormed() && |l.whole + l.fraction| < 16 * 1024 * 1024
    ensures Within(Num(l), MANIFEST_BYTES) <==> l.WellFormed() && |l.whole + l.fraction| < 1024 * 1024
  {
  }
}
