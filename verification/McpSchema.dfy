/**
 The JSON Schema advertised for a tool's arguments, and exactly when validating a call against it
 accepts the same calls as dispatch does.
 */
module McpSchema {
  import opened Wrappers
  import opened Decimals
  import opened WireNumbers
  import opened McpArguments

  // ---- the fragment of JSON Schema 2020-12 in use --------------------------------------------

  datatype JsonType = StringType | BooleanType | IntegerType | NumberType | ArrayType | ObjectType

  datatype Property = Property(name: string, schema: Schema)

  datatype Schema =
    | Type(t: JsonType) | Enum(values: seq<Json>) | Const(value: Json) | Items(items: Schema)
    | Properties(properties: seq<Property>) | AdditionalForbidden(known: set<string>) | Required(names: seq<string>)
    | Not(negated: Schema) | If(cond: Schema, yes: Schema, no: Schema) | All(parts: seq<Schema>)

  /** Instance equality (section 4.2.2 of JSON Schema Core): numbers by value, at every depth. */
  ghost predicate SameInstance(a: Json, b: Json) {
    match (a, b)
    case (Num(x), Num(y)) => x.Denotes() == y.Denotes()
    case (Arr(x), Arr(y)) => |x| == |y| && forall i :: 0 <= i < |x| ==> SameInstance(x[i], y[i])
    case (Obj(x), Obj(y)) => x.Keys == y.Keys && forall k <- x.Keys :: SameInstance(x[k], y[k])
    case _ => a == b
  }

  ghost predicate HasType(v: Json, t: JsonType) {
    match t
    case StringType => v.Str?
    case BooleanType => v.Bool?
    case NumberType => v.Num?
    case IntegerType => v.Num? && IsInteger(v.l.Denotes())
    case ArrayType => v.Arr?
    case ObjectType => v.Obj?
  }

  /** Each keyword constrains only the instances of its own type. */
  ghost predicate Accepts(schema: Schema, v: Json)
    decreases schema
  {
    match schema
    case Type(t) => HasType(v, t)
    case Enum(values) => exists i :: 0 <= i < |values| && SameInstance(values[i], v)
    case Const(value) => SameInstance(value, v)
    case Items(item) => v.Arr? ==> forall i :: 0 <= i < |v.items| ==> Accepts(item, v.items[i])
    case Properties(ps) =>
      v.Obj? ==> forall i :: 0 <= i < |ps| && ps[i].name in v.fields ==> Accepts(ps[i].schema, v.fields[ps[i].name])
    case AdditionalForbidden(known) => v.Obj? ==> v.fields.Keys <= known
    case Required(names) => v.Obj? ==> forall i :: 0 <= i < |names| ==> names[i] in v.fields
    case Not(negated) => !Accepts(negated, v)
    case If(cond, yes, no) => if Accepts(cond, v) then Accepts(yes, v) else Accepts(no, v)
    case All(parts) => forall i :: 0 <= i < |parts| ==> Accepts(parts[i], v)
  }

  // ---- the advertised schema ------------------------------------------------------------------

  function TypeOf(kind: Kind): JsonType {
    match kind
    case BoolKind => BooleanType
    case IntegerKind => IntegerType
    case NumberKind => NumberType
    case _ => StringType
  }

  function ScalarSchema(a: Arg): Schema {
    if a.choices == [] then Type(TypeOf(a.kind)) else All([Type(TypeOf(a.kind)), Enum(a.choices)])
  }

  function PropertySchema(a: Arg): Schema {
    if a.repeatable then All([Type(ArrayType), Items(ScalarSchema(a))]) else ScalarSchema(a)
  }

  function ConditionSchema(c: Condition): Schema {
    match c
    case ArgPresent(arg) => Required([arg])
    case ArgEquals(arg, value) => All([Properties([Property(arg, Const(value))]), Required([arg])])
    case ArgNotEquals(arg, value) =>
      All([Required([arg]), Not(All([Properties([Property(arg, Const(value))]), Required([arg])]))])
  }

  function Conditional(a: Arg): Schema
    requires a.requiredWhen.Some?
  {
    If(ConditionSchema(a.requiredWhen.value), Required([a.name]), Not(Required([a.name])))
  }

  function PropertyList(args: seq<Arg>): (ps: seq<Property>)
    ensures |ps| == |args|
    ensures forall i :: 0 <= i < |args| ==> ps[i] == Property(args[i].name, PropertySchema(args[i]))
  {
    if args == [] then []
    else PropertyList(args[..|args| - 1]) + [Property(args[|args| - 1].name, PropertySchema(args[|args| - 1]))]
  }

  function RequiredList(args: seq<Arg>): seq<string> {
    if args == [] then []
    else RequiredList(args[..|args| - 1]) + if args[|args| - 1].required then [args[|args| - 1].name] else []
  }

  function ConditionalList(args: seq<Arg>): seq<Schema> {
    if args == [] then []
    else
      ConditionalList(args[..|args| - 1]) +
      if args[|args| - 1].requiredWhen.Some? then [Conditional(args[|args| - 1])] else []
  }

  /** Keywords of one schema object apply together; empty `required` and `allOf` are left out. */
  function InputSchema(args: seq<Arg>): Schema {
    All([Type(ObjectType), Properties(PropertyList(args)), AdditionalForbidden(Names(args))]
        + (if RequiredList(args) == [] then [] else [Required(RequiredList(args))])
        + (if ConditionalList(args) == [] then [] else [All(ConditionalList(args))]))
  }

  lemma OneMore(args: seq<Arg>, n: nat)
    requires n < |args|
    ensures PropertyList(args[..n + 1]) == PropertyList(args[..n]) + [Property(args[n].name, PropertySchema(args[n]))]
    ensures RequiredList(args[..n + 1]) == RequiredList(args[..n]) + if args[n].required then [args[n].name] else []
    ensures ConditionalList(args[..n + 1]) ==
            ConditionalList(args[..n]) + if args[n].requiredWhen.Some? then [Conditional(args[n])] else []
    ensures Names(args[..n + 1]) == Names(args[..n]) + {args[n].name}
  {
    assert args[..n + 1][..n] == args[..n];
    assert args[..n + 1] == args[..n] + [args[n]];
  }

  method BuildInputSchema(args: seq<Arg>) returns (schema: Schema)
    ensures schema == InputSchema(args)
  {
    var properties: seq<Property> := [];
    var names: set<string> := {};
    var required: seq<string> := [];
    var allOf: seq<Schema> := [];
    assert names == Names(args[..0]);
    assert PropertyList(args[..0]) == [] && RequiredList(args[..0]) == [] && ConditionalList(args[..0]) == [];
    hide PropertyList, RequiredList, ConditionalList, Names, PropertySchema, Conditional;
    var n := 0;
    while n < |args|
      invariant 0 <= n <= |args|
      invariant properties == PropertyList(args[..n]) && names == Names(args[..n])
      invariant required == RequiredList(args[..n]) && allOf == ConditionalList(args[..n])
    {
      var a := args[n];
      OneMore(args, n);
      properties := properties + [Property(a.name, PropertySchema(a))];
      names := names + {a.name};
      if a.required {
        required := required + [a.name];
      }
      if a.requiredWhen.Some? {
        allOf := allOf + [Conditional(a)];
      }
      n := n + 1;
    }
    assert args[..n] == args;
    var keywords := [Type(ObjectType), Properties(properties), AdditionalForbidden(names)];
    if required != [] {
      keywords := keywords + [Required(required)];
    }
    if allOf != [] {
      keywords := keywords + [All(allOf)];
    }
    return All(keywords);
  }

  // ---- what the schema says ---------------------------------------------------------------------

  ghost predicate ConditionSeen(c: Condition, values: Fields) {
    && c.arg in values
    && match c
       case ArgPresent(_) => true
       case ArgEquals(arg, value) => SameInstance(value, values[arg])
       case ArgNotEquals(arg, value) => !SameInstance(value, values[arg])
  }

  ghost predicate ArgShown(a: Arg, values: Fields) {
    && (a.name in values ==> Accepts(PropertySchema(a), values[a.name]))
    && (a.required ==> a.name in values)
    && ConditionShown(a, values)
  }

  ghost predicate ConditionShown(a: Arg, values: Fields) {
    a.requiredWhen.Some? ==> (ConditionSeen(a.requiredWhen.value, values) <==> a.name in values)
  }

  lemma RequiredOne(name: string, values: Fields)
    ensures Accepts(Required([name]), Obj(values)) <==> name in values
  {
    assert [name][0] == name;
  }

  lemma ConditionSchemaMeaning(c: Condition, values: Fields)
    ensures Accepts(ConditionSchema(c), Obj(values)) <==> ConditionSeen(c, values)
  {
    var v, present := Obj(values), Required([c.arg]);
    RequiredOne(c.arg, values);
    if !c.ArgPresent? {
      var equal := Properties([Property(c.arg, Const(c.value))]);
      assert Accepts(equal, v) <==> (c.arg in values ==> SameInstance(c.value, values[c.arg])) by {
        assert [Property(c.arg, Const(c.value))][0].name == c.arg;
      }
      AllOfTwo(equal, present, v);
      AllOfTwo(present, Not(All([equal, present])), v);
    }
  }

  lemma ConditionalMeaning(a: Arg, values: Fields)
    requires a.requiredWhen.Some?
    ensures Accepts(Conditional(a), Obj(values)) <==>
            (ConditionSeen(a.requiredWhen.value, values) <==> a.name in values)
  {
    hide ConditionSeen, ConditionSchema;
    ConditionSchemaMeaning(a.requiredWhen.value, values);
    RequiredOne(a.name, values);
  }

  lemma AllOfTwo(a: Schema, b: Schema, v: Json)
    ensures Accepts(All([a, b]), v) <==> Accepts(a, v) && Accepts(b, v)
  {
    assert [a, b][0] == a && [a, b][1] == b;
  }

  lemma {:induction false} RequiredMeaning(args: seq<Arg>, values: Fields)
    ensures Accepts(Required(RequiredList(args)), Obj(values)) <==>
            forall i :: 0 <= i < |args| && args[i].required ==> args[i].name in values
  {
    if args != [] {
      var init, a := args[..|args| - 1], args[|args| - 1];
      RequiredMeaning(init, values);
      assert args == init + [a];
      var before, now := RequiredList(init), RequiredList(args);
      assert forall i :: 0 <= i < |before| ==> now[i] == before[i];
      assert a.required ==> now[|before|] == a.name;
    }
  }

  lemma {:induction false} ConditionalsMeaning(args: seq<Arg>, values: Fields)
    ensures Accepts(All(ConditionalList(args)), Obj(values)) <==>
            forall i :: 0 <= i < |args| ==> ConditionShown(args[i], values)
  {
    if args != [] {
      var init, a := args[..|args| - 1], args[|args| - 1];
      ConditionalsMeaning(init, values);
      assert args == init + [a];
      var own := if a.requiredWhen.Some? then [Conditional(a)] else [];
      AllOfBoth(ConditionalList(init), own, Obj(values));
      OwnCondition(a, own, values);
      assert ConditionalList(args) == ConditionalList(init) + own;
      hide Accepts, ConditionShown, ConditionalList;
      forall i | 0 <= i < |init| ensures args[i] == init[i] {}
    }
  }

  lemma OwnCondition(a: Arg, own: seq<Schema>, values: Fields)
    requires own == if a.requiredWhen.Some? then [Conditional(a)] else []
    ensures Accepts(All(own), Obj(values)) <==> ConditionShown(a, values)
  {
    if a.requiredWhen.Some? {
      ConditionalMeaning(a, values);
      assert own[0] == Conditional(a);
      hide ConditionSeen, Conditional;
    }
  }

  lemma SchemaMeaning(args: seq<Arg>, values: Fields)
    ensures Accepts(InputSchema(args), Obj(values)) <==>
            values.Keys <= Names(args) && forall i :: 0 <= i < |args| ==> ArgShown(args[i], values)
  {
    hide PropertySchema, Conditional, RequiredList, ConditionSeen;
    var v := Obj(values);
    RequiredMeaning(args, values);
    ConditionalsMeaning(args, values);
    var ps := PropertyList(args);
    assert Accepts(Properties(ps), v) <==>
      forall i :: 0 <= i < |args| && args[i].name in values ==>
        Accepts(PropertySchema(args[i]), values[args[i].name]) by {
      forall i | 0 <= i < |args| ensures ps[i].name == args[i].name && ps[i].schema == PropertySchema(args[i]) {}
    }
    KeywordsTogether(args, v);
  }

  lemma KeywordsTogether(args: seq<Arg>, v: Json)
    requires v.Obj?
    ensures Accepts(InputSchema(args), v) <==>
      && v.fields.Keys <= Names(args)
      && Accepts(Properties(PropertyList(args)), v)
      && Accepts(Required(RequiredList(args)), v)
      && Accepts(All(ConditionalList(args)), v)
  {
    var shape := [Type(ObjectType), Properties(PropertyList(args)), AdditionalForbidden(Names(args))];
    var must := if RequiredList(args) == [] then [] else [Required(RequiredList(args))];
    var when := if ConditionalList(args) == [] then [] else [All(ConditionalList(args))];
    assert InputSchema(args) == All(shape + must + when);
    ShapeMeaning(PropertyList(args), Names(args), v);
    RequiredOmitted(RequiredList(args), v);
    ConditionsOmitted(ConditionalList(args), v);
    hide PropertyList, RequiredList, ConditionalList, InputSchema, Accepts, Names;
    AllOfBoth(shape + must, when, v);
    AllOfBoth(shape, must, v);
  }

  lemma ShapeMeaning(ps: seq<Property>, names: set<string>, v: Json)
    requires v.Obj?
    ensures Accepts(All([Type(ObjectType), Properties(ps), AdditionalForbidden(names)]), v) <==>
            Accepts(Properties(ps), v) && v.fields.Keys <= names
  {
    var shape := [Type(ObjectType), Properties(ps), AdditionalForbidden(names)];
    assert Accepts(shape[0], v);
    assert Accepts(shape[1], v) <==> Accepts(Properties(ps), v);
    assert Accepts(shape[2], v) <==> v.fields.Keys <= names;
  }

  lemma RequiredOmitted(names: seq<string>, v: Json)
    ensures Accepts(All(if names == [] then [] else [Required(names)]), v) <==> Accepts(Required(names), v)
  {
    if names != [] {
      assert [Required(names)][0] == Required(names);
    }
  }

  lemma ConditionsOmitted(conditions: seq<Schema>, v: Json)
    ensures Accepts(All(if conditions == [] then [] else [All(conditions)]), v) <==> Accepts(All(conditions), v)
  {
    if conditions != [] {
      assert [All(conditions)][0] == All(conditions);
    }
  }

  lemma AllOfBoth(xs: seq<Schema>, ys: seq<Schema>, v: Json)
    ensures Accepts(All(xs + ys), v) <==> Accepts(All(xs), v) && Accepts(All(ys), v)
  {
    var zs := xs + ys;
    assert forall i :: 0 <= i < |xs| ==> zs[i] == xs[i];
    assert forall i :: 0 <= i < |ys| ==> zs[|xs| + i] == ys[i];
  }

  // ---- equality of instances ---------------------------------------------------------------------

  lemma {:induction false} SameRefl(v: Json)
    ensures SameInstance(v, v)
  {
    match v
    case Arr(items) =>
      forall i | 0 <= i < |items| ensures SameInstance(items[i], items[i]) {
        SameRefl(items[i]);
      }
    case Obj(fields) =>
      forall k | k in fields.Keys ensures SameInstance(fields[k], fields[k]) {
        SameRefl(fields[k]);
      }
    case _ =>
  }

  lemma {:induction false} SameSymm(a: Json, b: Json)
    requires SameInstance(a, b)
    ensures SameInstance(b, a)
  {
    match (a, b)
    case (Arr(x), Arr(y)) =>
      forall i | 0 <= i < |x| ensures SameInstance(y[i], x[i]) {
        SameSymm(x[i], y[i]);
      }
    case (Obj(x), Obj(y)) =>
      forall k | k in y.Keys ensures SameInstance(y[k], x[k]) {
        SameSymm(x[k], y[k]);
      }
    case _ =>
  }

  lemma {:induction false} SameTrans(a: Json, b: Json, c: Json)
    requires SameInstance(a, b) && SameInstance(b, c)
    ensures SameInstance(a, c)
  {
    match (a, b)
    case (Arr(x), Arr(y)) =>
      forall i | 0 <= i < |x| ensures SameInstance(x[i], c.items[i]) {
        SameTrans(x[i], y[i], c.items[i]);
      }
    case (Obj(x), Obj(y)) =>
      forall k | k in x.Keys ensures SameInstance(x[k], c.fields[k]) {
        SameTrans(x[k], y[k], c.fields[k]);
      }
    case _ =>
  }

  /** No schema tells two spellings of one instance apart. */
  lemma {:induction false} AcceptsSame(schema: Schema, v: Json, w: Json)
    requires SameInstance(v, w)
    ensures Accepts(schema, v) == Accepts(schema, w)
    decreases schema
  {
    match schema
    case Type(t) =>
    case Enum(values) =>
      SameSymm(v, w);
      forall i | 0 <= i < |values| ensures SameInstance(values[i], v) == SameInstance(values[i], w) {
        SameEither(values[i], v, w);
      }
    case Const(value) =>
      SameEither(value, v, w);
    case Items(item) =>
      if v.Arr? {
        forall i | 0 <= i < |v.items| ensures Accepts(item, v.items[i]) == Accepts(item, w.items[i]) {
          AcceptsSame(item, v.items[i], w.items[i]);
        }
      }
    case Properties(ps) =>
      if v.Obj? {
        forall i | 0 <= i < |ps| && ps[i].name in v.fields
          ensures Accepts(ps[i].schema, v.fields[ps[i].name]) == Accepts(ps[i].schema, w.fields[ps[i].name])
        {
          AcceptsSame(ps[i].schema, v.fields[ps[i].name], w.fields[ps[i].name]);
        }
      }
    case AdditionalForbidden(_) =>
    case Required(names) =>
      if v.Obj? {
        assert forall n :: n in v.fields.Keys <==> n in w.fields.Keys;
      }
    case Not(negated) =>
      AcceptsSame(negated, v, w);
    case If(cond, yes, no) =>
      AcceptsSame(cond, v, w);
      AcceptsSame(yes, v, w);
      AcceptsSame(no, v, w);
    case All(parts) =>
      forall i | 0 <= i < |parts| ensures Accepts(parts[i], v) == Accepts(parts[i], w) {
        AcceptsSame(parts[i], v, w);
      }
  }

  lemma SameEither(value: Json, v: Json, w: Json)
    requires SameInstance(v, w)
    ensures SameInstance(value, v) == SameInstance(value, w)
  {
    SameSymm(v, w);
    if SameInstance(value, v) {
      SameTrans(value, v, w);
    }
    if SameInstance(value, w) {
      SameTrans(value, w, v);
    }
  }

  // ---- one value --------------------------------------------------------------------------------

  const FRAME_BYTES: nat := 0x100_0000
  const MANIFEST_BYTES: nat := 0x10_0000

  /** Every number in the value is spelled in fewer than `limit` digits. */
  predicate Within(v: Json, limit: nat) {
    match v
    case Num(l) => l.WellFormed() && |l.AllDigits()| < limit
    case Arr(items) => forall i :: 0 <= i < |items| ==> Within(items[i], limit)
    case Obj(fields) => forall k <- fields.Keys :: Within(fields[k], limit)
    case _ => true
  }

  /** A call arrives in one frame of at most 16 MiB. */
  predicate Framed(values: Fields) {
    forall n <- values.Keys :: Within(values[n], FRAME_BYTES)
  }

  /** A manifest has at most 1 MiB. */
  predicate Manifested(args: seq<Arg>) {
    forall i :: 0 <= i < |args| ==>
      && (forall k :: 0 <= k < |args[i].choices| ==> Within(args[i].choices[k], MANIFEST_BYTES))
      && (args[i].default.Some? ==> Within(args[i].default.value, MANIFEST_BYTES))
      && (args[i].requiredWhen.Some? && !args[i].requiredWhen.value.ArgPresent? ==>
            Within(args[i].requiredWhen.value.value, MANIFEST_BYTES))
  }

  predicate Scalar(v: Json) {
    !v.Arr? && !v.Obj?
  }

  /** On scalars the comparison of keys and encodings is equality of instances. */
  lemma ScalarsCompareByValue(a: Json, b: Json)
    requires Scalar(a)
    ensures ValuesEqual(a, b) == SameInstance(a, b) == SameInstance(b, a) == ValuesEqual(b, a)
  {
    hide KeyText, Normalise;
    if a.Num? && b.Num? {
      SameKeyIffSameNumber(a.l, b.l);
    }
  }

  lemma KindIsType(kind: Kind, v: Json)
    requires Within(v, FRAME_BYTES)
    ensures ScalarOk(kind, v) <==> HasType(v, TypeOf(kind))
  {
    if kind.IntegerKind? && v.Num? {
      GoDecodeExact(v.l);
    }
  }

  lemma ScalarAgrees(a: Arg, v: Json)
    requires ChoicesOk(a) && Within(v, FRAME_BYTES)
    ensures Accepts(ScalarSchema(a), v) <==> CallScalarOk(a, v)
  {
    KindIsType(a.kind, v);
    if a.choices != [] {
      forall i | 0 <= i < |a.choices| ensures ValuesEqual(a.choices[i], v) == SameInstance(a.choices[i], v) {
        ScalarsCompareByValue(a.choices[i], v);
      }
      AllOfTwo(Type(TypeOf(a.kind)), Enum(a.choices), v);
    }
  }

  /** The advertised property accepts exactly the values dispatch accepts for the argument. */
  lemma PropertyAgrees(a: Arg, v: Json)
    requires ChoicesOk(a) && Within(v, FRAME_BYTES)
    ensures Accepts(PropertySchema(a), v) <==> ValueOk(a, v)
  {
    if a.repeatable {
      AllOfTwo(Type(ArrayType), Items(ScalarSchema(a)), v);
      if v.Arr? {
        forall i | 0 <= i < |v.items| ensures Accepts(ScalarSchema(a), v.items[i]) <==> CallScalarOk(a, v.items[i]) {
          ScalarAgrees(a, v.items[i]);
        }
      }
    } else {
      ScalarAgrees(a, v);
    }
  }

  lemma {:induction false} WithinMore(v: Json, small: nat, large: nat)
    requires Within(v, small) && small <= large
    ensures Within(v, large)
  {
    match v
    case Arr(items) =>
      forall i | 0 <= i < |items| ensures Within(items[i], large) {
        WithinMore(items[i], small, large);
      }
    case Obj(fields) =>
      forall k | k in fields.Keys ensures Within(fields[k], large) {
        WithinMore(fields[k], small, large);
      }
    case _ =>
  }

  // ---- when the schema and dispatch agree -------------------------------------------------------

  /** The condition looks at an argument whose own default satisfies it. */
  predicate DefaultHolds(args: seq<Arg>, a: Arg) {
    && a.requiredWhen.Some?
    && exists j :: 0 <= j < |args| && HeldByDefault(args[j], a.requiredWhen.value)
  }

  predicate HeldByDefault(source: Arg, c: Condition) {
    source.name == c.arg && source.default.Some? && ConditionHolds(c, map[c.arg := source.default.value])
  }

  /** The condition compares a list of numbers, which dispatch does spelling by spelling. */
  predicate SpellingSensitive(args: seq<Arg>, a: Arg) {
    && a.requiredWhen.Some?
    && exists j :: 0 <= j < |args| && NumberList(args[j], a.requiredWhen.value)
  }

  predicate NumberList(source: Arg, c: Condition) {
    && source.name == c.arg && !c.ArgPresent?
    && source.repeatable && (source.kind.NumberKind? || source.kind.IntegerKind?)
    && ValueOk(source, c.value) && c.value.items != []
  }

  lemma SameCallScalar(a: Arg, v: Json, w: Json)
    requires ChoicesOk(a) && SameInstance(v, w) && Within(v, FRAME_BYTES) && Within(w, FRAME_BYTES)
    ensures ValueOk(a, v) == ValueOk(a, w)
  {
    PropertyAgrees(a, v);
    PropertyAgrees(a, w);
    AcceptsSame(PropertySchema(a), v, w);
  }

  /** Against a value its source accepts, a condition's two comparisons agree unless it is a list of numbers. */
  lemma ComparisonAgrees(source: Arg, v: Json, value: Json)
    requires ChoicesOk(source) && ValueOk(source, v) && Within(v, FRAME_BYTES) && Within(value, FRAME_BYTES)
    requires !NumberList(source, ArgEquals(source.name, value))
    ensures ValuesEqual(v, value) == SameInstance(value, v)
  {
    if Scalar(v) {
      ScalarsCompareByValue(v, value);
    } else if Scalar(value) {
      ScalarsCompareByValue(value, v);
    } else {
      SameRefl(v);
      if SameInstance(value, v) {
        SameCallScalar(source, v, value) by { SameSymm(value, v); }
        forall i | 0 <= i < |v.items| ensures v.items[i] == value.items[i] {
          assert SameInstance(value.items[i], v.items[i]);
          assert CallScalarOk(source, v.items[i]);
        }
        assert v.items == value.items;
      }
    }
  }

  lemma ConditionAgrees(source: Arg, c: Condition, values: Fields)
    requires ChoicesOk(source) && source.name == c.arg
    requires c.arg in values ==> ValueOk(source, values[c.arg]) && Within(values[c.arg], FRAME_BYTES)
    requires !c.ArgPresent? ==> Within(c.value, FRAME_BYTES)
    requires !NumberList(source, c)
    ensures ConditionHolds(c, values) == ConditionSeen(c, values)
  {
    if c.arg in values && !c.ArgPresent? {
      ComparisonAgrees(source, values[c.arg], c.value);
    }
  }

  /** The earlier argument a condition looks at. */
  lemma SourceOf(args: seq<Arg>, i: nat) returns (j: nat)
    requires Declared(args) && i < |args| && args[i].requiredWhen.Some?
    ensures j < i && args[j].name == args[i].requiredWhen.value.arg
  {
    assert DeclarationOk(Names(args[..i]), args[i]);
    var a :| a in args[..i] && a.name == args[i].requiredWhen.value.arg;
    j :| 0 <= j < i && args[..i][j] == a;
  }

  predicate ConditionsPlain(args: seq<Arg>) {
    forall i :: 0 <= i < |args| ==> !SpellingSensitive(args, args[i])
  }

  lemma ArgAgrees(args: seq<Arg>, i: nat, values: Fields)
    requires Declared(args) && Manifested(args) && Framed(values) && i < |args|
    requires !SpellingSensitive(args, args[i])
    requires forall k :: 0 <= k < |args| && args[k].name in values ==> ValueOk(args[k], values[args[k].name])
    ensures ArgAccepts(args[i], values) <==> ArgShown(args[i], values)
  {
    var a := args[i];
    assert DeclarationOk(Names(args[..i]), a);
    if a.name in values {
      PropertyAgrees(a, values[a.name]);
    }
    if a.requiredWhen.Some? {
      var c := a.requiredWhen.value;
      var j := SourceOf(args, i);
      assert DeclarationOk(Names(args[..j]), args[j]);
      assert !NumberList(args[j], c);
      if !c.ArgPresent? {
        WithinMore(c.value, MANIFEST_BYTES, FRAME_BYTES);
      }
      ConditionAgrees(args[j], c, values);
    }
  }

  /** On a map with nothing left to fill in, the demands of dispatch and schema are the same. */
  lemma DemandsAgree(args: seq<Arg>, values: Fields)
    requires Declared(args) && Manifested(args) && Framed(values) && ConditionsPlain(args)
    ensures values.Keys <= Names(args) && AllAccept(args, values) <==> Accepts(InputSchema(args), Obj(values))
  {
    SchemaMeaning(args, values);
    if k :| 0 <= k < |args| && args[k].name in values && !ValueOk(args[k], values[args[k].name]) {
      assert DeclarationOk(Names(args[..k]), args[k]);
      PropertyAgrees(args[k], values[args[k].name]);
      assert !ArgShown(args[k], values) && !ArgAccepts(args[k], values);
    } else {
      forall i | 0 <= i < |args| ensures ArgAccepts(args[i], values) <==> ArgShown(args[i], values) {
        ArgAgrees(args, i, values);
      }
    }
  }

  /**
   Dispatch accepts a call exactly when the schema accepts the call with the defaults filled in,
   whatever the defaults are.
   */
  lemma DispatchIsSchemaOfCompleted(args: seq<Arg>, supplied: Fields)
    requires Declared(args) && Manifested(args) && Framed(supplied) && ConditionsPlain(args)
    ensures Resolve(args, supplied).Some? <==> Accepts(InputSchema(args), Obj(Completed(args, supplied)))
  {
    ResolveMeaning(args, supplied);
    CompletedMeaning(args, supplied);
    CompletedFramed(args, supplied);
    DemandsAgree(args, Completed(args, supplied));
    assert DefaultedNames(args) <= Names(args);
  }

  lemma {:induction false} CompletedFramed(args: seq<Arg>, supplied: Fields)
    requires Manifested(args) && Framed(supplied)
    ensures Framed(Completed(args, supplied))
  {
    if |args| > 0 {
      var a := args[|args| - 1];
      CompletedFramed(args[..|args| - 1], supplied);
      if a.default.Some? {
        WithinMore(a.default.value, MANIFEST_BYTES, FRAME_BYTES);
      }
    }
  }

  // ---- a call that is accepted --------------------------------------------------------------------

  function SomeScalar(a: Arg): Json {
    if a.choices != [] then a.choices[0]
    else
      match a.kind
      case BoolKind => Bool(false)
      case IntegerKind => Num(Lexeme(false, ['0'], [], NoExponent))
      case NumberKind => Num(Lexeme(false, ['0'], [], NoExponent))
      case _ => Str("")
  }

  function SomeValue(a: Arg): Json {
    if a.repeatable then Arr([]) else SomeScalar(a)
  }

  /** A call built around `seed`, adding only what each argument in turn demands. */
  function Filled(args: seq<Arg>, seed: Fields): Fields {
    if |args| == 0 then seed
    else
      var init := args[..|args| - 1];
      FillOne(args[|args| - 1], Completed(init, Filled(init, seed)), Filled(init, seed))
  }

  function FillOne(a: Arg, values: Fields, call: Fields): Fields {
    if a.name in call || !Active(a, values) || a.default.Some? then call
    else if a.required || a.requiredWhen.Some? then call[a.name := SomeValue(a)]
    else call
  }

  predicate Seeds(args: seq<Arg>, seed: Fields) {
    forall i :: 0 <= i < |args| && args[i].name in seed ==>
      args[i].requiredWhen.None? && ValueOk(args[i], seed[args[i].name])
  }

  lemma {:induction false} FilledKeys(args: seq<Arg>, seed: Fields)
    ensures seed.Keys <= Filled(args, seed).Keys <= seed.Keys + Names(args)
    ensures forall n :: n in seed ==> Filled(args, seed)[n] == seed[n]
  {
    if |args| > 0 {
      var init, a := args[..|args| - 1], args[|args| - 1];
      FilledKeys(init, seed);
      assert args == init + [a];
      assert Names(args) == Names(init) + {a.name};
      assert || Filled(args, seed) == Filled(init, seed)
             || Filled(args, seed) == Filled(init, seed)[a.name := SomeValue(a)];
      hide SomeValue, Names;
    }
  }

  lemma {:induction false} FilledLeavesDefaults(args: seq<Arg>, seed: Fields, i: nat)
    requires Declared(args) && i < |args| && args[i].default.Some? && args[i].name !in seed
    ensures args[i].name !in Filled(args, seed)
  {
    var init, a := args[..|args| - 1], args[|args| - 1];
    DeclaredInit(args);
    if i < |init| {
      assert init[i] == args[i] && init[i].name in Names(init);
      FilledLeavesDefaults(init, seed, i);
    } else {
      FilledKeys(init, seed);
    }
  }

  lemma {:induction false} FilledFramed(args: seq<Arg>, seed: Fields)
    requires Declared(args) && Manifested(args) && Framed(seed)
    ensures Framed(Filled(args, seed))
  {
    if |args| > 0 {
      DeclaredInit(args);
      FilledFramed(args[..|args| - 1], seed);
    }
  }

  lemma {:induction false} CompletedFrame(args: seq<Arg>, call: Fields, name: string, v: Json)
    requires name !in Names(args)
    ensures Completed(args, call[name := v]) == Completed(args, call)[name := v]
  {
    if |args| > 0 {
      CompletedFrame(args[..|args| - 1], call, name, v);
      assert args[|args| - 1].name in Names(args);
    }
  }

  lemma {:induction false} FilledAccepted(args: seq<Arg>, seed: Fields)
    requires Declared(args) && Manifested(args) && Seeds(args, seed)
    ensures AllAccept(args, Completed(args, Filled(args, seed)))
  {
    if |args| > 0 {
      var init, a := args[..|args| - 1], args[|args| - 1];
      DeclaredInit(args);
      assert Seeds(init, seed) by {
        forall i | 0 <= i < |init| ensures init[i] == args[i] {}
      }
      FilledAccepted(init, seed);
      var call := Filled(init, seed);
      assert a.name in call ==> a.requiredWhen.None? && ValueOk(a, call[a.name]) by {
        FilledKeys(init, seed);
      }
      FillOneAccepted(init, a, call);
      var filled := Completed(args, Filled(args, seed));
      assert filled == DefaultOne(a, Completed(init, FillOne(a, Completed(init, call), call)));
      LaterDefaultsUnseen(init, a, Completed(init, call), filled) by {
        assert a.name !in Names(init);
      }
      AllAcceptMore(args, filled);
      hide AllAccept, ArgAccepts, Declared, FillOne, DefaultOne;
    }
  }

  lemma FillOneAccepted(init: seq<Arg>, a: Arg, call: Fields)
    requires Declared(init) && DeclarationOk(Names(init), a)
    requires a.name in call ==> a.requiredWhen.None? && ValueOk(a, call[a.name])
    requires ValueOk(a, SomeValue(a))
    ensures var filled := DefaultOne(a, Completed(init, FillOne(a, Completed(init, call), call)));
      && filled - {a.name} == Completed(init, call) - {a.name}
      && ArgAccepts(a, filled)
  {
    hide SomeValue, ValueOk, Completed, Declared;
    var values := Completed(init, call);
    assert (a.name in values <==> a.name in call) && (a.name in call ==> values[a.name] == call[a.name]) by {
      CompletedMeaning(init, call);
      assert DefaultedNames(init) <= Names(init);
    }
    var full := FillOne(a, values, call);
    if full != call {
      CompletedFrame(init, call, a.name, SomeValue(a));
    }
    var filled := DefaultOne(a, Completed(init, full));
    assert Active(a, filled) == Active(a, values);
  }

  lemma FilledResolves(args: seq<Arg>, seed: Fields)
    requires Declared(args) && Manifested(args) && Seeds(args, seed) && seed.Keys <= Names(args) && Framed(seed)
    ensures Framed(Filled(args, seed))
    ensures Resolve(args, Filled(args, seed)) == Some(Completed(args, Filled(args, seed)))
  {
    FilledFramed(args, seed);
    FilledKeys(args, seed);
    FilledAccepted(args, seed);
    ResolveMeaning(args, Filled(args, seed));
  }

  // ---- the exact condition ------------------------------------------------------------------------

  ghost predicate Agrees(args: seq<Arg>, supplied: Fields) {
    Resolve(args, supplied).Some? <==> Accepts(InputSchema(args), Obj(supplied))
  }

  /** What the defaults of absent arguments add is invisible to the schema unless a condition holds of one. */
  lemma ShownWithoutDefaults(args: seq<Arg>, i: nat, supplied: Fields)
    requires Declared(args) && Manifested(args) && Framed(supplied) && i < |args|
    requires !DefaultHolds(args, args[i]) && !SpellingSensitive(args, args[i])
    ensures ArgShown(args[i], supplied) <==> ArgShown(args[i], Completed(args, supplied))
  {
    hide BlankName, ChoicesOk, CallScalarOk;
    var a, values := args[i], Completed(args, supplied);
    CompletedMeaning(args, supplied);
    assert DeclarationOk(Names(args[..i]), a);
    if a.name !in supplied && a.name in values {
      DefaultIsOwn(args, i, supplied);
      WithinMore(a.default.value, MANIFEST_BYTES, FRAME_BYTES);
      PropertyAgrees(a, a.default.value);
    } else if a.requiredWhen.Some? {
      var c := a.requiredWhen.value;
      var j := SourceOf(args, i);
      if c.arg !in supplied && c.arg in values {
        DefaultIsOwn(args, j, supplied);
        DefaultUnseen(args, i, j);
        assert ConditionSeen(c, values) == ConditionSeen(c, map[c.arg := args[j].default.value]);
      }
    }
  }

  lemma DefaultIsOwn(args: seq<Arg>, i: nat, supplied: Fields)
    requires Declared(args) && i < |args| && args[i].name !in supplied && args[i].name in Completed(args, supplied)
    ensures args[i].default.Some? && Completed(args, supplied)[args[i].name] == args[i].default.value
  {
    CompletedMeaning(args, supplied);
    var a :| a in args && a.default.Some? && a.name == args[i].name;
    var j :| 0 <= j < |args| && args[j] == a;
  }

  lemma DefaultUnseen(args: seq<Arg>, i: nat, j: nat)
    requires Declared(args) && Manifested(args) && i < |args| && j < |args|
    requires args[i].requiredWhen.Some? && args[j].name == args[i].requiredWhen.value.arg && args[j].default.Some?
    requires !DefaultHolds(args, args[i]) && !SpellingSensitive(args, args[i])
    ensures var c := args[i].requiredWhen.value; !ConditionSeen(c, map[c.arg := args[j].default.value])
  {
    var c := args[i].requiredWhen.value;
    assert DeclarationOk(Names(args[..j]), args[j]);
    assert !HeldByDefault(args[j], c) && !NumberList(args[j], c);
    WithinMore(args[j].default.value, MANIFEST_BYTES, FRAME_BYTES);
    if !c.ArgPresent? {
      WithinMore(c.value, MANIFEST_BYTES, FRAME_BYTES);
    }
    ConditionAgrees(args[j], c, map[c.arg := args[j].default.value]);
  }

  lemma HarmlessAgrees(args: seq<Arg>, supplied: Fields)
    requires Declared(args) && Manifested(args) && Framed(supplied)
    requires forall i :: 0 <= i < |args| ==> !DefaultHolds(args, args[i]) && !SpellingSensitive(args, args[i])
    ensures Agrees(args, supplied)
  {
    DispatchIsSchemaOfCompleted(args, supplied);
    SchemaMeaning(args, supplied);
    SchemaMeaning(args, Completed(args, supplied));
    CompletedMeaning(args, supplied);
    assert DefaultedNames(args) <= Names(args);
    forall i | 0 <= i < |args| ensures ArgShown(args[i], supplied) <==> ArgShown(args[i], Completed(args, supplied)) {
      ShownWithoutDefaults(args, i, supplied);
    }
  }

  /** A call leaving the defaulted source out: dispatch sees the condition hold, the schema does not. */
  lemma DefaultHarms(args: seq<Arg>, i: nat) returns (supplied: Fields)
    requires Declared(args) && Manifested(args) && i < |args| && DefaultHolds(args, args[i])
    ensures Framed(supplied) && !Agrees(args, supplied)
    ensures Resolve(args, supplied).Some?
  {
    supplied := Filled(args, map[]);
    FilledResolves(args, map[]);
    ResolveMeaning(args, supplied);
    var a, values := args[i], Completed(args, supplied);
    var c := a.requiredWhen.value;
    var j :| 0 <= j < |args| && HeldByDefault(args[j], c);
    FilledLeavesDefaults(args, map[], j);
    CompletedMeaning(args, supplied);
    assert ConditionHolds(c, values);
    assert ArgAccepts(a, values);
    assert a.name in supplied by {
      assert DeclarationOk(Names(args[..i]), a);
      if a.name !in supplied {
        DefaultIsOwn(args, i, supplied);
      }
    }
    assert !ArgShown(a, supplied);
    SchemaMeaning(args, supplied);
  }

  /** The same number with one more fraction digit. */
  function Respell(l: Lexeme): Lexeme {
    l.(fraction := l.fraction + ['0'])
  }

  function RespellFirst(v: Json): Json
    requires v.Arr? && v.items != [] && v.items[0].Num?
  {
    Arr([Num(Respell(v.items[0].l))] + v.items[1..])
  }

  lemma RespellSame(l: Lexeme)
    ensures Respell(l).Denotes() == l.Denotes() && Respell(l) != l
    ensures l.WellFormed() ==> Respell(l).WellFormed()
    ensures |Respell(l).AllDigits()| == |l.AllDigits()| + 1
  {
    var r := Respell(l);
    assert r.AllDigits() == l.AllDigits() + ['0'];
    assert r.fraction != l.fraction;
    ValueConcat(l.AllDigits(), ['0']);
    OneDigit('0');
    assert Value(r.AllDigits()) == 10 * Value(l.AllDigits()) by { assert Pow10(1) == 10; }
    ScaledStep(l.Signed(Value(l.AllDigits())), l.ExponentValue() - |l.fraction| - 1);
  }

  lemma RespellFirstSame(v: Json)
    requires v.Arr? && v.items != [] && v.items[0].Num? && Within(v, MANIFEST_BYTES)
    ensures RespellFirst(v) != v && SameInstance(v, RespellFirst(v)) && Within(RespellFirst(v), FRAME_BYTES)
  {
    var w := RespellFirst(v);
    RespellSame(v.items[0].l);
    assert w.items[0] != v.items[0];
    forall k | 0 <= k < |v.items| ensures SameInstance(v.items[k], w.items[k]) && Within(w.items[k], FRAME_BYTES) {
      if k > 0 {
        SameRefl(v.items[k]);
        WithinMore(v.items[k], MANIFEST_BYTES, FRAME_BYTES);
      }
    }
  }

  lemma NumberListSeeds(args: seq<Arg>, i: nat, j: nat) returns (v: Json)
    requires Declared(args) && Manifested(args) && i < |args| && j < |args| && args[i].requiredWhen.Some?
    requires NumberList(args[j], args[i].requiredWhen.value)
    ensures v == args[i].requiredWhen.value.value && v.Arr? && v.items != [] && v.items[0].Num?
    ensures Within(v, MANIFEST_BYTES) && Seeds(args, map[args[j].name := v])
    ensures Framed(map[args[j].name := v]) && args[j].name in Names(args)
  {
    v := args[i].requiredWhen.value.value;
    assert DeclarationOk(Names(args[..j]), args[j]);
    assert CallScalarOk(args[j], v.items[0]);
    WithinMore(v, MANIFEST_BYTES, FRAME_BYTES);
    assert forall k :: 0 <= k < |args| && args[k].name == args[j].name ==> k == j;
  }

  /** An accepted call that spells the list as the manifest does. */
  lemma ListAccepted(args: seq<Arg>, i: nat) returns (one: Fields)
    requires Declared(args) && Manifested(args) && i < |args| && SpellingSensitive(args, args[i])
    ensures Framed(one) && Resolve(args, one).Some?
    ensures var c := args[i].requiredWhen.value;
      && !c.ArgPresent? && c.arg in one && one[c.arg] == c.value
      && c.value.Arr? && c.value.items != [] && c.value.items[0].Num? && Within(c.value, MANIFEST_BYTES)
  {
    var c := args[i].requiredWhen.value;
    var j :| 0 <= j < |args| && NumberList(args[j], c);
    var v := NumberListSeeds(args, i, j);
    one := Filled(args, map[args[j].name := v]);
    FilledResolves(args, map[args[j].name := v]);
    FilledKeys(args, map[args[j].name := v]);
  }

  /** Two spellings of one call: the schema judges them alike and dispatch does not. */
  lemma SpellingHarms(args: seq<Arg>, i: nat) returns (supplied: Fields)
    requires Declared(args) && Manifested(args) && i < |args| && SpellingSensitive(args, args[i])
    ensures Framed(supplied) && !Agrees(args, supplied)
  {
    var c := args[i].requiredWhen.value;
    var one := ListAccepted(args, i);
    RespellFirstSame(c.value);
    var w := RespellFirst(c.value);
    SecondSpellingRefused(args, i, one, w);
    SpellingUnseen(InputSchema(args), one, c.arg, w);
    assert Framed(one[c.arg := w]);
    supplied := OneDisagrees(args, one, one[c.arg := w]);
  }

  lemma OneDisagrees(args: seq<Arg>, one: Fields, other: Fields) returns (supplied: Fields)
    requires Framed(one) && Framed(other) && Resolve(args, one).Some? && Resolve(args, other).None?
    requires Accepts(InputSchema(args), Obj(one)) == Accepts(InputSchema(args), Obj(other))
    ensures Framed(supplied) && !Agrees(args, supplied)
  {
    hide Framed, Resolve, Accepts, InputSchema;
    supplied := if Accepts(InputSchema(args), Obj(one)) then other else one;
  }

  lemma SpellingUnseen(schema: Schema, one: Fields, name: string, w: Json)
    requires name in one && SameInstance(one[name], w)
    ensures Accepts(schema, Obj(one)) == Accepts(schema, Obj(one[name := w]))
  {
    var other := one[name := w];
    forall k | k in one.Keys ensures SameInstance(one[k], other[k]) {
      SameRefl(one[k]);
    }
    assert one.Keys == other.Keys;
    AcceptsSame(schema, Obj(one), Obj(other));
  }

  lemma SecondSpellingRefused(args: seq<Arg>, i: nat, one: Fields, w: Json)
    requires Declared(args) && i < |args| && args[i].requiredWhen.Some? && !args[i].requiredWhen.value.ArgPresent?
    requires var c := args[i].requiredWhen.value; c.arg in one && one[c.arg] == c.value && c.value.Arr? && w != c.value
    requires Resolve(args, one).Some?
    ensures Resolve(args, one[args[i].requiredWhen.value.arg := w]).None?
  {
    var a, c := args[i], args[i].requiredWhen.value;
    var other := one[c.arg := w];
    var before, after := Completed(args, one), Completed(args, other);
    ResolveMeaning(args, one);
    ResolveMeaning(args, other);
    CompletedMeaning(args, one);
    CompletedMeaning(args, other);
    assert ArgAccepts(a, before);
    assert DeclarationOk(Names(args[..i]), a);
    assert a.name in before <==> a.name in after;
    assert Active(a, before) != Active(a, after);
  }

  /**
   The advertised schema and dispatch accept the same calls, whatever is sent, exactly when no
   condition holds of its source's default and none compares a list of numbers.
   */
  lemma SchemaAgreesIff(args: seq<Arg>)
    requires Declared(args) && Manifested(args)
    ensures (forall supplied | Framed(supplied) :: Agrees(args, supplied)) <==>
            forall i :: 0 <= i < |args| ==> !DefaultHolds(args, args[i]) && !SpellingSensitive(args, args[i])
  {
    if i :| 0 <= i < |args| && DefaultHolds(args, args[i]) {
      var supplied := DefaultHarms(args, i);
    } else if i :| 0 <= i < |args| && SpellingSensitive(args, args[i]) {
      var supplied := SpellingHarms(args, i);
    } else {
      forall supplied | Framed(supplied) ensures Agrees(args, supplied) {
        HarmlessAgrees(args, supplied);
      }
    }
  }

  /** With no default on any condition's source, only lists of numbers are left. */
  lemma NoDefaultedSourceAgrees(args: seq<Arg>, supplied: Fields)
    requires Declared(args) && Manifested(args) && Framed(supplied) && ConditionsPlain(args)
    requires forall i, j :: 0 <= j < i < |args| && args[i].requiredWhen.Some? && args[j].default.Some? ==>
               args[j].name != args[i].requiredWhen.value.arg
    ensures Agrees(args, supplied)
  {
    forall i | 0 <= i < |args| ensures !DefaultHolds(args, args[i]) {
      if args[i].requiredWhen.Some? {
        var c := args[i].requiredWhen.value;
        var k := SourceOf(args, i);
        assert forall j :: 0 <= j < |args| ==> !HeldByDefault(args[j], c);
      }
    }
    HarmlessAgrees(args, supplied);
  }
}
