/**
 The example bodies of the API document (scripts/openapi.ts, `exampleValue`) and
 the assertions of JSON Schema Validation 2020-12, section 6, they should meet.
 */
module ExampleSchema {
  import opened Calendar
  import opened ScheduleDates
  import opened Text
  import opened Wrappers

  datatype Json =
    | Null
    | Bool(b: bool)
    | Num(n: real)
    | Str(s: string)
    | Arr(items: seq<Json>)
    | Obj(fields: map<string, Json>)

  datatype Kind = NullKind | BooleanKind | IntegerKind | NumberKind | StringKind | ArrayKind | ObjectKind

  datatype Property = Property(name: string, schema: Schema)

  datatype Properties = Undeclared | Declared(list: seq<Property>)

  /** The keywords the generator reads, and the upper bounds it does not. */
  datatype Schema = Schema(
    constant: Option<Json>, enumeration: seq<Json>, oneOf: seq<Schema>, anyOf: seq<Schema>, kind: Option<Kind>,
    properties: Properties, required: set<string>, closed: bool,
    items: Option<Schema>, minItems: Option<nat>, maxItems: Option<nat>,
    minimum: Option<real>, exclusiveMinimum: Option<real>, maximum: Option<real>, exclusiveMaximum: Option<real>,
    minLength: Option<nat>, maxLength: Option<nat>, format: Option<string>)

  const ANYTHING := Schema(None, [], [], [], None, Undeclared, {}, false, None, None, None, None, None, None, None, None, None, None)

  // ---- The generator

  function Ceiling(x: real): int {
    -(-x).Floor
  }

  function Lowest(s: Schema): real {
    if s.minimum.Some? then s.minimum.value
    else if s.exclusiveMinimum.Some? then s.exclusiveMinimum.value + 1.0
    else 1.0
  }

  /** The fixed text of a format the generator knows. */
  function FormatText(format: Option<string>): Option<string> {
    if format == Some("uuid") then Some("00000000-0000-4000-8000-000000000001")
    else if format == Some("email") then Some("security@example.test")
    else if format == Some("uri") || format == Some("url") then Some("https://example.test/resource")
    else if format == Some("date") then Some("2026-09-27")
    else if format == Some("date-time") then Some("2026-09-27T12:00:00.000Z")
    else None
  }

  function ExampleText(s: Schema): string {
    if FormatText(s.format).Some? then FormatText(s.format).value
    else seq(if s.minLength.Some? && s.minLength.value > 1 then s.minLength.value else 1, _ => 'x')
  }

  function Example(s: Schema): Json
    decreases s
  {
    if s.constant.Some? then s.constant.value
    else if s.enumeration != [] then s.enumeration[0]
    else if s.oneOf != [] then Example(s.oneOf[0])
    else if s.anyOf != [] then Example(s.anyOf[0])
    else if s.kind == Some(ObjectKind) || s.properties.Declared? then
      (if s.properties.Declared? then Obj(ExampleFields(s.properties.list, s.required)) else Obj(map[]))
    else if s.kind.None? then Obj(map[])
    else
      match s.kind.value
      case ArrayKind =>
        var item := if s.items.Some? then Example(s.items.value) else Obj(map[]);
        Arr(seq(if s.minItems.Some? then s.minItems.value else 0, _ => item))
      case IntegerKind => Num(Ceiling(Lowest(s)) as real)
      case NumberKind => Num(Lowest(s))
      case BooleanKind => Bool(false)
      case StringKind => Str(ExampleText(s))
      case NullKind => Obj(map[])
      case ObjectKind => Obj(map[])
  }

  function ExampleFields(properties: seq<Property>, required: set<string>): map<string, Json>
    decreases properties
  {
    if properties == [] then map[]
    else
      var rest := ExampleFields(properties[1..], required);
      if properties[0].name in required then rest[properties[0].name := Example(properties[0].schema)] else rest
  }

  // ---- What the examples are

  /** No keyword says more of the value than its type does. */
  predicate OnlyKind(s: Schema, kind: Kind) {
    s.constant.None? && s.enumeration == [] && s.oneOf == [] && s.anyOf == [] && s.properties.Undeclared? && s.kind == Some(kind)
  }

  /** Constants, enumerations and unions come first, in this order, and give their only or first value. */
  lemma FirstChoices(s: Schema)
    ensures s.constant.Some? ==> Example(s) == s.constant.value
    ensures s.constant.None? && |s.enumeration| > 0 ==> Example(s) == s.enumeration[0]
    ensures s.constant.None? && s.enumeration == [] && |s.oneOf| > 0 ==> Example(s) == Example(s.oneOf[0])
    ensures s.constant.None? && s.enumeration == [] && s.oneOf == [] && |s.anyOf| > 0 ==> Example(s) == Example(s.anyOf[0])
    ensures s.constant.None? && s.enumeration == [] && s.oneOf == [] && s.anyOf == [] && s.kind.None? && s.properties.Undeclared?
            ==> Example(s) == Obj(map[])
  {
  }

  /** The number of a schema: its minimum, else one above its exclusive minimum, else one; for integers, the least whole number from there. */
  lemma NumberExample(s: Schema, low: real)
    requires low == (match s.minimum
                     case Some(m) => m
                     case None => match s.exclusiveMinimum case Some(e) => e + 1.0 case None => 1.0)
    ensures OnlyKind(s, NumberKind) ==> Example(s) == Num(low)
    ensures OnlyKind(s, IntegerKind) ==>
              Example(s).Num? && low <= Example(s).n < low + 1.0 && Example(s).n.Floor as real == Example(s).n
  {
  }

  /** A text without a format the generator knows is as many times the letter x as its least length asks, and never empty. */
  lemma TextExample(s: Schema, i: nat)
    requires OnlyKind(s, StringKind) && FormatText(s.format).None?
    ensures Example(s).Str? && |Example(s).s| >= 1
    ensures |Example(s).s| == 1 || s.minLength == Some(|Example(s).s|)
    ensures s.minLength.Some? ==> |Example(s).s| >= s.minLength.value
    ensures i < |Example(s).s| ==> Example(s).s[i] == 'x'
  {
  }

  /** A Boolean is false; null, which the generator does not know, becomes an object. */
  lemma SimpleExamples(s: Schema)
    ensures OnlyKind(s, BooleanKind) ==> Example(s) == Bool(false)
    ensures OnlyKind(s, NullKind) ==> Example(s) == Obj(map[])
  {
  }

  /** An array has its least number of items, each the example of the items' schema. */
  lemma ArrayExample(s: Schema, i: nat)
    requires OnlyKind(s, ArrayKind)
    ensures Example(s).Arr? && |Example(s).items| == (if s.minItems.Some? then s.minItems.value else 0)
    ensures i < |Example(s).items| ==>
              Example(s).items[i] == if s.items.Some? then Example(s.items.value) else Obj(map[])
  {
  }

  /** An object has exactly the properties that are both declared and required, each with its schema's example. */
  lemma ObjectExample(s: Schema, i: nat, name: string)
    requires s.constant.None? && s.enumeration == [] && s.oneOf == [] && s.anyOf == []
    requires s.properties.Declared? && i < |s.properties.list|
    requires forall i, j :: 0 <= i < j < |s.properties.list| ==> s.properties.list[i].name != s.properties.list[j].name
    ensures Example(s).Obj?
    ensures name in Example(s).fields <==> name in s.required && Declares(s, name)
    ensures s.properties.list[i].name in s.required ==>
              s.properties.list[i].name in Example(s).fields
              && Example(s).fields[s.properties.list[i].name] == Example(s.properties.list[i].schema)
  {
    hide Declares;
    FieldsOf(s.properties.list, s.required, i);
    if Declares(s, name) {
      var k := DeclaredAt(s, name);
      FieldsOf(s.properties.list, s.required, k);
    } else {
      NotDeclared(s, name);
    }
  }

  lemma DeclaredAt(s: Schema, name: string) returns (k: nat)
    requires Declares(s, name)
    ensures k < |s.properties.list| && s.properties.list[k].name == name
  {
    k :| 0 <= k < |s.properties.list| && s.properties.list[k].name == name;
  }

  lemma NotDeclared(s: Schema, name: string)
    requires s.properties.Declared? && !Declares(s, name)
    ensures forall k :: 0 <= k < |s.properties.list| ==> s.properties.list[k].name != name
  {
  }

  ghost predicate IsHex(c: char) {
    '0' <= c <= '9' || 'a' <= c <= 'f'
  }

  /** The text form of RFC 9562, section 4, of a UUID of version 4 and its variant. */
  ghost predicate IsUuid(t: string) {
    && |t| == 36 && t[14] == '4' && t[19] in "89ab"
    && forall i :: 0 <= i < 36 ==> if i == 8 || i == 13 || i == 18 || i == 23 then t[i] == '-' else IsHex(t[i])
  }

  /** One at sign, with text on both sides. */
  ghost predicate IsEmail(t: string) {
    exists local: string, domain: string :: IsAddress(t, local, domain)
  }

  ghost predicate IsAddress(t: string, local: string, domain: string) {
    t == local + "@" + domain && local != "" && domain != "" && '@' !in local && '@' !in domain
  }

  /** The formats the generator knows, each with a text that has the format. */
  lemma FormatsExact(format: Option<string>)
    ensures FormatText(format).Some?
       <==> format in {Some("uuid"), Some("email"), Some("uri"), Some("url"), Some("date"), Some("date-time")}
    ensures FormatText(Some("uuid")) == Some("00000000-0000-4000-8000-000000000001") && IsUuid(FormatText(Some("uuid")).value)
    ensures FormatText(Some("email")) == Some("security@example.test") && IsEmail(FormatText(Some("email")).value)
    ensures FormatText(Some("uri")) == FormatText(Some("url")) == Some("https://example.test/resource")
    ensures FormatText(Some("date")) == Some(LocalDateKey(DayNumber(Civil(2026, 9, 27))))
    ensures FormatText(Some("date-time")) == Some(FormatText(Some("date")).value + "T12:00:00.000Z")
  {
    hide IsUuid, IsEmail, LocalDateKey, DayNumber;
    UuidText();
    EmailText();
    DateText();
    assert "2026-09-27" + "T12:00:00.000Z" == "2026-09-27T12:00:00.000Z";
  }

  lemma UuidText()
    ensures IsUuid("00000000-0000-4000-8000-000000000001")
  {
  }

  lemma EmailText()
    ensures IsEmail("security@example.test")
  {
    assert IsAddress("security@example.test", "security", "example.test");
  }

  lemma DateText()
    ensures LocalDateKey(DayNumber(Civil(2026, 9, 27))) == "2026-09-27"
  {
    hide CivilOf, DayNumber;
    CivilOfDayNumber(Civil(2026, 9, 27));
    assert NatText(2026) == NatText(202) + "6" && NatText(202) == NatText(20) + "2" && NatText(20) == "20";
    assert NatText(27) == "27";
  }

  /** A known format takes precedence over the lengths. */
  lemma FormatExample(s: Schema)
    requires OnlyKind(s, StringKind) && FormatText(s.format).Some?
    ensures Example(s) == Str(FormatText(s.format).value)
  {
  }

  // ---- Validity

  predicate OfKind(kind: Kind, v: Json) {
    match kind
    case NullKind => v.Null?
    case BooleanKind => v.Bool?
    case IntegerKind => v.Num? && v.n.Floor as real == v.n
    case NumberKind => v.Num?
    case StringKind => v.Str?
    case ArrayKind => v.Arr?
    case ObjectKind => v.Obj?
  }

  predicate BoundsMet(s: Schema, v: Json) {
    match v
    case Num(n) =>
      && (s.minimum.Some? ==> n >= s.minimum.value) && (s.exclusiveMinimum.Some? ==> n > s.exclusiveMinimum.value)
      && (s.maximum.Some? ==> n <= s.maximum.value) && (s.exclusiveMaximum.Some? ==> n < s.exclusiveMaximum.value)
    case Str(t) =>
      (s.minLength.Some? ==> |t| >= s.minLength.value) && (s.maxLength.Some? ==> |t| <= s.maxLength.value)
    case Arr(items) =>
      (s.minItems.Some? ==> |items| >= s.minItems.value) && (s.maxItems.Some? ==> |items| <= s.maxItems.value)
    case _ => true
  }

  ghost predicate Valid(s: Schema, v: Json)
    decreases s, 2
  {
    && (s.constant.Some? ==> v == s.constant.value)
    && (s.enumeration != [] ==> v in s.enumeration)
    && (s.oneOf != [] ==> OneVariant(s, v))
    && (s.anyOf != [] ==> SomeVariant(s, 0, v))
    && (s.kind.Some? ==> OfKind(s.kind.value, v))
    && BoundsMet(s, v)
    && (v.Arr? && s.items.Some? ==> forall i :: 0 <= i < |v.items| ==> Valid(s.items.value, v.items[i]))
    && (v.Obj? ==> FieldsMet(s, v.fields))
  }

  /** The value is valid for this variant of `oneOf` and for no other. */
  ghost predicate OnlyVariant(s: Schema, i: int, v: Json)
    decreases s, 0
  {
    && 0 <= i < |s.oneOf| && Valid(s.oneOf[i], v)
    && forall j :: 0 <= j < |s.oneOf| && j != i ==> !Valid(s.oneOf[j], v)
  }

  ghost predicate OneVariant(s: Schema, v: Json)
    decreases s, 1
  {
    exists i :: OnlyVariant(s, i, v)
  }

  /** It is valid for a variant of `anyOf` from the given one on. */
  ghost predicate SomeVariant(s: Schema, from: nat, v: Json)
    decreases s, 0
  {
    exists i :: from <= i < |s.anyOf| && Valid(s.anyOf[i], v)
  }

  ghost predicate FieldsMet(s: Schema, fields: map<string, Json>)
    decreases s, 0
  {
    && s.required <= fields.Keys
    && (s.properties.Declared? ==>
          (forall i :: 0 <= i < |s.properties.list| && s.properties.list[i].name in fields
             ==> Valid(s.properties.list[i].schema, fields[s.properties.list[i].name])))
    && (s.closed ==> forall name :: name in fields ==> Declares(s, name))
  }

  predicate Declares(s: Schema, name: string) {
    s.properties.Declared? && exists i :: 0 <= i < |s.properties.list| && s.properties.list[i].name == name
  }

  // ---- When the example is valid, told from the schema

  /** The names of a schema's properties differ, as the keys of an object do, here and below. */
  predicate DistinctNames(s: Schema)
    decreases s
  {
    && (s.properties.Declared? ==>
          && (forall i, j :: 0 <= i < j < |s.properties.list| ==> s.properties.list[i].name != s.properties.list[j].name)
          && (forall i :: 0 <= i < |s.properties.list| ==> DistinctNames(s.properties.list[i].schema)))
    && (s.items.Some? ==> DistinctNames(s.items.value))
    && (forall i :: 0 <= i < |s.oneOf| ==> DistinctNames(s.oneOf[i]))
    && (forall i :: 0 <= i < |s.anyOf| ==> DistinctNames(s.anyOf[i]))
  }

  function Guess(s: Schema): real {
    if s.kind == Some(IntegerKind) then Ceiling(Lowest(s)) as real else Lowest(s)
  }

  /** The generator goes up to one lower bound; the guess may miss another one and the upper ones. */
  predicate NumberFits(s: Schema) {
    && (s.minimum.Some? && s.exclusiveMinimum.Some? ==> Guess(s) > s.exclusiveMinimum.value)
    && (s.maximum.Some? ==> Guess(s) <= s.maximum.value)
    && (s.exclusiveMaximum.Some? ==> Guess(s) < s.exclusiveMaximum.value)
  }

  predicate TextFits(s: Schema) {
    if FormatText(s.format).Some? then BoundsMet(s, Str(FormatText(s.format).value))
    else s.maxLength.Some? ==> s.maxLength.value >= 1 && (s.minLength.Some? ==> s.minLength.value <= s.maxLength.value)
  }

  function MinItems(s: Schema): nat {
    if s.minItems.Some? then s.minItems.value else 0
  }

  /** The keywords besides `const`, `enum` and the unions, at a value the generator takes over from elsewhere. */
  ghost predicate KeywordsMet(s: Schema, v: Json) {
    && (s.kind.Some? ==> OfKind(s.kind.value, v))
    && BoundsMet(s, v)
    && (v.Arr? && s.items.Some? ==> forall i :: 0 <= i < |v.items| ==> Valid(s.items.value, v.items[i]))
    && (v.Obj? ==> FieldsMet(s, v.fields))
  }

  ghost predicate UnionsMet(s: Schema, v: Json) {
    && (s.oneOf != [] ==> OneVariant(s, v))
    && (s.anyOf != [] ==> SomeVariant(s, 0, v))
  }

  ghost predicate Satisfiable(s: Schema) {
    exists v :: Valid(s, v)
  }

  /** How many variants of `oneOf` after the first accept the value: none if the first does, else exactly one. */
  ghost predicate LaterVariantsFit(s: Schema, first: bool, v: Json) {
    if first then forall j :: 1 <= j < |s.oneOf| ==> !Valid(s.oneOf[j], v)
    else exists i :: 1 <= i && OnlyVariant(s, i, v)
  }

  /**
   What a schema must be for its example to be valid.  Without unions it speaks
   of the schema alone; a union also depends on what its other variants, which
   the generator does not look at, make of the first variant's example.
   */
  ghost predicate Fits(s: Schema)
    decreases s
  {
    if s.constant.Some? then Satisfiable(s)
    else if s.enumeration != [] then KeywordsMet(s, s.enumeration[0]) && UnionsMet(s, s.enumeration[0])
    else if s.oneOf != [] then
      var v := Example(s.oneOf[0]);
      LaterVariantsFit(s, Fits(s.oneOf[0]), v) && (s.anyOf != [] ==> SomeVariant(s, 0, v)) && KeywordsMet(s, v)
    else if s.anyOf != [] then
      var v := Example(s.anyOf[0]);
      (Fits(s.anyOf[0]) || SomeVariant(s, 1, v)) && KeywordsMet(s, v)
    else if s.kind == Some(ObjectKind) || s.properties.Declared? then
      && (s.kind.Some? ==> s.kind.value == ObjectKind)
      && (forall name :: name in s.required ==> Declares(s, name))
      && (s.properties.Declared? ==>
            (forall i :: 0 <= i < |s.properties.list| && s.properties.list[i].name in s.required ==> Fits(s.properties.list[i].schema)))
    else if s.kind.None? then s.required == {}
    else
      match s.kind.value
      case ArrayKind =>
        && (s.maxItems.Some? ==> MinItems(s) <= s.maxItems.value)
        && (MinItems(s) > 0 && s.items.Some? ==> Fits(s.items.value))
      case IntegerKind => NumberFits(s)
      case NumberKind => NumberFits(s)
      case BooleanKind => true
      case StringKind => TextFits(s)
      case NullKind => false
      case ObjectKind => true
  }

  // ---- The example is valid exactly when the schema fits

  lemma CeilingLeast(x: real, n: int)
    ensures Ceiling(x) as real >= x && (n as real >= x ==> n >= Ceiling(x))
  {
  }

  lemma WholeNumber(n: int)
    ensures OfKind(IntegerKind, Num(n as real))
  {
  }

  lemma NumberExactly(s: Schema)
    requires s.kind == Some(IntegerKind) || s.kind == Some(NumberKind)
    ensures OfKind(s.kind.value, Num(Guess(s)))
    ensures BoundsMet(s, Num(Guess(s))) <==> NumberFits(s)
  {
    hide Ceiling;
    CeilingLeast(Lowest(s), 0);
    WholeNumber(Ceiling(Lowest(s)));
  }

  lemma TextExactly(s: Schema)
    ensures BoundsMet(s, Str(ExampleText(s))) <==> TextFits(s)
  {
  }

  lemma {:induction false} FieldsOf(properties: seq<Property>, required: set<string>, i: nat)
    requires forall i, j :: 0 <= i < j < |properties| ==> properties[i].name != properties[j].name
    ensures forall name :: name in ExampleFields(properties, required) ==>
              name in required && exists k :: 0 <= k < |properties| && properties[k].name == name
    ensures i < |properties| && properties[i].name in required ==>
              properties[i].name in ExampleFields(properties, required)
              && ExampleFields(properties, required)[properties[i].name] == Example(properties[i].schema)
  {
    if properties != [] {
      var rest := properties[1..];
      FieldsOf(rest, required, if i > 0 then i - 1 else 0);
      forall name | name in ExampleFields(properties, required)
        ensures name in required && exists k :: 0 <= k < |properties| && properties[k].name == name
      {
        if name in ExampleFields(rest, required) {
          var k :| 0 <= k < |rest| && rest[k].name == name;
          assert properties[k + 1].name == name;
        } else {
          assert properties[0].name == name;
        }
      }
      if 0 < i < |properties| {
        assert properties[i] == rest[i - 1];
      }
    }
  }

  /** For every schema, the example is valid exactly when the schema fits. */
  lemma {:induction false} ExampleExactly(s: Schema)
    requires DistinctNames(s)
    ensures Valid(s, Example(s)) <==> Fits(s)
    decreases s, 1
  {
    if s.constant.Some? {
      ConstantExactly(s);
    } else if s.enumeration != [] {
      hide KeywordsMet, UnionsMet;
      ValidSplits(s, Example(s));
    } else if s.oneOf != [] || s.anyOf != [] {
      UnionExactly(s);
    } else if s.kind == Some(ObjectKind) || s.properties.Declared? {
      ObjectExactly(s);
    } else if s.kind == Some(ArrayKind) {
      ArrayExactly(s);
    } else if s.kind == Some(IntegerKind) || s.kind == Some(NumberKind) {
      NumberExactly(s);
    } else if s.kind == Some(StringKind) {
      TextExactly(s);
    }
  }

  lemma ValidSplits(s: Schema, v: Json)
    ensures Valid(s, v)
       <==> && (s.constant.Some? ==> v == s.constant.value)
            && (s.enumeration != [] ==> v in s.enumeration)
            && UnionsMet(s, v) && KeywordsMet(s, v)
  {
  }

  lemma ConstantExactly(s: Schema)
    requires s.constant.Some?
    ensures Valid(s, Example(s)) <==> Satisfiable(s)
  {
    if v :| Valid(s, v) {
      assert v == Example(s);
    }
  }

  lemma {:induction false} UnionExactly(s: Schema)
    requires DistinctNames(s) && s.constant.None? && s.enumeration == [] && (s.oneOf != [] || s.anyOf != [])
    ensures Valid(s, Example(s)) <==> Fits(s)
    decreases s, 0
  {
    hide KeywordsMet, Valid, OneVariant, SomeVariant, LaterVariantsFit;
    var v := Example(s);
    ValidSplits(s, v);
    if s.oneOf != [] {
      ExampleExactly(s.oneOf[0]);
      OneOfExactly(s, v);
      assert v == Example(s.oneOf[0]);
      assert Fits(s) <==> LaterVariantsFit(s, Fits(s.oneOf[0]), v) && (s.anyOf != [] ==> SomeVariant(s, 0, v)) && KeywordsMet(s, v);
    } else {
      ExampleExactly(s.anyOf[0]);
      AnyOfExactly(s, v);
    }
  }

  lemma OneOfExactly(s: Schema, v: Json)
    requires s.oneOf != []
    ensures OneVariant(s, v) <==> LaterVariantsFit(s, Valid(s.oneOf[0], v), v)
  {
    hide Valid, OnlyVariant;
    OnlyVariantIs(s, 0, v);
    if i :| OnlyVariant(s, i, v) {
      OnlyVariantIs(s, i, v);
      assert i == 0 <==> Valid(s.oneOf[0], v);
    }
    if !Valid(s.oneOf[0], v) && LaterVariantsFit(s, false, v) {
      var i :| 1 <= i && OnlyVariant(s, i, v);
      assert OnlyVariant(s, i, v);
    }
  }

  lemma OnlyVariantIs(s: Schema, i: int, v: Json)
    ensures OnlyVariant(s, i, v)
       <==> && 0 <= i < |s.oneOf| && Valid(s.oneOf[i], v)
            && forall j :: 0 <= j < |s.oneOf| && j != i ==> !Valid(s.oneOf[j], v)
  {
  }

  lemma AnyOfExactly(s: Schema, v: Json)
    requires s.anyOf != []
    ensures SomeVariant(s, 0, v) <==> Valid(s.anyOf[0], v) || SomeVariant(s, 1, v)
  {
    hide Valid;
  }

  lemma {:induction false} ArrayExactly(s: Schema)
    requires DistinctNames(s) && s.constant.None? && s.enumeration == [] && s.oneOf == [] && s.anyOf == []
    requires s.kind == Some(ArrayKind) && s.properties.Undeclared?
    ensures Valid(s, Example(s)) <==> Fits(s)
    decreases s, 0
  {
    var v := Example(s);
    assert |v.items| == MinItems(s);
    if s.items.Some? {
      ExampleExactly(s.items.value);
      if MinItems(s) > 0 {
        assert v.items[0] == Example(s.items.value);
      }
    }
  }

  lemma {:induction false} ObjectExactly(s: Schema)
    requires DistinctNames(s) && s.constant.None? && s.enumeration == [] && s.oneOf == [] && s.anyOf == []
    requires s.kind == Some(ObjectKind) || s.properties.Declared?
    ensures Valid(s, Example(s)) <==> Fits(s)
    decreases s, 0
  {
    if s.properties.Declared? {
      hide Valid, FieldsMet, Declares;
      var list := s.properties.list;
      ObjectValid(s, ExampleFields(list, s.required));
      FieldsExactly(s);
      forall i | 0 <= i < |list|
        ensures Valid(list[i].schema, Example(list[i].schema)) <==> Fits(list[i].schema)
      {
        ExampleExactly(list[i].schema);
      }
    }
  }

  lemma ObjectValid(s: Schema, fields: map<string, Json>)
    requires s.constant.None? && s.enumeration == [] && s.oneOf == [] && s.anyOf == []
    ensures Valid(s, Obj(fields)) <==> (s.kind.Some? ==> s.kind.value == ObjectKind) && FieldsMet(s, fields)
  {
    hide FieldsMet;
  }

  lemma FieldsExactly(s: Schema)
    requires DistinctNames(s) && s.properties.Declared?
    ensures FieldsMet(s, ExampleFields(s.properties.list, s.required))
       <==> && (forall name :: name in s.required ==> Declares(s, name))
            && (forall i :: 0 <= i < |s.properties.list| && s.properties.list[i].name in s.required
                  ==> Valid(s.properties.list[i].schema, Example(s.properties.list[i].schema)))
  {
    hide Valid, Example, DistinctNames;
    var list := s.properties.list;
    var fields := ExampleFields(list, s.required);
    NamesDiffer(s);
    forall i | 0 <= i < |list|
      ensures list[i].name in fields <==> list[i].name in s.required
      ensures list[i].name in s.required ==> fields[list[i].name] == Example(list[i].schema)
    {
      FieldsOf(list, s.required, i);
    }
    FieldsOf(list, s.required, 0);
    hide ExampleFields;
    RequiredExactly(s, fields);
  }

  lemma NamesDiffer(s: Schema)
    requires DistinctNames(s) && s.properties.Declared?
    ensures forall i, j :: 0 <= i < j < |s.properties.list| ==> s.properties.list[i].name != s.properties.list[j].name
  {
  }

  /** The example holds the required properties that are declared. */
  lemma RequiredExactly(s: Schema, fields: map<string, Json>)
    requires s.properties.Declared?
    requires forall name :: name in fields ==> name in s.required && Declares(s, name)
    requires forall i :: 0 <= i < |s.properties.list| ==>
               (s.properties.list[i].name in fields <==> s.properties.list[i].name in s.required)
    ensures s.required <= fields.Keys <==> forall name :: name in s.required ==> Declares(s, name)
  {
    if forall name :: name in s.required ==> Declares(s, name) {
      forall name | name in s.required
        ensures name in fields
      {
        assert Declares(s, name);
      }
    }
  }

  // ---- What that means for unions and numbers

  ghost predicate Disjoint(variants: seq<Schema>) {
    forall v, i, j :: 0 <= i < j < |variants| ==> !(Valid(variants[i], v) && Valid(variants[j], v))
  }

  /** A union that stands alone, of disjoint variants for `oneOf`, fits when its first variant does. */
  lemma UnionFits(s: Schema)
    requires DistinctNames(s)
    requires || (s == ANYTHING.(oneOf := s.oneOf) && s.oneOf != [] && Disjoint(s.oneOf) && Fits(s.oneOf[0]))
             || (s == ANYTHING.(anyOf := s.anyOf) && s.anyOf != [] && Fits(s.anyOf[0]))
    ensures Fits(s) && Valid(s, Example(s))
  {
    hide Valid;
    if s.oneOf != [] {
      ExampleExactly(s.oneOf[0]);
    }
    NothingAsked(s, Example(s));
    ExampleExactly(s);
  }

  lemma NothingAsked(s: Schema, v: Json)
    requires s == ANYTHING.(oneOf := s.oneOf) || s == ANYTHING.(anyOf := s.anyOf)
    ensures KeywordsMet(s, v)
  {
  }

  /** The generator hits the lower bound: a minimum alone, or for integers a whole exclusive minimum alone. */
  predicate BoundHit(s: Schema) {
    if s.minimum.Some? then s.exclusiveMinimum.None?
    else s.exclusiveMinimum.Some? && s.kind == Some(IntegerKind)
         && s.exclusiveMinimum.value.Floor as real == s.exclusiveMinimum.value
  }

  /** No value of the schema lies below the generator's number. */
  lemma LowestValue(s: Schema, v: Json)
    requires s.kind == Some(IntegerKind) || s.kind == Some(NumberKind)
    requires BoundHit(s) && OfKind(s.kind.value, v) && BoundsMet(s, v)
    ensures v.Num? && Guess(s) <= v.n
  {
    hide Ceiling;
    if s.kind == Some(IntegerKind) {
      var n := v.n.Floor;
      CeilingLeast(Lowest(s), n);
      if s.minimum.None? {
        AboveWhole(s.exclusiveMinimum.value.Floor, n);
      }
    }
  }

  lemma AboveWhole(e: int, n: int)
    requires n as real > e as real
    ensures n as real >= e as real + 1.0
  {
    assert n >= e + 1;
  }

  /** A plain number schema whose lower bound is hit has a valid example exactly when it has any valid value. */
  lemma NumberSatisfiable(s: Schema)
    requires s.kind == Some(IntegerKind) || s.kind == Some(NumberKind)
    requires s.constant.None? && s.enumeration == [] && s.oneOf == [] && s.anyOf == [] && s.properties.Undeclared?
    requires BoundHit(s)
    ensures Valid(s, Example(s)) <==> Satisfiable(s)
  {
    NumberExactly(s);
    if v :| Valid(s, v) {
      LowestValue(s, v);
    }
  }

  // ---- Examples that are refused

  ghost predicate Refused(s: Schema) {
    Satisfiable(s) && !Valid(s, Example(s))
  }

  /** Satisfiable schemas that do not fit: null, a narrow open range, the empty text. */
  lemma ExamplesRefused()
    ensures Refused(ANYTHING.(kind := Some(NullKind)))
    ensures Refused(ANYTHING.(kind := Some(NumberKind), exclusiveMinimum := Some(0.0), maximum := Some(0.5)))
    ensures Refused(ANYTHING.(kind := Some(StringKind), maxLength := Some(0)))
  {
    hide Refused;
    RefusedFor(ANYTHING.(kind := Some(NullKind)), Null);
    RefusedFor(ANYTHING.(kind := Some(NumberKind), exclusiveMinimum := Some(0.0), maximum := Some(0.5)), Num(0.5));
    RefusedFor(ANYTHING.(kind := Some(StringKind), maxLength := Some(0)), Str(""));
  }

  lemma RefusedFor(s: Schema, v: Json)
    requires DistinctNames(s) && Valid(s, v) && !Fits(s)
    ensures Refused(s)
  {
    ExampleExactly(s);
  }

  /** A union whose first example is valid by luck: it is none of the first variant, but one of the second. */
  lemma LuckyUnion()
    ensures var first := ANYTHING.(kind := Some(NullKind));
            var s := ANYTHING.(oneOf := [first, ANYTHING.(kind := Some(ObjectKind))]);
            !Valid(first, Example(first)) && Valid(s, Example(s))
  {
    var first, second := ANYTHING.(kind := Some(NullKind)), ANYTHING.(kind := Some(ObjectKind));
    var s := ANYTHING.(oneOf := [first, second]);
    assert Valid(second, Obj(map[])) && !Valid(first, Obj(map[]));
    hide Valid;
    assert OnlyVariant(s, 1, Obj(map[]));
    NothingAsked(s, Obj(map[]));
    ValidSplits(s, Example(s));
  }
}
