/** The JSON schema validator (src/chrome/common/json_schema_validator.cc) over typed schemas.

    The types that `$ref` names are declared beforehand. Recursive types are allowed as long as
    a reference does not lead back to itself without going into the instance; on such a cycle
    the validator would not terminate. */
module SchemaValidator {
  import opened NumberConversions
  import opened Values
  import opened Wrappers

  /** A property or tuple item; `optional` is read by the enclosing schema. */
  datatype Prop = Prop(key: string, schema: Schema, optional: bool)

  datatype Schema =
    | Ref(name: string)
    | Choices(options: seq<Schema>)
    | Enum(values: seq<Value>)
    | Any
    | Object(properties: seq<Prop>, additional: Option<Schema>)
    | ArrayOf(item: Schema, minItems: Option<nat>, maxItems: Option<nat>)
    | Tuple(items: seq<Prop>, additional: Option<Schema>)
    | Text(minLength: Option<nat>, maxLength: Option<nat>)
    | Number(whole: bool, minimum: Option<real>, maximum: Option<real>)
    | Boolean
    | Nothing

  datatype TypeName = NullType | BooleanType | IntegerType | NumberType | StringType | ObjectType | ArrayType

  datatype Kind =
    | UnknownTypeReference(name: string) | InvalidChoice | InvalidEnum | PropertyRequired | UnexpectedProperty
    | ArrayMinItems(n: nat) | ArrayMaxItems(n: nat) | ItemRequired | StringMinLength(n: nat) | StringMaxLength(n: nat)
    | NumberMinimum(d: real) | NumberMaximum(d: real) | InvalidType(expected: TypeName, actual: TypeName)

  datatype Error = Error(path: string, kind: Kind)

  /** The declared types, a rank that shows their references to be acyclic, and whether
      additional items are allowed where a schema does not say. */
  datatype Types = Types(defs: map<string, Schema>, rank: map<string, nat>, allowAdditional: bool)

  /** The references met before the validator goes into the instance. */
  function Rank(t: Types, s: Schema): nat
    decreases s, 1
  {
    match s
    case Ref(name) => if name in t.rank then t.rank[name] + 1 else 0
    case Choices(options) => ChoicesRank(t, options)
    case _ => 0
  }

  function ChoicesRank(t: Types, options: seq<Schema>): nat
    decreases options, 0
  {
    if options == [] then 0 else Max(Rank(t, options[0]), ChoicesRank(t, options[1..]))
  }

  lemma {:induction false} ChoiceRank(t: Types, options: seq<Schema>, i: nat)
    requires i < |options|
    ensures Rank(t, options[i]) <= ChoicesRank(t, options)
  {
    if i > 0 {
      ChoiceRank(t, options[1..], i - 1);
    }
  }

  predicate Acyclic(t: Types) {
    forall name :: name in t.defs ==> name in t.rank && Rank(t, t.defs[name]) <= t.rank[name]
  }

  // ---- Types and scalars -----------------------------------------------------------------

  const TWO_TO_53 := 9007199254740992.0

  predicate IsWhole(d: real) {
    -9007199254740992.0 <= d <= 9007199254740992.0 && d == d.Floor as real
  }

  /** A whole double of at most 2^53 counts as an integer. */
  function TypeOf(v: Value): (r: TypeName)
    ensures r.IntegerType? <==> v.Int? || (v.Double? && IsWhole(v.d))
    ensures r.NumberType? <==> v.Double? && !IsWhole(v.d)
    ensures (r.NullType? <==> v.Null?) && (r.BooleanType? <==> v.Bool?) && (r.StringType? <==> v.Str?)
    ensures (r.ArrayType? <==> v.List?) && (r.ObjectType? <==> v.Dict?)
  {
    match v
    case Null => NullType
    case Bool(_) => BooleanType
    case Int(_) => IntegerType
    case Double(d) =>
      if -TWO_TO_53 <= d <= TWO_TO_53 && d == d.Floor as real then IntegerType else NumberType
    case Str(_) => StringType
    case List(_) => ArrayType
    case Dict(_) => ObjectType
  }

  function Expected(s: Schema): Option<TypeName> {
    match s
    case Object(_, _) => Some(ObjectType)
    case ArrayOf(_, _, _) => Some(ArrayType)
    case Tuple(_, _) => Some(ArrayType)
    case Text(_, _) => Some(StringType)
    case Number(whole, _, _) => Some(if whole then IntegerType else NumberType)
    case Boolean => Some(BooleanType)
    case Nothing => Some(NullType)
    case _ => None
  }

  predicate TypeMatches(expected: TypeName, actual: TypeName) {
    expected == actual || (expected.NumberType? && actual.IntegerType?)
  }

  predicate IsNumber(v: Value) {
    v.Int? || v.Double?
  }

  function NumberOf(v: Value): real
    requires IsNumber(v)
  {
    if v.Int? then v.i as real else v.d
  }

  /** Whether an instance equals an enumerated scalar; numbers compare by value. */
  predicate EnumMatches(v: Value, choice: Value) {
    if IsNumber(choice) then IsNumber(v) && NumberOf(choice) == NumberOf(v) else v == choice
  }

  lemma EnumMeans(v: Value, choice: Value)
    ensures EnumMatches(v, choice) <==>
      v == choice || (v.Int? && choice.Double? && v.i as real == choice.d) || (v.Double? && choice.Int? && v.d == choice.i as real)
  {
  }

  function Child(path: string, name: string): (r: string)
    ensures path == "" ==> r == name
    ensures path != "" ==> |r| == |path| + 1 + |name| && path < r && r[|path|] == '.' && r[|path| + 1..] == name
  {
    if path == "" then name else path + "." + name
  }

  /** Where a dictionary has the key. */
  function EntryIndex(entries: seq<Entry>, key: string): (i: nat)
    ensures i <= |entries| && (i < |entries| ==> entries[i].key == key)
    ensures forall j :: 0 <= j < i ==> entries[j].key != key
  {
    if entries == [] || entries[0].key == key then 0
    else
      var i := EntryIndex(entries[1..], key);
      assert forall j :: 1 <= j < 1 + i ==> entries[j] == entries[1..][j - 1];
      1 + i
  }

  function PropIndex(props: seq<Prop>, key: string): (i: nat)
    ensures i <= |props| && (i < |props| ==> props[i].key == key)
    ensures forall j :: 0 <= j < i ==> props[j].key != key
  {
    if props == [] || props[0].key == key then 0
    else
      var i := PropIndex(props[1..], key);
      assert forall j :: 1 <= j < 1 + i ==> props[j] == props[1..][j - 1];
      1 + i
  }

  // ---- What is acceptable ----------------------------------------------------------------

  ghost predicate Accepts(t: Types, v: Value, s: Schema)
    requires Acyclic(t)
    decreases v, Rank(t, s), s
  {
    match s
    case Ref(name) => name in t.defs && Accepts(t, v, t.defs[name])
    case Choices(options) =>
      exists i :: 0 <= i < |options| && (ChoiceRank(t, options, i); Accepts(t, v, options[i]))
    case Enum(values) => exists i :: 0 <= i < |values| && EnumMatches(v, values[i])
    case Any => true
    case Object(props, additional) =>
      && v.Dict?
      && (forall i :: 0 <= i < |props| ==>
            var j := EntryIndex(v.entries, props[i].key);
            if j < |v.entries| then Accepts(t, v.entries[j].value, props[i].schema) else props[i].optional)
      && (Extra(t, additional) || forall j :: 0 <= j < |v.entries| ==>
            || PropIndex(props, v.entries[j].key) < |props|
            || (additional.Some? && Accepts(t, v.entries[j].value, additional.value)))
    case ArrayOf(item, min, max) =>
      && v.List? && (min.Some? ==> min.value <= |v.items|) && (max.Some? ==> |v.items| <= max.value)
      && forall j :: 0 <= j < |v.items| ==> Accepts(t, v.items[j], item)
    case Tuple(items, additional) =>
      && v.List?
      && (forall i :: 0 <= i < |items| ==>
            if i < |v.items| && !v.items[i].Null? then Accepts(t, v.items[i], items[i].schema) else items[i].optional)
      && (Extra(t, additional) || |v.items| <= |items| || (
            additional.Some? && forall j :: |items| <= j < |v.items| ==> Accepts(t, v.items[j], additional.value)))
    case Text(min, max) => v.Str? && (min.Some? ==> min.value <= |v.s|) && (max.Some? ==> |v.s| <= max.value)
    case Number(whole, min, max) =>
      && (v.Int? || (v.Double? && (whole ==> IsWhole(v.d))))
      && (min.Some? ==> min.value <= NumberOf(v)) && (max.Some? ==> NumberOf(v) <= max.value)
    case Boolean => v.Bool?
    case Nothing => v.Null?
  }

  /** Any additional items are allowed. */
  predicate Extra(t: Types, additional: Option<Schema>) {
    if additional.Some? then additional.value.Any? else t.allowAdditional
  }

  lemma ExtraMeans(t: Types, additional: Option<Schema>)
    ensures Extra(t, additional) <==> additional == Some(Any) || (additional == None && t.allowAdditional)
  {
  }

  // ---- The errors, in the order they are found -------------------------------------------

  function Errors(t: Types, v: Value, s: Schema, path: string): seq<Error>
    requires Acyclic(t)
    decreases v, Rank(t, s), s, 2, 0
  {
    if Expected(s).Some? && !TypeMatches(Expected(s).value, TypeOf(v)) then
      [Error(path, InvalidType(Expected(s).value, TypeOf(v)))]
    else match s
      case Ref(name) =>
        if name in t.defs then Errors(t, v, t.defs[name], path) else [Error(path, UnknownTypeReference(name))]
      case Choices(_) => if SomeChoice(t, v, s, 0, path) then [] else [Error(path, InvalidChoice)]
      case Enum(values) => if SomeEnum(v, values) then [] else [Error(path, InvalidEnum)]
      case Any => []
      case Object(_, _) => PropErrors(t, v, s, 0, path) + ExtraErrors(t, v, s, 0, path)
      case ArrayOf(_, min, max) =>
        CountErrors(|v.items|, min, max, path) + ItemErrors(t, v, s, 0, path)
      case Tuple(_, _) =>
        if TupleStops(v, s.items, 0) then TupleErrors(t, v, s, 0, path)
        else TupleErrors(t, v, s, 0, path) + SurplusErrors(t, v, s, path)
      case Text(min, max) => LengthErrors(|v.s|, min, max, path)
      case Number(_, min, max) => RangeErrors(NumberOf(v), min, max, path)
      case Boolean => []
      case Nothing => []
  }

  predicate SomeEnum(v: Value, values: seq<Value>) {
    values != [] && (EnumMatches(v, values[0]) || SomeEnum(v, values[1..]))
  }

  function CountErrors(n: nat, min: Option<nat>, max: Option<nat>, path: string): seq<Error> {
    (if min.Some? && n < min.value then [Error(path, ArrayMinItems(min.value))] else [])
    + (if max.Some? && n > max.value then [Error(path, ArrayMaxItems(max.value))] else [])
  }

  function LengthErrors(n: nat, min: Option<nat>, max: Option<nat>, path: string): seq<Error> {
    (if min.Some? && n < min.value then [Error(path, StringMinLength(min.value))] else [])
    + (if max.Some? && n > max.value then [Error(path, StringMaxLength(max.value))] else [])
  }

  function RangeErrors(d: real, min: Option<real>, max: Option<real>, path: string): seq<Error> {
    (if min.Some? && d < min.value then [Error(path, NumberMinimum(min.value))] else [])
    + (if max.Some? && d > max.value then [Error(path, NumberMaximum(max.value))] else [])
  }

  /** Some choice from the `i`-th on leaves no error. */
  predicate SomeChoice(t: Types, v: Value, s: Schema, i: nat, path: string)
    requires Acyclic(t) && s.Choices? && i <= |s.options|
    decreases v, Rank(t, s), s, 1, |s.options| - i
  {
    if i == |s.options| then false
    else
      assert Rank(t, s.options[i]) <= Rank(t, s) by { ChoiceRank(t, s.options, i); }
      Errors(t, v, s.options[i], path) == [] || SomeChoice(t, v, s, i + 1, path)
  }

  function PropErrors(t: Types, v: Value, s: Schema, i: nat, path: string): seq<Error>
    requires Acyclic(t) && v.Dict? && s.Object? && i <= |s.properties|
    decreases v, 0, s, 1, |s.properties| - i
  {
    if i == |s.properties| then []
    else
      var p := s.properties[i];
      var j := EntryIndex(v.entries, p.key);
      (if j < |v.entries| then Errors(t, v.entries[j].value, p.schema, Child(path, p.key))
       else if p.optional then [] else [Error(Child(path, p.key), PropertyRequired)])
      + PropErrors(t, v, s, i + 1, path)
  }

  function ExtraErrors(t: Types, v: Value, s: Schema, j: nat, path: string): seq<Error>
    requires Acyclic(t) && v.Dict? && s.Object? && j <= |v.entries|
    decreases v, 0, s, 1, |v.entries| - j
  {
    if Extra(t, s.additional) || j == |v.entries| then []
    else
      var e := v.entries[j];
      (if PropIndex(s.properties, e.key) < |s.properties| then []
       else if s.additional.None? then [Error(Child(path, e.key), UnexpectedProperty)]
       else Errors(t, e.value, s.additional.value, Child(path, e.key)))
      + ExtraErrors(t, v, s, j + 1, path)
  }

  function ItemErrors(t: Types, v: Value, s: Schema, j: nat, path: string): seq<Error>
    requires Acyclic(t) && v.List? && s.ArrayOf? && j <= |v.items|
    decreases v, 0, s, 1, |v.items| - j
  {
    if j == |v.items| then []
    else Errors(t, v.items[j], s.item, Child(path, IntText(j))) + ItemErrors(t, v, s, j + 1, path)
  }

  predicate Missing(v: Value, items: seq<Prop>, i: nat)
    requires v.List? && i < |items|
  {
    (i >= |v.items| || v.items[i].Null?) && !items[i].optional
  }

  /** A missing item ends the validation of the tuple. */
  predicate TupleStops(v: Value, items: seq<Prop>, i: nat)
    requires v.List? && i <= |items|
    decreases |items| - i
  {
    i < |items| && (Missing(v, items, i) || TupleStops(v, items, i + 1))
  }

  function TupleErrors(t: Types, v: Value, s: Schema, i: nat, path: string): seq<Error>
    requires Acyclic(t) && v.List? && s.Tuple? && i <= |s.items|
    decreases v, 0, s, 1, |s.items| - i
  {
    if i == |s.items| then []
    else if Missing(v, s.items, i) then [Error(Child(path, IntText(i)), ItemRequired)]
    else
      (if i < |v.items| && !v.items[i].Null? then Errors(t, v.items[i], s.items[i].schema, Child(path, IntText(i))) else [])
      + TupleErrors(t, v, s, i + 1, path)
  }

  function SurplusErrors(t: Types, v: Value, s: Schema, path: string): seq<Error>
    requires Acyclic(t) && v.List? && s.Tuple?
    decreases v, 0, s, 1, |v.items| + 1
  {
    if Extra(t, s.additional) || |v.items| <= |s.items| then []
    else if s.additional.None? then [Error(path, ArrayMaxItems(|s.items|))]
    else RestErrors(t, v, s, |s.items|, path)
  }

  function RestErrors(t: Types, v: Value, s: Schema, j: nat, path: string): seq<Error>
    requires Acyclic(t) && v.List? && s.Tuple? && s.additional.Some? && j <= |v.items|
    decreases v, 0, s, 1, |v.items| - j
  {
    if j == |v.items| then []
    else Errors(t, v.items[j], s.additional.value, Child(path, IntText(j))) + RestErrors(t, v, s, j + 1, path)
  }

  // ---- No errors exactly when acceptable -------------------------------------------------

  /** Validation finds nothing to complain about exactly when the instance is acceptable. */
  lemma {:induction false} NoErrorsExactlyWhen(t: Types, v: Value, s: Schema, path: string)
    requires Acyclic(t)
    ensures Errors(t, v, s, path) == [] <==> Accepts(t, v, s)
    decreases v, Rank(t, s), s, 2, 0
  {
    hide SomeChoice, PropErrors, ExtraErrors, ItemErrors, TupleErrors, SurplusErrors, TupleStops, EntryIndex, PropIndex;
    if s.Any? || s.Text? || s.Number? || s.Boolean? || s.Nothing? || !Fits(v, s) {
      ScalarsExactlyWhen(t, v, s, path);
    } else {
      hide TypeOf, TypeMatches, IsNumber;
      match s
      case Ref(name) => if name in t.defs { NoErrorsExactlyWhen(t, v, t.defs[name], path); }
      case Choices(_) => ChoiceExactlyWhen(t, v, s, 0, path);
      case Enum(values) => EnumExactlyWhen(v, values);
      case Object(_, _) =>
        FitsContainer(v, s);
        PropsExactlyWhen(t, v, s, 0, path);
        ExtrasExactlyWhen(t, v, s, 0, path);
      case ArrayOf(_, _, _) =>
        FitsContainer(v, s);
        ItemsExactlyWhen(t, v, s, 0, path);
      case Tuple(_, _) =>
        FitsContainer(v, s);
        TupleExactlyWhen(t, v, s, 0, path);
        StopIsError(t, v, s, 0, path);
        SurplusExactlyWhen(t, v, s, path);
        TupleMeans(t, v, s);
    }
  }

  predicate Fits(v: Value, s: Schema) {
    Expected(s).Some? ==> TypeMatches(Expected(s).value, TypeOf(v))
  }

  lemma FitsContainer(v: Value, s: Schema)
    requires Fits(v, s)
    ensures s.Object? ==> v.Dict?
    ensures s.ArrayOf? || s.Tuple? ==> v.List?
  {
  }

  /** Without going into the instance: scalars, and instances of the wrong type. */
  lemma ScalarsExactlyWhen(t: Types, v: Value, s: Schema, path: string)
    requires Acyclic(t) && (s.Any? || s.Text? || s.Number? || s.Boolean? || s.Nothing? || !Fits(v, s))
    ensures Errors(t, v, s, path) == [] <==> Accepts(t, v, s)
  {
    hide SomeChoice, PropErrors, ExtraErrors, ItemErrors, TupleErrors, SurplusErrors, TupleStops, EntryIndex, PropIndex;
  }

  lemma {:induction false} EnumExactlyWhen(v: Value, values: seq<Value>)
    ensures SomeEnum(v, values) <==> exists i :: 0 <= i < |values| && EnumMatches(v, values[i])
  {
    if values != [] {
      EnumExactlyWhen(v, values[1..]);
      if i :| 0 <= i < |values| && EnumMatches(v, values[i]) {
        if i > 0 { assert values[i] == values[1..][i - 1]; }
      }
    }
  }

  lemma {:induction false} ChoiceExactlyWhen(t: Types, v: Value, s: Schema, i: nat, path: string)
    requires Acyclic(t) && s.Choices? && i <= |s.options|
    ensures SomeChoice(t, v, s, i, path) <==>
            exists j :: i <= j < |s.options| && (ChoiceRank(t, s.options, j); Accepts(t, v, s.options[j]))
    decreases v, Rank(t, s), s, 1, |s.options| - i
  {
    hide Accepts, Errors;
    if i < |s.options| {
      ChoiceRank(t, s.options, i);
      NoErrorsExactlyWhen(t, v, s.options[i], path);
      ChoiceExactlyWhen(t, v, s, i + 1, path);
    }
  }

  ghost predicate PropAccepted(t: Types, v: Value, p: Prop)
    requires Acyclic(t) && v.Dict?
  {
    var j := EntryIndex(v.entries, p.key);
    if j < |v.entries| then Accepts(t, v.entries[j].value, p.schema) else p.optional
  }

  lemma {:induction false} PropsExactlyWhen(t: Types, v: Value, s: Schema, i: nat, path: string)
    requires Acyclic(t) && v.Dict? && s.Object? && i <= |s.properties|
    ensures PropErrors(t, v, s, i, path) == [] <==>
            forall k :: i <= k < |s.properties| ==> PropAccepted(t, v, s.properties[k])
    decreases v, 0, s, 1, |s.properties| - i
  {
    hide Accepts, Errors, EntryIndex;
    if i < |s.properties| {
      var p := s.properties[i];
      var j := EntryIndex(v.entries, p.key);
      if j < |v.entries| { NoErrorsExactlyWhen(t, v.entries[j].value, p.schema, Child(path, p.key)); }
      PropsExactlyWhen(t, v, s, i + 1, path);
    }
  }

  ghost predicate ExtraAccepted(t: Types, e: Entry, s: Schema)
    requires Acyclic(t) && s.Object?
  {
    || PropIndex(s.properties, e.key) < |s.properties|
    || (s.additional.Some? && Accepts(t, e.value, s.additional.value))
  }

  lemma {:induction false} ExtrasExactlyWhen(t: Types, v: Value, s: Schema, j: nat, path: string)
    requires Acyclic(t) && v.Dict? && s.Object? && j <= |v.entries|
    ensures ExtraErrors(t, v, s, j, path) == [] <==>
            Extra(t, s.additional) || forall k :: j <= k < |v.entries| ==> ExtraAccepted(t, v.entries[k], s)
    decreases v, 0, s, 1, |v.entries| - j
  {
    hide Accepts, Errors, PropIndex;
    if !Extra(t, s.additional) && j < |v.entries| {
      var e := v.entries[j];
      if s.additional.Some? { NoErrorsExactlyWhen(t, e.value, s.additional.value, Child(path, e.key)); }
      ExtrasExactlyWhen(t, v, s, j + 1, path);
    }
  }

  lemma {:induction false} ItemsExactlyWhen(t: Types, v: Value, s: Schema, j: nat, path: string)
    requires Acyclic(t) && v.List? && s.ArrayOf? && j <= |v.items|
    ensures ItemErrors(t, v, s, j, path) == [] <==>
            forall k :: j <= k < |v.items| ==> Accepts(t, v.items[k], s.item)
    decreases v, 0, s, 1, |v.items| - j
  {
    hide *;
    if j == |v.items| {
      NoItem(t, v, s, path);
    } else {
      NoErrorsExactlyWhen(t, v.items[j], s.item, Child(path, IntText(j)));
      ItemsExactlyWhen(t, v, s, j + 1, path);
      ItemHere(t, v, s, j, path);
    }
  }

  lemma NoItem(t: Types, v: Value, s: Schema, path: string)
    requires Acyclic(t) && v.List? && s.ArrayOf?
    ensures ItemErrors(t, v, s, |v.items|, path) == []
  {
  }

  lemma ItemHere(t: Types, v: Value, s: Schema, j: nat, path: string)
    requires Acyclic(t) && v.List? && s.ArrayOf? && j < |v.items|
    ensures ItemErrors(t, v, s, j, path) == []
       <==> Errors(t, v.items[j], s.item, Child(path, IntText(j))) == [] && ItemErrors(t, v, s, j + 1, path) == []
  {
    hide Errors;
  }

  ghost predicate TupleAccepted(t: Types, v: Value, s: Schema, i: nat)
    requires Acyclic(t) && v.List? && s.Tuple? && i < |s.items|
  {
    if i < |v.items| && !v.items[i].Null? then Accepts(t, v.items[i], s.items[i].schema) else s.items[i].optional
  }

  lemma TupleMeans(t: Types, v: Value, s: Schema)
    requires Acyclic(t) && v.List? && s.Tuple?
    ensures Accepts(t, v, s) <==>
            && (forall k :: 0 <= k < |s.items| ==> TupleAccepted(t, v, s, k))
            && (Extra(t, s.additional) || |v.items| <= |s.items| || (
                  s.additional.Some? && forall j :: |s.items| <= j < |v.items| ==> Accepts(t, v.items[j], s.additional.value)))
  {
    if forall k :: 0 <= k < |s.items| ==> TupleAccepted(t, v, s, k) {
      forall k | 0 <= k < |s.items|
        ensures if k < |v.items| && !v.items[k].Null? then Accepts(t, v.items[k], s.items[k].schema) else s.items[k].optional
      {
        assert TupleAccepted(t, v, s, k);
      }
    }
  }

  /** One item of a tuple, given what holds of it and of the rest. */
  lemma TupleHere(t: Types, v: Value, s: Schema, i: nat, path: string)
    requires Acyclic(t) && v.List? && s.Tuple? && i < |s.items|
    requires i < |v.items| && !v.items[i].Null? ==>
      (Errors(t, v.items[i], s.items[i].schema, Child(path, IntText(i))) == [] <==> Accepts(t, v.items[i], s.items[i].schema))
    ensures TupleErrors(t, v, s, i, path) == [] <==> TupleAccepted(t, v, s, i) && TupleErrors(t, v, s, i + 1, path) == []
  {
    hide Accepts, Errors;
  }

  lemma TupleStep(t: Types, v: Value, s: Schema, i: nat, path: string, before: seq<Error>)
    requires Acyclic(t) && v.List? && s.Tuple? && i < |s.items|
    ensures before + TupleErrors(t, v, s, i, path)
         == if Missing(v, s.items, i) then before + [Error(Child(path, IntText(i)), ItemRequired)]
            else if i < |v.items| && !v.items[i].Null?
            then before + Errors(t, v.items[i], s.items[i].schema, Child(path, IntText(i))) + TupleErrors(t, v, s, i + 1, path)
            else before + TupleErrors(t, v, s, i + 1, path)
  {
    hide Errors, Accepts, IntText, Child;
  }

  lemma RestStep(t: Types, v: Value, s: Schema, j: nat, path: string, before: seq<Error>)
    requires Acyclic(t) && v.List? && s.Tuple? && s.additional.Some? && j < |v.items|
    ensures before + RestErrors(t, v, s, j, path)
         == before + Errors(t, v.items[j], s.additional.value, Child(path, IntText(j))) + RestErrors(t, v, s, j + 1, path)
  {
    hide Errors, IntText, Child;
  }

  lemma NoRest(t: Types, v: Value, s: Schema, path: string)
    requires Acyclic(t) && v.List? && s.Tuple? && s.additional.Some?
    ensures RestErrors(t, v, s, |v.items|, path) == []
  {
  }

  lemma {:induction false} StopIsError(t: Types, v: Value, s: Schema, i: nat, path: string)
    requires Acyclic(t) && v.List? && s.Tuple? && i <= |s.items|
    ensures TupleStops(v, s.items, i) ==> TupleErrors(t, v, s, i, path) != []
    decreases |s.items| - i
  {
    hide Errors, Accepts;
    if i < |s.items| && !Missing(v, s.items, i) {
      StopIsError(t, v, s, i + 1, path);
    }
  }

  lemma {:induction false} TupleExactlyWhen(t: Types, v: Value, s: Schema, i: nat, path: string)
    requires Acyclic(t) && v.List? && s.Tuple? && i <= |s.items|
    ensures TupleErrors(t, v, s, i, path) == [] <==> forall k :: i <= k < |s.items| ==> TupleAccepted(t, v, s, k)
    decreases v, 0, s, 1, |s.items| - i
  {
    hide *;
    if i == |s.items| {
      NoTuple(t, v, s, path);
    } else {
      if i < |v.items| && !v.items[i].Null? {
        NoErrorsExactlyWhen(t, v.items[i], s.items[i].schema, Child(path, IntText(i)));
      }
      TupleHere(t, v, s, i, path);
      TupleExactlyWhen(t, v, s, i + 1, path);
    }
  }

  lemma NoTuple(t: Types, v: Value, s: Schema, path: string)
    requires Acyclic(t) && v.List? && s.Tuple?
    ensures TupleErrors(t, v, s, |s.items|, path) == []
  {
  }

  lemma {:induction false} SurplusExactlyWhen(t: Types, v: Value, s: Schema, path: string)
    requires Acyclic(t) && v.List? && s.Tuple?
    ensures SurplusErrors(t, v, s, path) == [] <==>
            Extra(t, s.additional) || |v.items| <= |s.items| || (
              s.additional.Some? && forall j :: |s.items| <= j < |v.items| ==> Accepts(t, v.items[j], s.additional.value))
    decreases v, 0, s, 1, |v.items| + 1
  {
    hide Accepts, Errors;
    if !Extra(t, s.additional) && |v.items| > |s.items| {
      if s.additional.Some? { RestExactlyWhen(t, v, s, |s.items|, path); }
    }
  }

  lemma {:induction false} RestExactlyWhen(t: Types, v: Value, s: Schema, j: nat, path: string)
    requires Acyclic(t) && v.List? && s.Tuple? && s.additional.Some? && j <= |v.items|
    ensures RestErrors(t, v, s, j, path) == [] <==>
            forall k :: j <= k < |v.items| ==> Accepts(t, v.items[k], s.additional.value)
    decreases v, 0, s, 1, |v.items| - j
  {
    hide *;
    if j == |v.items| {
      NoRest(t, v, s, path);
    } else {
      NoErrorsExactlyWhen(t, v.items[j], s.additional.value, Child(path, IntText(j)));
      RestExactlyWhen(t, v, s, j + 1, path);
      RestHere(t, v, s, j, path);
    }
  }

  lemma RestHere(t: Types, v: Value, s: Schema, j: nat, path: string)
    requires Acyclic(t) && v.List? && s.Tuple? && s.additional.Some? && j < |v.items|
    ensures RestErrors(t, v, s, j, path) == []
       <==> Errors(t, v.items[j], s.additional.value, Child(path, IntText(j))) == [] && RestErrors(t, v, s, j + 1, path) == []
  {
    hide Errors;
  }

  // ---- What each error says --------------------------------------------------------------

  /** The error is about the instance at `path` or a part of it, and says what is wrong there: a
      type it has not, a bound it breaks, a property or item it lacks or has beyond the schema, or
      that no choice, no scalar or no declared type is met. A tuple is looked at only up to the
      first item it lacks. */
  ghost predicate IsFault(t: Types, v: Value, s: Schema, path: string, e: Error)
    requires Acyclic(t)
    decreases v, Rank(t, s), s, 2
  {
    match s
    case Ref(name) => if name in t.defs then IsFault(t, v, t.defs[name], path, e) else e == Error(path, UnknownTypeReference(name))
    case Choices(_) => e == Error(path, InvalidChoice) && !Accepts(t, v, s)
    case Enum(_) => e == Error(path, InvalidEnum) && !Accepts(t, v, s)
    case Any => false
    case Object(props, additional) =>
      if !v.Dict? then e == Error(path, InvalidType(ObjectType, TypeOf(v)))
      else
        || (exists i :: 0 <= i < |props| && PropFault(t, v, s, props[i], path, e))
        || (!Extra(t, additional) && exists j :: 0 <= j < |v.entries| && Undeclared(props, v.entries[j]) && ExtraFault(t, v, s, j, path, e))
    case ArrayOf(item, min, max) =>
      if !v.List? then e == Error(path, InvalidType(ArrayType, TypeOf(v)))
      else
        || (min.Some? && |v.items| < min.value && e == Error(path, ArrayMinItems(min.value)))
        || (max.Some? && |v.items| > max.value && e == Error(path, ArrayMaxItems(max.value)))
        || (exists j :: 0 <= j < |v.items| && IsFault(t, v.items[j], item, Child(path, IntText(j)), e))
    case Tuple(items, additional) =>
      if !v.List? then e == Error(path, InvalidType(ArrayType, TypeOf(v)))
      else
        || (exists i :: 0 <= i < |items| && (if Missing(v, items, i) then e == Error(Child(path, IntText(i)), ItemRequired)
                                             else TupleFault(t, v, s, i, path, e)) && forall k :: 0 <= k < i ==> !Missing(v, items, k))
        || (SurplusFault(t, v, s, path, e) && forall k :: 0 <= k < |items| ==> !Missing(v, items, k))
    case Text(min, max) =>
      if !v.Str? then e == Error(path, InvalidType(StringType, TypeOf(v)))
      else
        || (min.Some? && |v.s| < min.value && e == Error(path, StringMinLength(min.value)))
        || (max.Some? && |v.s| > max.value && e == Error(path, StringMaxLength(max.value)))
    case Number(whole, min, max) =>
      if !(v.Int? || (v.Double? && (whole ==> IsWhole(v.d)))) then
        e == Error(path, InvalidType(if whole then IntegerType else NumberType, TypeOf(v)))
      else
        || (min.Some? && NumberOf(v) < min.value && e == Error(path, NumberMinimum(min.value)))
        || (max.Some? && NumberOf(v) > max.value && e == Error(path, NumberMaximum(max.value)))
    case Boolean => !v.Bool? && e == Error(path, InvalidType(BooleanType, TypeOf(v)))
    case Nothing => !v.Null? && e == Error(path, InvalidType(NullType, TypeOf(v)))
  }

  /** About a declared property: one that is there, or one that has to be. */
  ghost predicate PropFault(t: Types, v: Value, s: Schema, p: Prop, path: string, e: Error)
    requires Acyclic(t) && v.Dict?
    decreases v, 0, s, 1
  {
    var j := EntryIndex(v.entries, p.key);
    if j < |v.entries| then IsFault(t, v.entries[j].value, p.schema, Child(path, p.key), e)
    else !p.optional && e == Error(Child(path, p.key), PropertyRequired)
  }

  predicate Undeclared(props: seq<Prop>, entry: Entry) {
    PropIndex(props, entry.key) == |props|
  }

  /** About an undeclared one. */
  ghost predicate ExtraFault(t: Types, v: Value, s: Schema, j: nat, path: string, e: Error)
    requires Acyclic(t) && v.Dict? && s.Object? && j < |v.entries|
    decreases v, 0, s, 1
  {
    var entry := v.entries[j];
    if s.additional.None? then e == Error(Child(path, entry.key), UnexpectedProperty)
    else IsFault(t, entry.value, s.additional.value, Child(path, entry.key), e)
  }

  /** About an item a tuple declares. */
  ghost predicate TupleFault(t: Types, v: Value, s: Schema, i: nat, path: string, e: Error)
    requires Acyclic(t) && v.List? && s.Tuple? && i < |s.items|
    decreases v, 0, s, 1
  {
    i < |v.items| && !v.items[i].Null? && IsFault(t, v.items[i], s.items[i].schema, Child(path, IntText(i)), e)
  }

  /** About the items behind those. */
  ghost predicate SurplusFault(t: Types, v: Value, s: Schema, path: string, e: Error)
    requires Acyclic(t) && v.List? && s.Tuple?
    decreases v, 0, s, 1
  {
    && !Extra(t, s.additional) && |v.items| > |s.items|
    && if s.additional.None? then e == Error(path, ArrayMaxItems(|s.items|))
       else exists j :: |s.items| <= j < |v.items| && IsFault(t, v.items[j], s.additional.value, Child(path, IntText(j)), e)
  }

  /** The errors that are found are exactly those. */
  lemma {:induction false} FaultExactlyWhen(t: Types, v: Value, s: Schema, path: string, e: Error)
    requires Acyclic(t)
    ensures e in Errors(t, v, s, path) <==> IsFault(t, v, s, path, e)
    decreases v, Rank(t, s), s, 2, 1
  {
    hide SomeChoice, PropErrors, ExtraErrors, ItemErrors, TupleErrors, SurplusErrors, TupleStops, EntryIndex, PropIndex, Accepts,
      PropFault, ExtraFault, TupleFault, SurplusFault, Child, IntText, Extra, Missing;
    if s.Any? || s.Text? || s.Number? || s.Boolean? || s.Nothing? || !Fits(v, s) {
      ScalarFault(t, v, s, path, e);
    } else {
      hide TypeOf, TypeMatches, IsNumber;
      match s
      case Ref(name) => if name in t.defs { FaultExactlyWhen(t, v, t.defs[name], path, e); }
      case Choices(_) => NoErrorsExactlyWhen(t, v, s, path);
      case Enum(_) => NoErrorsExactlyWhen(t, v, s, path);
      case Object(_, _) =>
        FitsContainer(v, s);
        ObjectFault(t, v, s, path, e);
      case ArrayOf(_, _, _) =>
        FitsContainer(v, s);
        ItemsFault(t, v, s, 0, path, e);
      case Tuple(_, _) =>
        FitsContainer(v, s);
        TupleFaults(t, v, s, path, e);
    }
  }

  /** Declared properties come before the others, counts before items, declared items before the
      rest. */
  lemma ContainerErrors(t: Types, v: Value, s: Schema, path: string)
    requires Acyclic(t) && if s.Object? then v.Dict? else (s.ArrayOf? || s.Tuple?) && v.List?
    ensures Errors(t, v, s, path)
         == if s.Object? then PropErrors(t, v, s, 0, path) + ExtraErrors(t, v, s, 0, path)
            else if s.ArrayOf? then CountErrors(|v.items|, s.minItems, s.maxItems, path) + ItemErrors(t, v, s, 0, path)
            else if TupleStops(v, s.items, 0) then TupleErrors(t, v, s, 0, path)
            else TupleErrors(t, v, s, 0, path) + SurplusErrors(t, v, s, path)
  {
    hide PropErrors, ExtraErrors, TupleErrors, SurplusErrors, TupleStops, CountErrors, ItemErrors;
  }

  lemma {:induction false} ObjectFault(t: Types, v: Value, s: Schema, path: string, e: Error)
    requires Acyclic(t) && v.Dict? && s.Object?
    ensures e in Errors(t, v, s, path) <==> IsFault(t, v, s, path, e)
    decreases v, 0, s, 2, 0
  {
    hide Errors, PropErrors, ExtraErrors, PropFault, ExtraFault, Extra, Undeclared;
    ContainerErrors(t, v, s, path);
    PropsFault(t, v, s, 0, path, e);
    if Extra(t, s.additional) { AllowedExtras(t, v, s, path); } else { ExtrasFault(t, v, s, 0, path, e); }
  }

  lemma {:induction false} TupleFaults(t: Types, v: Value, s: Schema, path: string, e: Error)
    requires Acyclic(t) && v.List? && s.Tuple?
    ensures e in Errors(t, v, s, path) <==> IsFault(t, v, s, path, e)
    decreases v, 0, s, 2, 0
  {
    hide Errors, TupleErrors, SurplusErrors, TupleStops, TupleFault, SurplusFault, Missing;
    ContainerErrors(t, v, s, path);
    TupleItemsFault(t, v, s, 0, path, e);
    StopsExactlyWhen(v, s.items, 0);
    SurplusExactly(t, v, s, path, e);
  }

  lemma ScalarFault(t: Types, v: Value, s: Schema, path: string, e: Error)
    requires Acyclic(t) && (s.Any? || s.Text? || s.Number? || s.Boolean? || s.Nothing? || !Fits(v, s))
    ensures e in Errors(t, v, s, path) <==> IsFault(t, v, s, path, e)
  {
    hide SomeChoice, PropErrors, ExtraErrors, ItemErrors, TupleErrors, SurplusErrors, TupleStops, EntryIndex, PropIndex, Accepts;
  }

  lemma {:induction false} PropsFault(t: Types, v: Value, s: Schema, i: nat, path: string, e: Error)
    requires Acyclic(t) && v.Dict? && s.Object? && i <= |s.properties|
    ensures e in PropErrors(t, v, s, i, path) <==> exists k :: i <= k < |s.properties| && PropFault(t, v, s, s.properties[k], path, e)
    decreases v, 0, s, 1, |s.properties| - i
  {
    hide IsFault, Errors, PropErrors, PropFault;
    if i == |s.properties| {
      NoProp(t, v, s, path);
    } else {
      PropFaultHere(t, v, s, i, path, e);
      PropsFault(t, v, s, i + 1, path, e);
    }
  }

  lemma NoProp(t: Types, v: Value, s: Schema, path: string)
    requires Acyclic(t) && v.Dict? && s.Object?
    ensures PropErrors(t, v, s, |s.properties|, path) == [] && ExtraErrors(t, v, s, |v.entries|, path) == []
  {
  }

  lemma {:induction false} PropFaultHere(t: Types, v: Value, s: Schema, i: nat, path: string, e: Error)
    requires Acyclic(t) && v.Dict? && s.Object? && i < |s.properties|
    ensures e in PropErrors(t, v, s, i, path) <==> PropFault(t, v, s, s.properties[i], path, e) || e in PropErrors(t, v, s, i + 1, path)
    decreases v, 0, s, 0, 0
  {
    hide IsFault, Errors, EntryIndex, Child, Accepts;
    var p := s.properties[i];
    var j := EntryIndex(v.entries, p.key);
    if j < |v.entries| { FaultExactlyWhen(t, v.entries[j].value, p.schema, Child(path, p.key), e); }
  }

  lemma {:induction false} ExtrasFault(t: Types, v: Value, s: Schema, j: nat, path: string, e: Error)
    requires Acyclic(t) && v.Dict? && s.Object? && j <= |v.entries| && !Extra(t, s.additional)
    ensures e in ExtraErrors(t, v, s, j, path) <==>
            exists k :: j <= k < |v.entries| && Undeclared(s.properties, v.entries[k]) && ExtraFault(t, v, s, k, path, e)
    decreases v, 0, s, 1, |v.entries| - j
  {
    hide IsFault, Errors, ExtraErrors, ExtraFault, Extra, Undeclared;
    if j == |v.entries| {
      NoProp(t, v, s, path);
    } else {
      ExtraFaultHere(t, v, s, j, path, e);
      ExtrasFault(t, v, s, j + 1, path, e);
    }
  }

  lemma {:induction false} ExtraFaultHere(t: Types, v: Value, s: Schema, j: nat, path: string, e: Error)
    requires Acyclic(t) && v.Dict? && s.Object? && j < |v.entries| && !Extra(t, s.additional)
    ensures e in ExtraErrors(t, v, s, j, path) <==>
            (Undeclared(s.properties, v.entries[j]) && ExtraFault(t, v, s, j, path, e)) || e in ExtraErrors(t, v, s, j + 1, path)
    decreases v, 0, s, 0, 0
  {
    hide IsFault, Errors, PropIndex, Child, Accepts;
    var entry := v.entries[j];
    if s.additional.Some? { FaultExactlyWhen(t, entry.value, s.additional.value, Child(path, entry.key), e); }
  }

  lemma AllowedExtras(t: Types, v: Value, s: Schema, path: string)
    requires Acyclic(t) && v.Dict? && s.Object? && Extra(t, s.additional)
    ensures ExtraErrors(t, v, s, 0, path) == []
  {
  }

  lemma {:induction false} ItemsFault(t: Types, v: Value, s: Schema, j: nat, path: string, e: Error)
    requires Acyclic(t) && v.List? && s.ArrayOf? && j <= |v.items|
    ensures e in ItemErrors(t, v, s, j, path) <==>
            exists k :: j <= k < |v.items| && IsFault(t, v.items[k], s.item, Child(path, IntText(k)), e)
    decreases v, 0, s, 1, |v.items| - j
  {
    hide IsFault, Errors, Child, IntText;
    if j < |v.items| {
      FaultExactlyWhen(t, v.items[j], s.item, Child(path, IntText(j)), e);
      ItemsFault(t, v, s, j + 1, path, e);
    }
  }

  lemma {:induction false} TupleItemsFault(t: Types, v: Value, s: Schema, i: nat, path: string, e: Error)
    requires Acyclic(t) && v.List? && s.Tuple? && i <= |s.items|
    ensures e in TupleErrors(t, v, s, i, path) <==>
            exists k :: i <= k < |s.items| && (if Missing(v, s.items, k) then e == Error(Child(path, IntText(k)), ItemRequired)
                                               else TupleFault(t, v, s, k, path, e)) && forall l :: i <= l < k ==> !Missing(v, s.items, l)
    decreases v, 0, s, 1, |s.items| - i
  {
    hide IsFault, Errors, Child, IntText, Missing, Accepts, TupleErrors, TupleFault;
    if i == |s.items| {
      NoTuple(t, v, s, path);
    } else {
      TupleItemFault(t, v, s, i, path, e);
      TupleItemsFault(t, v, s, i + 1, path, e);
    }
  }

  /** One item of a tuple: its own errors, and unless it is missing those of the rest. */
  lemma {:induction false} TupleItemFault(t: Types, v: Value, s: Schema, i: nat, path: string, e: Error)
    requires Acyclic(t) && v.List? && s.Tuple? && i < |s.items|
    ensures e in TupleErrors(t, v, s, i, path) <==>
            if Missing(v, s.items, i) then e == Error(Child(path, IntText(i)), ItemRequired)
            else TupleFault(t, v, s, i, path, e) || e in TupleErrors(t, v, s, i + 1, path)
    decreases v, 0, s, 0, 0
  {
    hide IsFault, Errors, Child, IntText, Accepts;
    if i < |v.items| && !v.items[i].Null? {
      FaultExactlyWhen(t, v.items[i], s.items[i].schema, Child(path, IntText(i)), e);
    }
  }

  lemma {:induction false} StopsExactlyWhen(v: Value, items: seq<Prop>, i: nat)
    requires v.List? && i <= |items|
    ensures TupleStops(v, items, i) <==> exists k :: i <= k < |items| && Missing(v, items, k)
    decreases |items| - i
  {
    hide Missing;
    if i < |items| { StopsExactlyWhen(v, items, i + 1); }
  }

  lemma {:induction false} RestFault(t: Types, v: Value, s: Schema, j: nat, path: string, e: Error)
    requires Acyclic(t) && v.List? && s.Tuple? && s.additional.Some? && j <= |v.items|
    ensures e in RestErrors(t, v, s, j, path) <==>
            exists k :: j <= k < |v.items| && IsFault(t, v.items[k], s.additional.value, Child(path, IntText(k)), e)
    decreases v, 0, s, 1, |v.items| - j
  {
    hide IsFault, Errors, Child, IntText;
    if j < |v.items| {
      FaultExactlyWhen(t, v.items[j], s.additional.value, Child(path, IntText(j)), e);
      RestFault(t, v, s, j + 1, path, e);
    }
  }

  lemma {:induction false} SurplusExactly(t: Types, v: Value, s: Schema, path: string, e: Error)
    requires Acyclic(t) && v.List? && s.Tuple?
    ensures e in SurplusErrors(t, v, s, path) <==> SurplusFault(t, v, s, path, e)
    decreases v, 0, s, 1, |v.items| + 1
  {
    hide IsFault, Errors, RestErrors, Child, IntText;
    if s.additional.Some? && |v.items| > |s.items| { RestFault(t, v, s, |s.items|, path, e); }
  }

  // ---- The validator ---------------------------------------------------------------------

  class JSONSchemaValidator {
    const types: Types
    var errors: seq<Error>

    constructor (declared: Types)
      requires Acyclic(declared)
      ensures types == declared && errors == []
    {
      types, errors := declared, [];
    }

    /** True exactly for acceptable instances. */
    method ValidateRoot(instance: Value, root: Schema) returns (valid: bool)
      requires Acyclic(types)
      modifies this
      ensures valid <==> Accepts(types, instance, root)
      ensures errors == Errors(types, instance, root, "")
    {
      hide Errors, Accepts;
      errors := [];
      Validate(instance, root, "");
      NoErrorsExactlyWhen(types, instance, root, "");
      valid := errors == [];
    }

    /** Every helper only appends, and appends exactly the errors there are. */
    method Validate(instance: Value, s: Schema, path: string)
      requires Acyclic(types)
      modifies this
      ensures errors == old(errors) + Errors(types, instance, s, path)
      decreases instance, Rank(types, s), s, 2, 0
    {
      hide SomeChoice, PropErrors, ExtraErrors, ItemErrors, TupleErrors, SurplusErrors, TupleStops, CountErrors,
        LengthErrors, RangeErrors, TypeOf, SomeEnum, IntText, Rank, ChoicesRank;
      if s.Ref? {
        ValidateRef(instance, s, path);
      } else if s.Choices? {
        ValidateChoices(instance, s, path);
      } else if s.Enum? {
        ValidateEnum(instance, s, path);
      } else if !s.Any? {
        var matches := ValidateType(instance, Expected(s).value, path);
        if matches {
          match s {
            case Object(_, _) => ValidateObject(instance, s, path);
            case ArrayOf(_, _, _) => ValidateArray(instance, s, path);
            case Tuple(_, _) => ValidateTuple(instance, s, path);
            case Text(min, max) => ValidateString(instance, min, max, path);
            case Number(_, min, max) => ValidateNumber(instance, min, max, path);
            case _ =>
          }
        }
      }
    }

    method ValidateRef(instance: Value, s: Schema, path: string)
      requires Acyclic(types) && s.Ref?
      modifies this
      ensures errors == old(errors) + Errors(types, instance, s, path)
      decreases instance, Rank(types, s), s, 1, 0
    {
      if s.name !in types.defs {
        errors := errors + [Error(path, UnknownTypeReference(s.name))];
      } else {
        assert Rank(types, types.defs[s.name]) < Rank(types, s);
        Validate(instance, types.defs[s.name], path);
      }
    }

    /** The errors of a choice that failed are cut off again, which is sound because nothing but
        appending has happened to the list since. */
    method ValidateChoices(instance: Value, s: Schema, path: string)
      requires Acyclic(types) && s.Choices?
      modifies this
      ensures errors == old(errors) + if SomeChoice(types, instance, s, 0, path) then [] else [Error(path, InvalidChoice)]
      decreases instance, Rank(types, s), s, 1, 0
    {
      hide Errors;
      var originalNumErrors := |errors|;
      for i := 0 to |s.options|
        invariant errors == old(errors)
        invariant SomeChoice(types, instance, s, 0, path) == SomeChoice(types, instance, s, i, path)
      {
        assert Rank(types, s.options[i]) <= Rank(types, s) by { ChoiceRank(types, s.options, i); }
        Validate(instance, s.options[i], path);
        if |errors| == originalNumErrors {
          return;
        }
        errors := errors[..originalNumErrors];
      }
      errors := errors + [Error(path, InvalidChoice)];
    }

    method ValidateEnum(instance: Value, s: Schema, path: string)
      requires s.Enum?
      modifies this
      ensures errors == old(errors) + if SomeEnum(instance, s.values) then [] else [Error(path, InvalidEnum)]
    {
      assert s.values[0..] == s.values;
      for i := 0 to |s.values|
        invariant errors == old(errors) && SomeEnum(instance, s.values[i..]) == SomeEnum(instance, s.values)
      {
        assert s.values[i..][1..] == s.values[i + 1..];
        if EnumMatches(instance, s.values[i]) {
          return;
        }
      }
      errors := errors + [Error(path, InvalidEnum)];
    }

    method ValidateObject(instance: Value, s: Schema, path: string)
      requires Acyclic(types) && instance.Dict? && s.Object?
      modifies this
      ensures errors == old(errors) + (PropErrors(types, instance, s, 0, path) + ExtraErrors(types, instance, s, 0, path))
      decreases instance, 0, s, 1, 1
    {
      hide *;
      ValidateProperties(instance, s, path);
      ValidateAdditional(instance, s, path);
    }

    method ValidateProperties(instance: Value, s: Schema, path: string)
      requires Acyclic(types) && instance.Dict? && s.Object?
      modifies this
      ensures errors == old(errors) + PropErrors(types, instance, s, 0, path)
      decreases instance, 0, s, 1, 0
    {
      hide Errors, Child, EntryIndex, Rank, ChoicesRank, Acyclic;
      for i := 0 to |s.properties|
        invariant errors + PropErrors(types, instance, s, i, path) == old(errors) + PropErrors(types, instance, s, 0, path)
      {
        var p := s.properties[i];
        var propPath := Child(path, p.key);
        var j := EntryIndex(instance.entries, p.key);
        if j < |instance.entries| {
          Validate(instance.entries[j].value, p.schema, propPath);
        } else if !p.optional {
          errors := errors + [Error(propPath, PropertyRequired)];
        }
      }
    }

    method ValidateAdditional(instance: Value, s: Schema, path: string)
      requires Acyclic(types) && instance.Dict? && s.Object?
      modifies this
      ensures errors == old(errors) + ExtraErrors(types, instance, s, 0, path)
      decreases instance, 0, s, 1, 0
    {
      hide Errors, Child, PropIndex, Extra, Rank, ChoicesRank, Acyclic;
      if Extra(types, s.additional) {
        return;
      }
      for j := 0 to |instance.entries|
        invariant errors + ExtraErrors(types, instance, s, j, path) == old(errors) + ExtraErrors(types, instance, s, 0, path)
      {
        var e := instance.entries[j];
        var propPath := Child(path, e.key);
        if PropIndex(s.properties, e.key) < |s.properties| {
        } else if s.additional.None? {
          errors := errors + [Error(propPath, UnexpectedProperty)];
        } else {
          Validate(e.value, s.additional.value, propPath);
        }
      }
    }

    method ValidateArray(instance: Value, s: Schema, path: string)
      requires Acyclic(types) && instance.List? && s.ArrayOf?
      modifies this
      ensures errors == old(errors) + (CountErrors(|instance.items|, s.minItems, s.maxItems, path)
                                       + ItemErrors(types, instance, s, 0, path))
      decreases instance, 0, s, 1, 1
    {
      hide Errors, ItemErrors;
      var size := |instance.items|;
      if s.minItems.Some? && size < s.minItems.value {
        errors := errors + [Error(path, ArrayMinItems(s.minItems.value))];
      }
      if s.maxItems.Some? && size > s.maxItems.value {
        errors := errors + [Error(path, ArrayMaxItems(s.maxItems.value))];
      }
      assert errors == old(errors) + CountErrors(|instance.items|, s.minItems, s.maxItems, path);
      hide CountErrors;
      ValidateItems(instance, s, path);
    }

    method ValidateItems(instance: Value, s: Schema, path: string)
      requires Acyclic(types) && instance.List? && s.ArrayOf?
      modifies this
      ensures errors == old(errors) + ItemErrors(types, instance, s, 0, path)
      decreases instance, 0, s, 1, 0
    {
      hide Errors, IntText, Child, Rank, ChoicesRank, Acyclic;
      for j := 0 to |instance.items|
        invariant errors + ItemErrors(types, instance, s, j, path) == old(errors) + ItemErrors(types, instance, s, 0, path)
      {
        Validate(instance.items[j], s.item, Child(path, IntText(j)));
      }
    }

    method ValidateTuple(instance: Value, s: Schema, path: string)
      requires Acyclic(types) && instance.List? && s.Tuple?
      modifies this
      ensures errors == old(errors) + if TupleStops(instance, s.items, 0) then TupleErrors(types, instance, s, 0, path)
                                      else TupleErrors(types, instance, s, 0, path) + SurplusErrors(types, instance, s, path)
      decreases instance, 0, s, 1, |instance.items| + 3
    {
      hide Errors, SurplusErrors, TupleErrors, TupleStops;
      var stopped := ValidateTupleItems(instance, s, path);
      if !stopped {
        ValidateSurplus(instance, s, path);
      }
    }

    method ValidateTupleItems(instance: Value, s: Schema, path: string) returns (stopped: bool)
      requires Acyclic(types) && instance.List? && s.Tuple?
      modifies this
      ensures errors == old(errors) + TupleErrors(types, instance, s, 0, path)
      ensures stopped == TupleStops(instance, s.items, 0)
      decreases instance, 0, s, 1, 0
    {
      hide Errors, IntText, Child, Rank, ChoicesRank, Acyclic;
      for i := 0 to |s.items|
        invariant errors + TupleErrors(types, instance, s, i, path) == old(errors) + TupleErrors(types, instance, s, 0, path)
        invariant TupleStops(instance, s.items, i) == TupleStops(instance, s.items, 0)
      {
        TupleStep(types, instance, s, i, path, errors);
        var itemPath := Child(path, IntText(i));
        hide TupleErrors;
        if i < |instance.items| && !instance.items[i].Null? {
          Validate(instance.items[i], s.items[i].schema, itemPath);
        } else if !s.items[i].optional {
          errors := errors + [Error(itemPath, ItemRequired)];
          return true;
        }
      }
      return false;
    }

    method ValidateSurplus(instance: Value, s: Schema, path: string)
      requires Acyclic(types) && instance.List? && s.Tuple?
      modifies this
      ensures errors == old(errors) + SurplusErrors(types, instance, s, path)
      decreases instance, 0, s, 1, |instance.items| + 2
    {
      hide Errors, RestErrors;
      if Extra(types, s.additional) {
        return;
      }
      var tupleSize, size := |s.items|, |instance.items|;
      if s.additional.Some? {
        if tupleSize < size {
          ValidateRest(instance, s, path);
        }
      } else if size > tupleSize {
        errors := errors + [Error(path, ArrayMaxItems(tupleSize))];
      }
    }

    method ValidateRest(instance: Value, s: Schema, path: string)
      requires Acyclic(types) && instance.List? && s.Tuple? && s.additional.Some? && |s.items| <= |instance.items|
      modifies this
      ensures errors == old(errors) + RestErrors(types, instance, s, |s.items|, path)
      decreases instance, 0, s, 1, 0
    {
      hide Errors, RestErrors, IntText, Child, Rank, ChoicesRank, Acyclic;
      NoRest(types, instance, s, path);
      for j := |s.items| to |instance.items|
        invariant errors + RestErrors(types, instance, s, j, path)
               == old(errors) + RestErrors(types, instance, s, |s.items|, path)
      {
        RestStep(types, instance, s, j, path, errors);
        Validate(instance.items[j], s.additional.value, Child(path, IntText(j)));
      }
    }

    method ValidateString(instance: Value, min: Option<nat>, max: Option<nat>, path: string)
      requires instance.Str?
      modifies this
      ensures errors == old(errors) + LengthErrors(|instance.s|, min, max, path)
    {
      var size := |instance.s|;
      if min.Some? && size < min.value {
        errors := errors + [Error(path, StringMinLength(min.value))];
      }
      if max.Some? && size > max.value {
        errors := errors + [Error(path, StringMaxLength(max.value))];
      }
    }

    method ValidateNumber(instance: Value, min: Option<real>, max: Option<real>, path: string)
      requires IsNumber(instance)
      modifies this
      ensures errors == old(errors) + RangeErrors(NumberOf(instance), min, max, path)
    {
      var value := NumberOf(instance);
      if min.Some? && value < min.value {
        errors := errors + [Error(path, NumberMinimum(min.value))];
      }
      if max.Some? && value > max.value {
        errors := errors + [Error(path, NumberMaximum(max.value))];
      }
    }

    method ValidateType(instance: Value, expected: TypeName, path: string) returns (matches: bool)
      modifies this
      ensures matches == TypeMatches(expected, TypeOf(instance))
      ensures errors == old(errors) + if matches then [] else [Error(path, InvalidType(expected, TypeOf(instance)))]
      ensures matches && expected.ObjectType? ==> instance.Dict?
      ensures matches && expected.ArrayType? ==> instance.List?
      ensures matches && expected.StringType? ==> instance.Str?
      ensures matches && (expected.NumberType? || expected.IntegerType?) ==> IsNumber(instance)
    {
      var actual := TypeOf(instance);
      matches := expected == actual || (expected.NumberType? && actual.IntegerType?);
      if !matches {
        errors := errors + [Error(path, InvalidType(expected, actual))];
      }
    }
  }
}
