/**
 * The value codec of the accessor: how each field of a record is rewritten
 * between the model's values and the strings stored in a Redis hash
 * (forDb / fromDb in lib/ioredis.js).
 */
module Codec {
  import opened Wrappers

  /** The declared type of a model property, by the name of its constructor. */
  datatype PropType =
    | DateType
    | NumberType
    | BooleanType
    | StringType
    | TextType
    | OtherType(name: string)   // any other constructor name

  /** The model's property definitions; a field missing here has no schema entry. */
  type Schema = map<string, PropType>

  /** A JavaScript field value, as far as the codec distinguishes them. */
  datatype Value =
    | Null                // null or undefined
    | Str(s: string)
    | Num(n: int)
    | Bool(b: bool)
    | Opaque(handle: nat) // an object: a Date, an array, a nested record

  /**
   * The conversions the codec borrows from libraries it does not own, left
   * uninterpreted: JSON.stringify and JSON.parse (None when parse throws),
   * moment(v).toJSON() (None when the date is invalid, where moment gives null),
   * moment(v).toDate(), v.toString() and Number(v).
   */
  datatype Foreign = Foreign(
    stringify: Value -> string,
    parse: Value -> Option<Value>,
    dateToJson: Value -> Option<string>,
    toDate: Value -> Value,
    toStr: Value -> string,
    toNumber: Value -> Value)

  /** JavaScript truthiness of a value. */
  predicate Truthy(v: Value) {
    match v
    case Null => false
    case Str(s) => s != ""
    case Num(n) => n != 0
    case Bool(b) => b
    case Opaque(_) => true
  }

  predicate IsStringType(prop: Option<PropType>) {
    prop == Some(StringType) || prop == Some(TextType)
  }

  /** The schema entry of field k, if it has one. */
  function PropOf(schema: Schema, k: string): Option<PropType> {
    if k in schema then Some(schema[k]) else None
  }

  /**
   * forDb for one field. The result is a string, the form a Redis hash holds,
   * except in three cases the encoder lets through: a falsy Number value is
   * left as it is, a String/Text field keeps whatever value it holds, and an
   * invalid Date becomes null.
   */
  function EncodeField(f: Foreign, prop: Option<PropType>, v: Value): (r: Value)
    ensures !r.Str? ==>
              || (prop == Some(NumberType) && !Truthy(v) && r == v)
              || (IsStringType(prop) && r == v)
              || (prop == Some(DateType) && r == Null)
  {
    if v.Null? then Str("")
    else
      match prop
      case None => Str(f.stringify(v))
      case Some(t) =>
        match t
        case DateType => (match f.dateToJson(v) case Some(s) => Str(s) case None => Null)
        case NumberType => if Truthy(v) then Str(f.toStr(v)) else v
        case BooleanType => Str(if Truthy(v) then "true" else "false")
        case StringType => v
        case TextType => v
        case OtherType(_) => Str(f.stringify(v))
  }

  /**
   * fromDb for one field. Null and the empty string read back as null; a
   * field with no schema entry or a String/Text one reads back unchanged
   * otherwise, and a Boolean field always reads back as a boolean or null.
   */
  function DecodeField(f: Foreign, prop: Option<PropType>, v: Value): (r: Value)
    ensures v.Null? || v == Str("") ==> r == Null
    ensures prop.None? || IsStringType(prop) ==> r == v || r == Null
    ensures prop == Some(BooleanType) ==> r.Null? || r.Bool?
  {
    if v.Null? || v == Str("") then Null
    else
      match prop
      case None => v
      case Some(t) =>
        match t
        case DateType => f.toDate(v)
        case NumberType => f.toNumber(v)
        case BooleanType => Bool(v == Str("true") || v == Str("1"))
        case StringType => v
        case TextType => v
        case OtherType(_) => (match f.parse(v) case Some(x) => x case None => v)
  }

  /** forDb over a whole record: every field rewritten by its own schema entry. */
  function EncodeAll(f: Foreign, schema: Schema, m: map<string, Value>): (r: map<string, Value>)
    ensures r.Keys == m.Keys
    ensures forall k :: k in m && k !in schema ==> r[k].Str?
  {
    map k | k in m :: EncodeField(f, PropOf(schema, k), m[k])
  }

  /** fromDb over a whole record. */
  function DecodeAll(f: Foreign, schema: Schema, m: map<string, Value>): (r: map<string, Value>)
    ensures r.Keys == m.Keys
    ensures forall k :: k in m && k !in schema ==> r[k] == m[k] || r[k] == Null
  {
    map k | k in m :: DecodeField(f, PropOf(schema, k), m[k])
  }

  /** The case rules of forDb, field by field. */
  lemma EncodeRules(f: Foreign, prop: Option<PropType>, v: Value)
    ensures v.Null? ==> EncodeField(f, prop, v) == Str("")
    ensures !v.Null? && (prop.None? || (prop.Some? && prop.value.OtherType?)) ==>
              EncodeField(f, prop, v) == Str(f.stringify(v))
    ensures !v.Null? && prop == Some(BooleanType) ==>
              EncodeField(f, prop, v) == Str(if Truthy(v) then "true" else "false")
    ensures IsStringType(prop) && !v.Null? ==> EncodeField(f, prop, v) == v
    ensures prop == Some(NumberType) && Truthy(v) ==> EncodeField(f, prop, v) == Str(f.toStr(v))
    ensures prop == Some(NumberType) && !v.Null? && !Truthy(v) ==> EncodeField(f, prop, v) == v
  {
  }

  /** The case rules of fromDb, field by field. */
  lemma DecodeRules(f: Foreign, prop: Option<PropType>, v: Value)
    ensures v.Null? || v == Str("") ==> DecodeField(f, prop, v) == Null
    ensures !v.Null? && v != Str("") && prop.None? ==> DecodeField(f, prop, v) == v
    ensures !v.Null? && v != Str("") && prop == Some(NumberType) ==>
              DecodeField(f, prop, v) == f.toNumber(v)
    ensures !v.Null? && v != Str("") && prop == Some(BooleanType) ==>
              DecodeField(f, prop, v) == Bool(v == Str("true") || v == Str("1"))
    ensures !v.Null? && IsStringType(prop) ==> DecodeField(f, prop, v) == (if v == Str("") then Null else v)
    ensures !v.Null? && v != Str("") && prop.Some? && prop.value.OtherType? ==>
              DecodeField(f, prop, v) == (if f.parse(v).Some? then f.parse(v).value else v)
  {
  }

  /** Number.toString and Number agree on n (and 0 survives Number(0)). */
  predicate NumberRoundTrips(f: Foreign, n: int) {
    if n == 0 then f.toNumber(Num(0)) == Num(0)
    else f.toStr(Num(n)) != "" && f.toNumber(Str(f.toStr(Num(n)))) == Num(n)
  }

  /** The values that come back from fromDb(forDb(v)) as they went in. */
  predicate RoundTrips(f: Foreign, prop: Option<PropType>, v: Value) {
    || v.Null?
    || (prop == Some(BooleanType) && v.Bool?)
    || (IsStringType(prop) && v.Str? && v.s != "")
    || (prop == Some(NumberType) && v.Num? && NumberRoundTrips(f, v.n))
    || (prop.Some? && prop.value.OtherType? && !v.Null? && f.stringify(v) != ""
        && f.parse(Str(f.stringify(v))) == Some(v))
  }

  /** fromDb undoes forDb on every field of the kinds RoundTrips names. */
  lemma FieldRoundTrip(f: Foreign, prop: Option<PropType>, v: Value)
    requires RoundTrips(f, prop, v)
    ensures DecodeField(f, prop, EncodeField(f, prop, v)) == v
  {
  }

  /** A Boolean field comes back as the truth value of what was written. */
  lemma BooleanNormalises(f: Foreign, v: Value)
    requires !v.Null?
    ensures DecodeField(f, Some(BooleanType), EncodeField(f, Some(BooleanType), v)) == Bool(Truthy(v))
  {
  }

  /** An empty String or Text comes back as null. */
  lemma EmptyStringBecomesNull(f: Foreign, prop: Option<PropType>)
    requires IsStringType(prop)
    ensures DecodeField(f, prop, EncodeField(f, prop, Str(""))) == Null
  {
  }

  /**
   * A field without a schema entry is JSON-encoded on the way in and left as
   * that JSON text on the way out: a number comes back as a string.
   */
  lemma SchemalessDoesNotRoundTrip(f: Foreign, v: Value)
    requires !v.Null? && f.stringify(v) != ""
    ensures DecodeField(f, None, EncodeField(f, None, v)) == Str(f.stringify(v))
    ensures v.Num? ==> DecodeField(f, None, EncodeField(f, None, v)) != v
  {
  }

  /** Whole records round-trip when each of their fields does. */
  lemma RecordRoundTrip(f: Foreign, schema: Schema, m: map<string, Value>)
    requires forall k :: k in m ==> RoundTrips(f, PropOf(schema, k), m[k])
    ensures DecodeAll(f, schema, EncodeAll(f, schema, m)) == m
  {
    var e := EncodeAll(f, schema, m);
    forall k | k in m
      ensures DecodeField(f, PropOf(schema, k), e[k]) == m[k]
    {
      FieldRoundTrip(f, PropOf(schema, k), m[k]);
    }
  }

  /**
   * Both conversions keep the record's field names, and a field's result
   * depends only on its own value and its own schema entry.
   */
  lemma Fieldwise(f: Foreign, schema: Schema, m1: map<string, Value>, m2: map<string, Value>, k: string)
    requires k in m1 && k in m2 && m1[k] == m2[k]
    ensures EncodeAll(f, schema, m1).Keys == m1.Keys && DecodeAll(f, schema, m1).Keys == m1.Keys
    ensures EncodeAll(f, schema, m1)[k] == EncodeAll(f, schema, m2)[k]
    ensures DecodeAll(f, schema, m1)[k] == DecodeAll(f, schema, m2)[k]
  {
  }

  /** The JavaScript object that forDb and fromDb rewrite in place. */
  class Document {
    var fields: map<string, Value>

    constructor (fields: map<string, Value>)
      ensures this.fields == fields
    {
      this.fields := fields;
    }
  }
}
