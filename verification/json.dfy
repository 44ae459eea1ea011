/**
 * JSON values, and the part of serde's derived `Deserialize` that the
 * crash-report records rely on: a struct is read from a JSON object, a
 * `#[serde(default)]` field falls back to its type's default when its key is
 * absent, an `Option` field also reads `null` as `None`, a field without a
 * default must be present, and keys the record does not declare are ignored.
 * Turning JSON text into a `Json` value is not modelled here.
 */
module Json {
  import opened Wrappers

  datatype Json =
    | Null
    | Bool(b: bool)
    | Number(n: int)
    | Str(s: string)
    | Array(items: seq<Json>)
    | Object(members: map<string, Json>)

  /** The members of a JSON object, by key. */
  type Members = map<string, Json>

  /** Why a document did not decode into a record. */
  datatype DecodeError =
    | Syntax(message: string)
    | InvalidType(expected: string)
    | InvalidValue(expected: string)
    | MissingField(field: string)

  function Describe(e: DecodeError): string {
    match e
    case Syntax(message) => message
    case InvalidType(expected) => "invalid type: expected " + expected
    case InvalidValue(expected) => "invalid value: expected " + expected
    case MissingField(field) => "missing field `" + field + "`"
  }

  const I64_MIN: int := -0x8000_0000_0000_0000
  const I64_MAX: int := 0x7FFF_FFFF_FFFF_FFFF

  /** Rust's `i64`. */
  type I64 = x: int | I64_MIN <= x <= I64_MAX

  function DecodeString(j: Json): Result<string, DecodeError> {
    match j
    case Str(s) => Success(s)
    case _ => Failure(InvalidType("a string"))
  }

  /** An `i64`: a JSON integer in range; a larger one is an invalid value. */
  function DecodeI64(j: Json): Result<I64, DecodeError> {
    match j
    case Number(n) => if I64_MIN <= n <= I64_MAX then Success(n) else Failure(InvalidValue("i64"))
    case _ => Failure(InvalidType("i64"))
  }

  function DecodeBool(j: Json): Result<bool, DecodeError> {
    match j
    case Bool(b) => Success(b)
    case _ => Failure(InvalidType("a boolean"))
  }

  /** An `Option<T>`: `null` is `None`, anything else must decode as a `T`. */
  function DecodeOption<T>(j: Json, decode: Json -> Result<T, DecodeError>): Result<Option<T>, DecodeError> {
    if j.Null? then Success(None)
    else
      var v :- decode(j);
      Success(Some(v))
  }

  /** The elements of a JSON array, each decoded; the first one that fails fails the whole. */
  function DecodeEach<T>(items: seq<Json>, decode: Json -> Result<T, DecodeError>): (r: Result<seq<T>, DecodeError>)
    ensures r.Success? <==> forall i | 0 <= i < |items| :: decode(items[i]).Success?
    ensures r.Success? ==> |r.value| == |items|
    ensures r.Success? ==> forall i | 0 <= i < |items| :: decode(items[i]) == Success(r.value[i])
  {
    if items == [] then Success([])
    else
      var first :- decode(items[0]);
      var rest :- DecodeEach(items[1..], decode);
      var r := [first] + rest;
      assert forall i | 1 <= i < |items| :: items[i] == items[1..][i - 1] && r[i] == rest[i - 1];
      Success(r)
  }

  /** A `Vec<T>`: a JSON array of `T`s. */
  function DecodeVec<T>(j: Json, decode: Json -> Result<T, DecodeError>): Result<seq<T>, DecodeError> {
    match j
    case Array(items) => DecodeEach(items, decode)
    case _ => Failure(InvalidType("a sequence"))
  }

  /** A `HashMap<String, Value>`: any JSON object; its contents are not kept. */
  function DecodeAnyMap(j: Json): Result<(), DecodeError> {
    match j
    case Object(_) => Success(())
    case _ => Failure(InvalidType("a map"))
  }

  /** A struct: a JSON object whose members `fields` reads. */
  function DecodeStruct<T>(j: Json, fields: Members -> Result<T, DecodeError>): Result<T, DecodeError> {
    match j
    case Object(m) => fields(m)
    case _ => Failure(InvalidType("a struct"))
  }

  /** A field of a `#[serde(default)]` struct: an absent key gives `default`. */
  function DefaultField<T>(m: Members, key: string, decode: Json -> Result<T, DecodeError>, default: T): Result<T, DecodeError> {
    if key in m then decode(m[key]) else Success(default)
  }

  /** A field of a struct without `#[serde(default)]`: an absent key is an error. */
  function RequiredField<T>(m: Members, key: string, decode: Json -> Result<T, DecodeError>): Result<T, DecodeError> {
    if key in m then decode(m[key]) else Failure(MissingField(key))
  }

  /** Removing keys never makes a defaulted field fail: the removed ones read as the default, the others as before. */
  lemma DefaultFieldWithout<T>(m: Members, ks: set<string>, key: string, decode: Json -> Result<T, DecodeError>, default: T)
    ensures DefaultField(m - ks, key, decode, default)
            == if key in ks then Success(default) else DefaultField(m, key, decode, default)
  {
  }
}
