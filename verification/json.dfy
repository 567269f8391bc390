/** The JSON values the `metadata` form field can hold once parsed, and the two
    languages' views of them that the receivers depend on. Parsing itself is not
    modelled: each receiver is handed its parser as a function. */
module Json {
  import opened Wrappers

  /** A parsed JSON value. Integer literals are kept apart from literals with a
      fraction or an exponent, because Python's parser gives them different types;
      JavaScript does not care. */
  datatype Value =
    | Null
    | Bool(b: bool)
    | Int(i: int)
    | Float(r: real)
    | Str(s: string)
    | Array(items: seq<Value>)
    | Object(members: map<string, Value>)

  /** What a JSON parser makes of a string: a value, or an exception. */
  datatype ParseResult = Malformed | Parsed(value: Value)

  /** The `{}` both receivers start from. */
  const EmptyObject: Value := Object(map[])

  /** JavaScript truthiness of a parsed value (what `x || y` tests). */
  predicate JsTruthy(v: Value)
  {
    match v
    case Null => false
    case Bool(b) => b
    case Int(i) => i != 0
    case Float(r) => r != 0.0
    case Str(s) => s != ""
    case Array(_) => true
    case Object(_) => true
  }

  /** The Python type `json.loads` returns for a value, as `type(v).__name__` spells it. */
  function PyTypeName(v: Value): (name: string)
    ensures v.Object? <==> name == "dict"
  {
    match v
    case Null => "NoneType"
    case Bool(_) => "bool"
    case Int(_) => "int"
    case Float(_) => "float"
    case Str(_) => "str"
    case Array(_) => "list"
    case Object(_) => "dict"
  }

  /** The metadata record a receiver works with, given the raw `metadata` form field.
      An absent or empty field, or one the parser rejects, gives `{}`; the parse
      failure never escapes. */
  function MetadataOf(field: Option<string>, parse: string -> ParseResult): (m: Value)
    ensures field.None? || field == Some("") ==> m == EmptyObject
    ensures field.Some? && parse(field.value).Malformed? ==> m == EmptyObject
    ensures m != EmptyObject ==> field.Some? && parse(field.value) == Parsed(m)
    ensures field.Some? && field.value != "" && parse(field.value).Parsed? ==> m == parse(field.value).value
  {
    match field
    case None => EmptyObject
    case Some(text) =>
      if text == "" then EmptyObject
      else
        match parse(text)
        case Malformed => EmptyObject
        case Parsed(v) => v
  }
}
