/** JSON values as the JSON library presents them. Exceptions are results. */
module Json {
  import opened Wrappers

  datatype Result<+T> = Ok(value: T) | Threw {
    predicate IsFailure() { Threw? }

    function PropagateFailure<U>(): Result<U>
      requires Threw?
    {
      Threw
    }

    function Extract(): T
      requires Ok?
    {
      value
    }
  }

  /** Whole numbers only. */
  datatype Json = Null | Bool(b: bool) | Num(n: int) | Str(s: string) | Arr(items: seq<Json>)
                | Obj(fields: map<string, Json>)

  type Int32 = n: int | -0x8000_0000 <= n < 0x8000_0000
  type Port = n: int | 0 <= n < 0x1_0000

  /** contains: false on anything that is not an object. */
  predicate Contains(j: Json, key: string) { j.Obj? && key in j.fields }

  /** get<std::string>. */
  function AsString(j: Json): Result<string> {
    if j.Str? then Ok(j.s) else Threw
  }

  /** get<int>: booleans count as numbers, and larger numbers are cut to 32 bits. */
  function AsInt(j: Json): Result<Int32> {
    match j
    case Num(n) => Ok((n + 0x8000_0000) % 0x1_0000_0000 - 0x8000_0000)
    case Bool(b) => Ok(if b then 1 else 0)
    case _ => Threw
  }

  function AsBool(j: Json): Result<bool> {
    if j.Bool? then Ok(j.b) else Threw
  }

  // value(key, default): throws on anything that is not an object, and on a value of another
  // type under the key.

  function StringOr(j: Json, key: string, default: string): Result<string> {
    if !j.Obj? then Threw else if key in j.fields then AsString(j.fields[key]) else Ok(default)
  }

  function IntOr(j: Json, key: string, default: Int32): Result<Int32> {
    if !j.Obj? then Threw else if key in j.fields then AsInt(j.fields[key]) else Ok(default)
  }

  function BoolOr(j: Json, key: string, default: bool): Result<bool> {
    if !j.Obj? then Threw else if key in j.fields then AsBool(j.fields[key]) else Ok(default)
  }

  /** The conversion of an int to uint16_t. */
  function ToPort(n: Int32): Port { n % 0x1_0000 }
}
