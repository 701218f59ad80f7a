/** The shapes the store works with: values that may be `undefined`, calls that may throw,
    converters between values and strings, and the argument of a setter (src/types.ts). */
module Types {

  /** A JavaScript value that may be `undefined`. */
  datatype Maybe<+T> = Undefined | Defined(value: T)

  /** The outcome of a call that may throw an exception. */
  datatype Outcome<+T> = Returned(value: T) | Threw

  /** A JavaScript value other than `undefined`: a string, or any other value, known only by identity.
      Strings get their own case because the store sometimes hands a stringified value to a setter
      that expects a value. */
  datatype Value = Text(s: string) | Other(id: nat)

  /** `Converter<T>`: serialises a value to a string and parses it back; a parse that throws
      yields `Threw`. Nothing relates the two functions to each other. */
  datatype Converter = Converter(stringify: Value -> string, parse: string -> Outcome<Value>)

  /** `SetStateAction<T>`: a new value, or a function from the current value to the new one. */
  datatype Action = Put(v: Maybe<Value>) | Update(f: Maybe<Value> -> Maybe<Value>)

  /** `isUndefined(v) ? v : converter.stringify(v)` */
  function Stringified(c: Converter, v: Maybe<Value>): Maybe<string>
  {
    match v
    case Undefined => Undefined
    case Defined(x) => Defined(c.stringify(x))
  }

  /** `isUndefined(s) ? s : converter.parse(s)`, which throws when the parse does */
  function Parsed(c: Converter, s: Maybe<string>): Outcome<Maybe<Value>>
  {
    match s
    case Undefined => Returned(Undefined)
    case Defined(x) =>
      match c.parse(x)
      case Threw => Threw
      case Returned(v) => Returned(Defined(v))
  }

  /** A string taken as a value (no conversion: the string itself). */
  function AsValue(s: Maybe<string>): Maybe<Value>
  {
    match s
    case Undefined => Undefined
    case Defined(x) => Defined(Text(x))
  }
}
