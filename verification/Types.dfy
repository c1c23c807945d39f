/** The values that clients, service threads and the wire share (message.hpp, tuple.hpp). */
module Types {

  // std::string holds text and wire bytes alike: a character is one byte.
  type Byte = c: char | c as int < 256 witness 'a'
  type Bytes = seq<Byte>

  type Int32 = x: int | -0x8000_0000 <= x < 0x8000_0000
  type UInt32 = x: int | 0 <= x < 0x1_0000_0000

  // A double is its IEEE 754 bit pattern; Patterns.CompareDouble gives its order.
  type Double = x: int | 0 <= x < 0x1_0000_0000_0000_0000

  const TERM: Byte := '$'

  datatype Option<+T> = None | Some(value: T)

  datatype Result<+T> = Ok(value: T) | Err(error: Error)

  // One constructor for each way the modelled code can fail.
  datatype Error =
    | NoMessageFound
    | NotEnoughBytes
    | UnknownElemType
    | NotDefinedPattern
    | InvalidArgument
    | OutOfRange
    | NotFoundOpen
    | NotFoundClose
    | NotFoundText
    | NotFoundEndText
    | NotFoundEndPattern
    | NotDefinedTupleElem
    | UnexpectedCharacter
    | UnexpectedTail
    | UnrecognizedCommand
    | BadVariantAccess
    // The code indexes a string at std::string::npos here: undefined behaviour.
    | IndexedPastEnd

  datatype TupleElem = IntElem(i: Int32) | FloatElem(d: Double) | StrElem(s: Bytes)

  type Tuple = seq<TupleElem>

  datatype Operator =
    | All
    | Equal
    | NotEqual
    | GreaterThan
    | LessThan
    | NotGreaterThan
    | NotLessThan

  datatype Pattern = Pattern(value: TupleElem, op: Operator)

  // std::to_string(double) and std::stod are outside the model.
  datatype FloatText = FloatText(format: Double -> Bytes, scan: Bytes -> Option<Double>)

  // A parsed command: the operation and its elements or patterns.
  datatype Command =
    | Write(tuple: Tuple)
    | Read(pattern: seq<Pattern>)
    | Input(pattern: seq<Pattern>)

  function RemoveAt<T>(s: seq<T>, i: nat): seq<T>
    requires i < |s|
  {
    s[..i] + s[i + 1..]
  }
}
