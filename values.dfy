/** Values that the breakpoint engine passes around: Python's optional values and the
    variables a caller exposes to the logging hook and to the interactive console. */
module Values {

  datatype Option<+T> = None | Some(value: T)

  /** A Python value as far as the engine needs one: it only stores, forwards and shows them. */
  datatype Value =
    | NoneValue
    | BoolValue(b: bool)
    | IntValue(i: int)
    | StrValue(s: string)
    | TupleValue(items: seq<Value>)
    | DictValue(entries: map<string, Value>)

  /** The variables of a frame, by name. */
  type Locals = map<string, Value>

  /** A wrapped Python callable: positional and keyword arguments to a result. */
  type Callable = (seq<Value>, map<string, Value>) -> Value
}
