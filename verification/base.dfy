/** The entities of the preprocessor's `base` module that the task index and
    the static extensions share. */
module Base {

  /** A tuple component or stored value: an object name, an integer, or
      Python's `None` (the value attached to a predicate fact). */
  datatype Val = Obj(name: string) | Num(n: int) | Nil

  /** A predicate (value type `bool`) or a function with a declared value type. */
  datatype Symbol =
    | Predicate(name: string, argTypes: seq<string>)
    | Function(name: string, argTypes: seq<string>, typ: string)
  {
    function Arity(): nat {
      |argTypes|
    }
  }

  const BoolType := "bool"

  /** The value type recorded for a symbol in the symbol-type table. */
  function ValueType(s: Symbol): string {
    match s
    case Predicate(_, _) => BoolType
    case Function(_, _, t) => t
  }

  datatype Variable = Variable(symbol: string, args: seq<Val>)

  /** An initial fluent atom: a ground variable and its value. */
  datatype Atom = Atom(variable: Variable, value: Val)
}
