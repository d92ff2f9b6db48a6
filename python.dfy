/** The small part of Python's value and exception model that the bot's code relies on:
    optional values, the exceptions its code can raise, and the dynamically typed values
    that `command_utility.matches` inspects. */
module Python {

  datatype Option<+T> = None | Some(value: T)

  /** The exceptions the modelled code raises. */
  datatype PyError = IndexError | TypeError | AttributeError | RuntimeError

  /** A computation that either yields a value or raises. */
  datatype Result<+T> = Ok(value: T) | Err(error: PyError)

  /** The Python values that can reach `matches`: `None`, a string, a list, a dictionary
      (string keys in insertion order; a dictionary never repeats a key) and a compiled
      regular expression. */
  datatype PyValue =
    | PyNone
    | PyStr(s: string)
    | PyList(items: seq<PyValue>)
    | PyDict(entries: seq<(string, PyValue)>)
    | PyPattern(pattern: string)

  /** Python truthiness: empty strings, lists and dictionaries and `None` are false. */
  predicate Truthy(v: PyValue) {
    match v
    case PyNone => false
    case PyStr(s) => s != []
    case PyList(items) => items != []
    case PyDict(entries) => entries != []
    case PyPattern(_) => true
  }

  /** What `for x in v` enumerates: the characters of a string (as one-character strings),
      the items of a list, the keys of a dictionary; `None` and a compiled pattern are not
      iterable and raise `TypeError`. */
  function Iterate(v: PyValue): Result<seq<PyValue>> {
    match v
    case PyNone => Err(TypeError)
    case PyStr(s) => Ok(seq(|s|, i requires 0 <= i < |s| => PyStr([s[i]])))
    case PyList(items) => Ok(items)
    case PyDict(entries) => Ok(seq(|entries|, i requires 0 <= i < |entries| => PyStr(entries[i].0)))
    case PyPattern(_) => Err(TypeError)
  }

  /** A list of strings as a Python list value. */
  function StrList(strs: seq<string>): (v: seq<PyValue>)
    ensures |v| == |strs| && forall i :: 0 <= i < |strs| ==> v[i] == PyStr(strs[i])
  {
    seq(|strs|, i requires 0 <= i < |strs| => PyStr(strs[i]))
  }
}
