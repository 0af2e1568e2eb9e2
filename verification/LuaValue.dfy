/** Lua values as the decoder builds them, and the outcomes of a parsing step. */
module LuaValue {
  import opened Bytes

  /** Table keys. `KOther` stands for every key that is neither a number nor a string. */
  datatype Key = KNum(n: real) | KStr(s: bytes) | KOther(tag: int)

  /** A table is the finite map of its non-nil entries, so an empty array and an empty object
      are the same value and an array holding a nil has a hole. */
  datatype Value = Nil | Bool(b: bool) | Num(r: real) | Str(s: bytes) | Table(fields: map<Key, Value>)

  /** `t[k] = v`: assigning nil removes the entry. */
  function Put(t: map<Key, Value>, k: Key, v: Value): (r: map<Key, Value>)
    ensures forall k' :: k' != k ==> (k' in r <==> k' in t) && (k' in t ==> r[k'] == t[k'])
    ensures k in r <==> !v.Nil?
    ensures k in r ==> r[k] == v
  {
    if v.Nil? then t - {k} else t[k := v]
  }

  datatype ErrorKind =
    | ControlCharacter | InvalidUnicodeEscape | InvalidEscape | ExpectedClosingQuote
    | InvalidNumber | InvalidLiteral | ExpectedArrayNext | ExpectedKey | ExpectedColon
    | ExpectedObjectNext | UnexpectedCharacter | TrailingGarbage
    | InvalidCodepoint   // error() in codepoint_to_utf8
    | ConcatenateNil     // a Lua run-time error, not one the decoder raises itself

  datatype Parsed<+T> = Ok(value: T, next: nat) | Err(kind: ErrorKind, at: nat) {
    /** Applies `f` to the value of a success. */
    function Map<U>(f: T -> U): (r: Parsed<U>)
      ensures Ok? ==> r == Parsed.Ok(f(value), next)
      ensures Err? ==> r == Parsed.Err(kind, at)
    {
      match this
      case Ok(v, n) => Parsed.Ok(f(v), n)
      case Err(k, i) => Parsed.Err(k, i)
    }
  }
}
