/**
 * The dynamic Ruby data the exporter reads: content-state hashes, entity
 * descriptors, configuration maps.  Hashes compare by contents, as Ruby's
 * `Hash#==` does, so they are modelled by Dafny maps.  The few Ruby core
 * methods the exporter calls on such data (`fetch`, `[]`, `key?`, `to_s`)
 * are given here with the errors Ruby raises for them.
 */
module RubyValues {

  datatype Option<+T> = None | Some(value: T)

  /** Ruby's exceptions, as far as the exporter can raise them. */
  datatype Error =
    | KeyError(key: Value)                        // Hash#fetch of an absent key
    | NoMethodOnNil(selector: string)             // a method called on nil
    | WrongReceiver(selector: string)             // receiver or argument of the wrong class
    | InvalidEntity(expected: Value, got: Value)  // an entity stop that does not match the open entity
    | Unsupported(what: string)                   // a form this model does not cover

  datatype Result<+T> = Ok(value: T) | Err(error: Error) {
    predicate IsFailure() { Err? }
    function PropagateFailure<U>(): Result<U> requires Err? { Err(error) }
    function Extract(): T requires Ok? { value }
  }

  /** A Ruby object as found in the exporter's inputs. */
  datatype Value =
    | Nil
    | Bool(b: bool)
    | Int(i: int)
    | Str(s: string)
    | Sym(name: string)
    | Hash(h: map<Value, Value>)
    | Array(a: seq<Value>)

  /** A hash entry that may be absent, present with nil, or present with a value. */
  datatype Field<+T> = Missing | NilField | Present(value: T)

  /** Ruby truthiness: everything except nil and false. */
  predicate Truthy(v: Value) {
    v != Nil && v != Bool(false)
  }

  function Digit(d: nat): (c: char)
    requires d < 10
    ensures '0' <= c <= '9'
  {
    "0123456789"[d]
  }

  function NatToString(n: nat): (s: string)
    ensures |s| >= 1
    ensures forall k :: 0 <= k < |s| ==> '0' <= s[k] <= '9'
    decreases n
  {
    if n < 10 then [Digit(n)] else NatToString(n / 10) + [Digit(n % 10)]
  }

  /** `Integer#to_s`: decimal digits, with a leading minus sign for negatives. */
  function IntToString(i: int): (s: string)
    ensures |s| >= 1
    ensures (s[0] == '-') <==> i < 0
  {
    if i < 0 then "-" + NatToString(-i) else NatToString(i)
  }

  /** `to_s` of a scalar; hashes and arrays print via `inspect`, which is not modelled. */
  function ToS(v: Value): (r: Option<string>)
    ensures r.None? <==> v.Hash? || v.Array?
    ensures v.Str? ==> r == Some(v.s)
    ensures v.Sym? ==> r == Some(v.name)
    ensures v == Nil ==> r == Some("")
  {
    match v
    case Nil => Some("")
    case Bool(b) => Some(if b then "true" else "false")
    case Int(i) => Some(IntToString(i))
    case Str(s) => Some(s)
    case Sym(n) => Some(n)
    case Hash(_) => None
    case Array(_) => None
  }

  /** `receiver.fetch(key)`: the entry, or KeyError when the hash has no such key. */
  function Fetch(receiver: Value, key: Value): (r: Result<Value>)
    ensures r.Ok? <==> receiver.Hash? && key in receiver.h
    ensures r.Ok? ==> r.value == receiver.h[key]
    ensures receiver.Hash? && key !in receiver.h ==> r == Err(KeyError(key))
  {
    match receiver
    case Hash(h) => if key in h then Ok(h[key]) else Err(KeyError(key))
    case Nil => Err(NoMethodOnNil("fetch"))
    case _ => Err(WrongReceiver("fetch"))
  }

  /** `receiver.fetch(key, default)`: the entry, or the default when absent. */
  function FetchOr(receiver: Value, key: Value, default: Value): (r: Result<Value>)
    ensures r.Ok? <==> receiver.Hash?
    ensures receiver.Hash? ==> r.value == if key in receiver.h then receiver.h[key] else default
  {
    match receiver
    case Hash(h) => Ok(if key in h then h[key] else default)
    case Nil => Err(NoMethodOnNil("fetch"))
    case _ => Err(WrongReceiver("fetch"))
  }

  /** `receiver[key]` on a hash (nil when absent) or on an array (Ruby's negative indexing). */
  function Index(receiver: Value, key: Value): (r: Result<Value>)
    ensures receiver.Hash? ==> r == Ok(if key in receiver.h then receiver.h[key] else Nil)
    ensures receiver.Array? && key.Int? && 0 <= key.i < |receiver.a| ==> r == Ok(receiver.a[key.i])
    ensures receiver.Array? && key.Int? && key.i >= |receiver.a| ==> r == Ok(Nil)
  {
    match receiver
    case Hash(h) => Ok(if key in h then h[key] else Nil)
    case Array(a) =>
      if !key.Int? then Err(WrongReceiver("[]"))
      else
        var j := if key.i < 0 then key.i + |a| else key.i;
        Ok(if 0 <= j < |a| then a[j] else Nil)
    case Nil => Err(NoMethodOnNil("[]"))
    case Bool(_) => Err(WrongReceiver("[]"))
    case _ => Err(Unsupported("[] on a string, symbol or integer"))
  }

  /** `receiver.key?(key)`. */
  function HasKey(receiver: Value, key: Value): (r: Result<bool>)
    ensures r.Ok? <==> receiver.Hash?
    ensures r.Ok? ==> (r.value <==> key in receiver.h)
  {
    match receiver
    case Hash(h) => Ok(key in h)
    case Nil => Err(NoMethodOnNil("key?"))
    case _ => Err(WrongReceiver("key?"))
  }

  /** A plain Dafny map lookup that yields nil for an absent key (`hash.fetch(key, nil)`). */
  function Get(m: map<Value, Value>, key: Value): (r: Value)
    ensures key in m ==> r == m[key]
    ensures key !in m ==> r == Nil
  {
    if key in m then m[key] else Nil
  }
}
