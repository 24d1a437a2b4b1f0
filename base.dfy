/** Shared vocabulary of the pipeline model: optional values, results carrying the
    errors the engine throws, port values, usages, and JavaScript's 32-bit wrap. */
module Base {

  datatype Option<+T> = None | Some(value: T)

  /** A port value. The engine never looks inside a value; it only copies it,
      compares it with `undefined`, and hands it to operations. */
  datatype Value = Undefined | Datum(token: int)

  /** The two usage classes a port can resolve to. */
  datatype Usage = Static | Dynamic

  /** Every error the modelled code can throw. `TypeError` stands for the JavaScript
      runtime errors the code provokes by reading a property of `undefined` or by
      iterating `undefined`. */
  datatype Error =
    | NoRoots                                   // 'Graph has no roots!'
    | BadGraph                                  // 'Something is wrong with this graph ...'
    | TypeError
    | AssertionFailed                           // a failing `assert(...)` of the node assert module
    | NoSuchNode(node: string)
    | NoSuchComponent(component: string)
    | NoSuchInport(inport: string)
    | NoSuchOutport(outport: string)
    | InvalidUsage(usage: string)
    | InheritWithoutDepends(outport: string)
    | NoCachedOutputUsage(inport: string)
    | OutportDoesNotContainData(onNode: string, outport: string)
    | InportDoesNotContainCache(atNode: string, inport: string)
    | InvalidAttachedUsage(usage: string)
    | DynamicOnStaticInport(inport: string)
    | ContextNoSuchInport(inport: string)
    | ContextNotDependent(inport: string)
    | NotConnected(inport: string)
    | NotStatic(inport: string)
    | NoCompiledValue(outport: string)
    | NoCompileDictionary
    | NoExecuteDictionary
    | NoExecuteRoutine(outport: string)
    | InvalidRuntime(runtime: string)
    | PassWithoutInport(outport: string)
    | PassWithDepends(outport: string)
    | PassWithUsage(outport: string)
    | InheritWithoutDependencies(outport: string)
    | UnknownDependency(dependency: string)
    | StaticDependsOnNonStatic(dependency: string)
    | OperationFailed(code: int)                // an error raised inside a component operation

  datatype Result<+T> = Ok(value: T) | Err(error: Error) {
    predicate IsFailure() { Err? }
    function PropagateFailure<U>(): Result<U> requires Err? { Err(error) }
    function Extract(): T requires Ok? { value }
  }

  function Max(a: int, b: int): int { if a < b then b else a }

  /** `Option<int>` stamps compared as JavaScript compares `number | undefined` with a
      number: `undefined > n` is false. */
  predicate Newer(stamp: Option<int>, than: int) {
    stamp.Some? && stamp.value > than
  }

  const TWO_32: int := 0x1_0000_0000
  const INT32_MIN: int := -0x8000_0000
  const INT32_MAX: int := 0x7fff_ffff

  predicate IsInt32(x: int) { INT32_MIN <= x <= INT32_MAX }

  /** JavaScript's `x | 0` on an integral number: reduction modulo 2^32 into the signed range. */
  function ToInt32(x: int): (r: int)
    ensures IsInt32(r)
    ensures (r - x) % TWO_32 == 0
    ensures IsInt32(x) ==> r == x
  {
    var m := x % TWO_32;
    if m <= INT32_MAX then m else m - TWO_32
  }

  /** Names in a sequence, without duplicates, in order of first occurrence: the
      iteration order of a JavaScript `Set` built from that sequence. */
  function Dedup(s: seq<string>): (r: seq<string>)
    ensures forall x :: x in r <==> x in s
    ensures Distinct(r)
  {
    DedupFrom(s, [])
  }

  function DedupFrom(s: seq<string>, acc: seq<string>): (r: seq<string>)
    requires Distinct(acc)
    ensures forall x :: x in r <==> x in s || x in acc
    ensures Distinct(r)
    ensures |acc| <= |r| && r[..|acc|] == acc
    decreases |s|
  {
    if s == [] then acc
    else if s[0] in acc then DedupFrom(s[1..], acc)
    else DedupFrom(s[1..], acc + [s[0]])
  }

  /** The elements of a sequence, as a set. */
  function Members(s: seq<string>): set<string> {
    set x | x in s
  }

  predicate Distinct<T(==)>(s: seq<T>) {
    forall i, j :: 0 <= i < j < |s| ==> s[i] != s[j]
  }
}
