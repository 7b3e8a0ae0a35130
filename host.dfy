/** JavaScript values as the Node handlers see them, and the early-return
    argument checks every handler starts with. */
module Host {

  /** An element of a Uint8Array. */
  newtype byte = b: int | 0 <= b < 256

  /** A raw address, as held by a v8::External or a codec context; 0 is null. */
  type Pointer = nat

  const NULL: Pointer := 0

  datatype Option<T> = None | Some(value: T)

  /** A value passed to a handler, reduced to what the handlers test for:
      a Uint8Array is a view of `length` bytes starting at `byteOffset`
      into its backing buffer. */
  datatype Value =
    | Bytes(buffer: seq<byte>, byteOffset: nat, length: nat)
    | Num(number: int)
    | External(pointer: Pointer)
    | Undefined
    | Other

  /** The host guarantees that a Uint8Array view lies inside its buffer. */
  predicate WellFormed(v: Value) {
    v.Bytes? ==> v.byteOffset + v.length <= |v.buffer|
  }

  predicate WellFormedArgs(args: seq<Value>) {
    forall i :: 0 <= i < |args| ==> WellFormed(args[i])
  }

  /** `args[i]`: reading past `args.Length()` yields undefined. */
  function Arg(args: seq<Value>, i: nat): Value {
    if i < |args| then args[i] else Undefined
  }

  /** The bytes a Uint8Array shows: `length` bytes from its buffer's data
      pointer plus its byte offset. */
  function Contents(v: Value): seq<byte>
    requires v.Bytes? && WellFormed(v)
  {
    v.buffer[v.byteOffset .. v.byteOffset + v.length]
  }

  /** One argument check: the condition under which the handler goes on,
      and the TypeError message it throws otherwise. */
  datatype Check = Check(passes: bool, message: string)

  /** The index of the first check that fails, or |checks| when all pass. */
  function FirstFailing(checks: seq<Check>): (k: nat)
    ensures k <= |checks|
    ensures forall j :: 0 <= j < k ==> checks[j].passes
    ensures k < |checks| ==> !checks[k].passes
  {
    if checks == [] || !checks[0].passes then 0 else 1 + FirstFailing(checks[1..])
  }

  /** Running the checks in order and returning at the first failure: the
      message thrown, or None when the handler gets past all of them. */
  function Validate(checks: seq<Check>): (r: Option<string>)
    ensures r.None? <==> forall j :: 0 <= j < |checks| ==> checks[j].passes
    ensures r.Some? ==> exists j :: 0 <= j < |checks| && !checks[j].passes && r.value == checks[j].message
  {
    var k := FirstFailing(checks);
    if k < |checks| then Some(checks[k].message) else None
  }

  /** Validate is the cascade of early returns: the first check decides if
      it fails, and otherwise the remaining checks run in order. */
  lemma ValidateStep(checks: seq<Check>)
    requires checks != []
    ensures Validate(checks) ==
      if !checks[0].passes then Some(checks[0].message) else Validate(checks[1..])
  {
    if checks[0].passes {
      var k := FirstFailing(checks[1..]);
      assert FirstFailing(checks) == 1 + k;
    }
  }
}
