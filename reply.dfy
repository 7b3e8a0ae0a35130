/** What a handler call ends in, at two levels: the `Verdict` its
    specification computes, and the `Outcome` a handler method hands back,
    whose returned Uint8Array is a view into a real backing store. */
module Reply {
  import opened Host
  import opened Zstd

  /** The abstract result of one call: a thrown TypeError, a codec error
      reaching CHECK_ZSTD, a Uint8Array of `bytes` over a backing store of
      `capacity` bytes, or an External wrapping a pointer. */
  datatype Verdict =
    | Thrown(message: string)
    | CodecFailed(code: nat)
    | Returned(capacity: nat, bytes: seq<byte>)
    | ReturnedExternal(pointer: Pointer)

  /** A call's verdict together with everything it did, in order. */
  datatype Run = Run(verdict: Verdict, effects: seq<Effect>)

  /** A Uint8Array handed back to JavaScript. */
  datatype View = View(store: array<byte>, byteOffset: nat, length: nat)

  datatype Outcome =
    | TypeError(message: string)
    | CodecFail(code: nat)
    | Ok(view: View)
    | Handle(pointer: Pointer)

  /** A rejected call: it throws and does nothing else. */
  function Rejected(message: string): Run {
    Run(Thrown(message), [])
  }

  /** CHECK_ZSTD on a transform's status, then the returned view trimmed
      to the number of bytes the transform reports. */
  function Checked(status: Status, capacity: nat): Verdict {
    match status
    case Failure(code) => CodecFailed(code)
    case Written(bytes) => Returned(capacity, bytes)
  }

  /** `out` is what a handler method returns for `verdict`: the same
      message, code or pointer, or a view at offset 0 whose length is the
      produced length, over a store of the allocated capacity that holds
      the produced bytes. */
  ghost predicate Realises(out: Outcome, verdict: Verdict)
    reads if out.Ok? then {out.view.store} else {}
  {
    match verdict
    case Thrown(m) => out == TypeError(m)
    case CodecFailed(c) => out == CodecFail(c)
    case ReturnedExternal(p) => out == Handle(p)
    case Returned(capacity, bytes) =>
      && out.Ok?
      && out.view.byteOffset == 0
      && out.view.length == |bytes|
      && out.view.store.Length == capacity
      && |bytes| <= capacity
      && out.view.store[..|bytes|] == bytes
  }
}
