/** The zstd library as the handlers use it. Its algorithms are not part of
    this model: each entry point is an arbitrary function, and the only
    thing assumed of them is that a transform never reports writing more
    bytes than the capacity it was given. */
module Zstd {
  import opened Host

  /** One call into a zstd transform, with everything the handler passes:
      the context, the source bytes, the destination capacity and either a
      level or a dictionary pointer. */
  datatype Call =
    | CompressCCtx(cctx: Pointer, src: seq<byte>, capacity: nat, level: int)
    | CompressUsingCDict(cctx: Pointer, src: seq<byte>, capacity: nat, cdict: Pointer)
    | DecompressDCtx(dctx: Pointer, src: seq<byte>, capacity: nat)
    | DecompressUsingDDict(dctx: Pointer, src: seq<byte>, capacity: nat, ddict: Pointer)
    // ZSTD_compress and ZSTD_decompress, which set up a context per call
    | OneShotCompress(src: seq<byte>, capacity: nat, level: int)
    | OneShotDecompress(src: seq<byte>, capacity: nat)
  {
    predicate IsDecompression() {
      DecompressDCtx? || DecompressUsingDDict? || OneShotDecompress?
    }
  }

  /** What a transform returns: the bytes it wrote at the start of the
      destination, or an error code (ZSTD_isError). */
  datatype Status = Written(bytes: seq<byte>) | Failure(code: nat)

  /** What ZSTD_getFrameContentSize returns: a declared size, or one of
      the values that fail CHECK_ZSTD (unknown size, not a frame). */
  datatype FrameSize = Declared(size: nat) | SizeError(code: nat)

  datatype Codec = Codec(
    compressBound: nat -> nat,
    getFrameContentSize: seq<byte> -> FrameSize,
    transform: Call -> Status,
    createCDict: (seq<byte>, int) -> Pointer,
    createDDict: seq<byte> -> Pointer)
  {
    /** The library's promise: a transform fits in the capacity it is given. */
    ghost predicate WellBehaved() {
      forall c: Call :: Fits(c, transform(c))
    }
  }

  predicate Fits(c: Call, s: Status) {
    s.Written? ==> |s.bytes| <= c.capacity
  }

  /** Something a handler does beyond inspecting its arguments: a codec
      query, a buffer allocation, a transform, a dictionary build. */
  datatype Effect =
    | AskBound(srcSize: nat)
    | AskFrameSize(frame: seq<byte>)
    | Allocate(size: nat)
    | Invoke(call: Call)
    | BuildCDict(dict: seq<byte>, level: int)
    | BuildDDict(dict: seq<byte>)

  /** ZSTD_compressBound: the query compress sizes its buffer with. The
      query is recorded in the log of effects the caller threads through. */
  method QueryBound(codec: Codec, srcSize: nat, ghost log: seq<Effect>) returns (size: nat, ghost log': seq<Effect>)
    ensures size == codec.compressBound(srcSize)
    ensures log' == log + [AskBound(srcSize)]
  {
    size := codec.compressBound(srcSize);
    log' := log + [AskBound(srcSize)];
  }

  /** ZSTD_getFrameContentSize: the query decompress sizes its buffer with. */
  method QueryFrameSize(codec: Codec, frame: seq<byte>, ghost log: seq<Effect>) returns (size: FrameSize, ghost log': seq<Effect>)
    ensures size == codec.getFrameContentSize(frame)
    ensures log' == log + [AskFrameSize(frame)]
  {
    size := codec.getFrameContentSize(frame);
    log' := log + [AskFrameSize(frame)];
  }

  /** A new backing store of `size` bytes (NewBackingStore), recorded. */
  method NewStore(size: nat, ghost log: seq<Effect>) returns (store: array<byte>, ghost log': seq<Effect>)
    ensures fresh(store) && store.Length == size
    ensures log' == log + [Allocate(size)]
  {
    store := new byte[size];
    log' := log + [Allocate(size)];
  }

  /** A transform filling a freshly allocated backing store in place; the
      call is recorded. */
  method Transform(codec: Codec, call: Call, dst: array<byte>, ghost log: seq<Effect>) returns (status: Status, ghost log': seq<Effect>)
    requires codec.WellBehaved() && dst.Length == call.capacity
    modifies dst
    ensures status == codec.transform(call)
    ensures status.Written? ==> |status.bytes| <= dst.Length && dst[..|status.bytes|] == status.bytes
    ensures log' == log + [Invoke(call)]
  {
    status := codec.transform(call);
    assert Fits(call, status);
    if status.Written? {
      var out := status.bytes;
      forall k | 0 <= k < |out| {
        dst[k] := out[k];
      }
    }
    log' := log + [Invoke(call)];
  }

  /** ZSTD_createCDict, recorded. */
  method BuildCompressionDict(codec: Codec, dict: seq<byte>, level: int, ghost log: seq<Effect>) returns (p: Pointer, ghost log': seq<Effect>)
    ensures p == codec.createCDict(dict, level)
    ensures log' == log + [BuildCDict(dict, level)]
  {
    p := codec.createCDict(dict, level);
    log' := log + [BuildCDict(dict, level)];
  }

  /** ZSTD_createDDict, recorded. */
  method BuildDecompressionDict(codec: Codec, dict: seq<byte>, ghost log: seq<Effect>) returns (p: Pointer, ghost log': seq<Effect>)
    ensures p == codec.createDDict(dict)
    ensures log' == log + [BuildDDict(dict)]
  {
    p := codec.createDDict(dict);
    log' := log + [BuildDDict(dict)];
  }
}
