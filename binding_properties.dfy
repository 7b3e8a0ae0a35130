/** What each handler of zstd_binding.cc promises, one call at a time:
    arity first, nothing done on a rejected call, which transform is
    chosen, the default level, how the output buffer is sized, the
    decompression ceiling, and the trimmed result. */
module BindingProperties {
  import opened Host
  import opened Zstd
  import opened Reply
  import opened Binding

  /** Argument shapes compress gets past its checks with. */
  predicate CompressAccepts(args: seq<Value>) {
    && 1 <= |args| <= 2
    && args[0].Bytes?
    && (|args| == 2 ==> args[1].Num? || args[1].External?)
  }

  /** Argument shapes decompress gets past its checks with. */
  predicate DecompressAccepts(args: seq<Value>) {
    && 1 <= |args| <= 2
    && args[0].Bytes?
    && (|args| == 2 ==> args[1].External?)
  }

  /** A run that throws and does nothing else: no codec query, no
      allocation, no transform. */
  predicate Refused(r: Run) {
    r.verdict.Thrown? && r.effects == []
  }

  // ---------------------------------------------------------------- compress

  /** A call with a bad argument count throws before anything else is
      looked at, and does nothing else. */
  lemma CompressArity(codec: Codec, cctx: Pointer, args: seq<Value>)
    requires WellFormedArgs(args)
    requires |args| < 1 || |args| > 2
    ensures CompressSpec(codec, cctx, args) == Run(Thrown(WRONG_ARITY), [])
  {
    CompressValidation(args);
  }

  /** compress throws exactly when its arguments are not accepted, and a
      call that throws neither queries the codec nor allocates. */
  lemma CompressRejection(codec: Codec, cctx: Pointer, args: seq<Value>)
    requires WellFormedArgs(args)
    ensures CompressSpec(codec, cctx, args).verdict.Thrown? <==> !CompressAccepts(args)
    ensures Refused(CompressSpec(codec, cctx, args)) <==> !CompressAccepts(args)
  {
    CompressValidation(args);
  }

  /** An accepted call asks for the bound of the input length, allocates
      exactly that many bytes, and then runs one transform over exactly the
      input view, into that capacity, with the shared context. The
      dictionary transform is chosen if and only if a second argument is
      an External; otherwise the level is the given number, or 1. */
  lemma CompressPath(codec: Codec, cctx: Pointer, args: seq<Value>)
    requires WellFormedArgs(args) && CompressAccepts(args)
    ensures var r := CompressSpec(codec, cctx, args);
      && |r.effects| == 3
      && r.effects[0] == AskBound(args[0].length)
      && r.effects[1] == Allocate(codec.compressBound(args[0].length))
      && r.effects[2].Invoke?
      && var call := r.effects[2].call;
      && call.cctx == cctx
      && call.src == args[0].buffer[args[0].byteOffset .. args[0].byteOffset + args[0].length]
      && call.capacity == codec.compressBound(args[0].length)
      && (call.CompressUsingCDict? <==> |args| == 2 && args[1].External?)
      && (call.CompressUsingCDict? ==> call.cdict == args[1].pointer)
      && (call.CompressCCtx? ==> call.level == if |args| == 2 then args[1].number else 1)
      && (call.CompressUsingCDict? || call.CompressCCtx?)
  {
    CompressValidation(args);
  }

  /** After the transform, CHECK_ZSTD sees its status before anything is
      returned; on success the result is the produced bytes, no more than
      the allocated capacity, over a store of that capacity. */
  lemma CompressTrimming(codec: Codec, cctx: Pointer, args: seq<Value>)
    requires codec.WellBehaved()
    requires WellFormedArgs(args) && CompressAccepts(args)
    ensures var r := CompressSpec(codec, cctx, args);
      var status := codec.transform(r.effects[2].call);
      && (r.verdict.CodecFailed? <==> status.Failure?)
      && (status.Failure? ==> r.verdict.code == status.code)
      && (status.Written? ==>
            && r.verdict == Returned(codec.compressBound(args[0].length), status.bytes)
            && |status.bytes| <= codec.compressBound(args[0].length))
  {
    CompressPath(codec, cctx, args);
    var r := CompressSpec(codec, cctx, args);
    assert Fits(r.effects[2].call, codec.transform(r.effects[2].call));
  }

  // -------------------------------------------------------------- decompress

  /** With no arguments the arity check passes (it only rejects more than
      two), and it is the first-argument check that throws. */
  lemma DecompressWithoutArguments(codec: Codec, dctx: Pointer)
    ensures DecompressSpec(codec, dctx, []) == Run(Thrown(DECOMPRESS_FIRST_ARG), [])
  {
    DecompressValidation([]);
  }

  /** decompress refuses exactly the argument shapes it does not accept;
      an accepted call starts by asking for the declared content size of
      exactly the input view. */
  lemma DecompressRejection(codec: Codec, dctx: Pointer, args: seq<Value>)
    requires WellFormedArgs(args)
    ensures Refused(DecompressSpec(codec, dctx, args)) <==> !DecompressAccepts(args)
    ensures DecompressAccepts(args) ==>
      DecompressSpec(codec, dctx, args).effects[0] == AskFrameSize(Contents(args[0]))
  {
    DecompressValidation(args);
  }

  /** The declared content size goes through CHECK_ZSTD first; then a
      size above 32 MiB throws before anything is allocated, and a size of
      at most 32 MiB is allocated exactly. */
  lemma DecompressCeiling(codec: Codec, dctx: Pointer, args: seq<Value>)
    requires WellFormedArgs(args) && DecompressAccepts(args)
    ensures var src := Contents(args[0]);
      var r := DecompressSpec(codec, dctx, args);
      match codec.getFrameContentSize(src)
      case SizeError(code) => r == Run(CodecFailed(code), [AskFrameSize(src)])
      case Declared(size) =>
        && (size > 33554432 ==> r == Run(Thrown(TOO_LARGE), [AskFrameSize(src)]))
        && (size <= 33554432 ==> |r.effects| == 3 && r.effects[..2] == [AskFrameSize(src), Allocate(size)])
  {
    DecompressValidation(args);
  }

  /** Once the size is allowed, one transform runs over exactly the input
      view into the allocated capacity with the shared context, and it is
      the dictionary transform if and only if two arguments were given. */
  lemma DecompressPath(codec: Codec, dctx: Pointer, args: seq<Value>)
    requires WellFormedArgs(args) && DecompressAccepts(args)
    requires codec.getFrameContentSize(Contents(args[0])).Declared?
    requires codec.getFrameContentSize(Contents(args[0])).size <= CEILING
    ensures var r := DecompressSpec(codec, dctx, args);
      var size := codec.getFrameContentSize(Contents(args[0])).size;
      && r.effects[2].Invoke?
      && var call := r.effects[2].call;
      && call.dctx == dctx
      && call.src == args[0].buffer[args[0].byteOffset .. args[0].byteOffset + args[0].length]
      && call.capacity == size
      && (call.DecompressUsingDDict? <==> |args| == 2)
      && (call.DecompressUsingDDict? ==> call.ddict == args[1].pointer)
      && (call.DecompressUsingDDict? || call.DecompressDCtx?)
  {
    DecompressCeiling(codec, dctx, args);
  }

  /** After the transform, CHECK_ZSTD sees its status; on success the
      result is exactly the produced bytes over a store of the declared
      size, and they fit in it. */
  lemma DecompressTrimming(codec: Codec, dctx: Pointer, args: seq<Value>)
    requires codec.WellBehaved()
    requires WellFormedArgs(args) && DecompressAccepts(args)
    requires codec.getFrameContentSize(Contents(args[0])).Declared?
    requires codec.getFrameContentSize(Contents(args[0])).size <= CEILING
    ensures var r := DecompressSpec(codec, dctx, args);
      var status := codec.transform(r.effects[2].call);
      && (r.verdict.CodecFailed? <==> status.Failure?)
      && (status.Failure? ==> r.verdict.code == status.code)
      && (status.Written? ==>
            && r.verdict == Returned(codec.getFrameContentSize(Contents(args[0])).size, status.bytes)
            && |status.bytes| <= codec.getFrameContentSize(Contents(args[0])).size)
  {
    DecompressPath(codec, dctx, args);
    var r := DecompressSpec(codec, dctx, args);
    assert Fits(r.effects[2].call, codec.transform(r.effects[2].call));
  }

  // ---------------------------------------------------- dictionary builders

  /** createCDict builds from exactly the input view at the given level, or
      1 without a second argument, and wraps whatever pointer the codec
      returns, null included. */
  lemma CreateCDictResult(codec: Codec, args: seq<Value>)
    requires WellFormedArgs(args)
    ensures var r := CreateCDictSpec(codec, args);
      && (r.verdict.Thrown? <==> !(1 <= |args| <= 2 && args[0].Bytes? && (|args| == 2 ==> args[1].Num?)))
      && (r.verdict.Thrown? ==> r.effects == [])
      && (r.verdict.ReturnedExternal? ==>
            var level := if |args| == 2 then args[1].number else 1;
            && r.effects == [BuildCDict(Contents(args[0]), level)]
            && r.verdict.pointer == codec.createCDict(Contents(args[0]), level)
            && (codec.createCDict(Contents(args[0]), level) == NULL ==> r.verdict == ReturnedExternal(NULL)))
  {
    CreateCDictValidation(args);
  }

  /** createDDict takes exactly one Uint8Array and wraps whatever pointer
      the codec returns, null included. */
  lemma CreateDDictResult(codec: Codec, args: seq<Value>)
    requires WellFormedArgs(args)
    ensures var r := CreateDDictSpec(codec, args);
      && (r.verdict.Thrown? <==> !(|args| == 1 && args[0].Bytes?))
      && (|args| != 1 ==> r == Run(Thrown(WRONG_ARITY), []))
      && (r.verdict.ReturnedExternal? ==>
            && r.effects == [BuildDDict(Contents(args[0]))]
            && r.verdict.pointer == codec.createDDict(Contents(args[0]))
            && (codec.createDDict(Contents(args[0])) == NULL ==> r.verdict == ReturnedExternal(NULL)))
  {
    CreateDDictValidation(args);
  }
}
