/** hello.cc: the earlier version of the addon. Compression takes a level
    only, decompression takes exactly one argument and has no size ceiling,
    and both use zstd's one-shot entry points, which set up a context of
    their own on every call, instead of shared contexts. */
module Hello {
  import opened Host
  import opened Zstd
  import opened Reply

  const WRONG_ARITY := "Wrong number of arguments"
  const COMPRESS_FIRST_ARG := "First arg must be Uint8Array: data to compress"
  const COMPRESS_SECOND_ARG := "Second arg must be number: compression level"
  const DECOMPRESS_FIRST_ARG := "First arg must be Uint8Array"

  /** The level used when no second argument is given. */
  const DEFAULT_LEVEL: int := 1

  // ---------------------------------------------------------------- compress

  function CompressChecks(args: seq<Value>): seq<Check> {
    [ Check(!(|args| > 2 || |args| < 1), WRONG_ARITY),
      Check(!(|args| >= 1 && !Arg(args, 0).Bytes?), COMPRESS_FIRST_ARG),
      Check(!(|args| >= 2 && !Arg(args, 1).Num?), COMPRESS_SECOND_ARG) ]
  }

  /** `args[1]` is read without a length guard: a missing second argument is
      undefined, not a number, and the level stays 1. */
  function Level(args: seq<Value>): int {
    if Arg(args, 1).Num? then Arg(args, 1).number else DEFAULT_LEVEL
  }

  function CompressSpec(codec: Codec, args: seq<Value>): (r: Run)
    requires WellFormedArgs(args)
    ensures r.verdict.Thrown? <==> r.effects == []
  {
    var checks := CompressChecks(args);
    match Validate(checks)
    case Some(message) => Rejected(message)
    case None =>
      assert checks[0].passes && checks[1].passes;
      var src := Contents(args[0]);
      var capacity := codec.compressBound(|src|);
      var call := OneShotCompress(src, capacity, Level(args));
      Run(Checked(codec.transform(call), capacity), [AskBound(|src|), Allocate(capacity), Invoke(call)])
  }

  lemma CompressValidation(args: seq<Value>)
    ensures Validate(CompressChecks(args)) ==
      if |args| > 2 || |args| < 1 then Some(WRONG_ARITY)
      else if !args[0].Bytes? then Some(COMPRESS_FIRST_ARG)
      else if |args| == 2 && !args[1].Num? then Some(COMPRESS_SECOND_ARG)
      else None
  {
    var checks := CompressChecks(args);
    ValidateStep(checks);
    ValidateStep(checks[1..]);
    ValidateStep(checks[1..][1..]);
  }

  // -------------------------------------------------------------- decompress

  function DecompressChecks(args: seq<Value>): seq<Check> {
    [ Check(!(|args| != 1), WRONG_ARITY),
      Check(Arg(args, 0).Bytes?, DECOMPRESS_FIRST_ARG) ]
  }

  function DecompressSpec(codec: Codec, args: seq<Value>): (r: Run)
    requires WellFormedArgs(args)
    ensures r.verdict.Returned? ==> |args| == 1 && Allocate(r.verdict.capacity) in r.effects
  {
    var checks := DecompressChecks(args);
    match Validate(checks)
    case Some(message) => Rejected(message)
    case None =>
      assert checks[0].passes && checks[1].passes;
      var src := Contents(args[0]);
      match codec.getFrameContentSize(src)
      case SizeError(code) => Run(CodecFailed(code), [AskFrameSize(src)])
      case Declared(size) =>
        var call := OneShotDecompress(src, size);
        Run(Checked(codec.transform(call), size), [AskFrameSize(src), Allocate(size), Invoke(call)])
  }

  lemma DecompressValidation(args: seq<Value>)
    ensures Validate(DecompressChecks(args)) ==
      if |args| != 1 then Some(WRONG_ARITY)
      else if !args[0].Bytes? then Some(DECOMPRESS_FIRST_ARG)
      else None
  {
    var checks := DecompressChecks(args);
    ValidateStep(checks);
    ValidateStep(checks[1..]);
  }

  // ---------------------------------------------------------------- handlers

  method Compress(codec: Codec, args: seq<Value>) returns (out: Outcome, ghost effects: seq<Effect>)
    requires codec.WellBehaved() && WellFormedArgs(args)
    ensures effects == CompressSpec(codec, args).effects
    ensures Realises(out, CompressSpec(codec, args).verdict)
    ensures out.Ok? ==> fresh(out.view.store)
  {
    CompressValidation(args);
    effects := [];
    if |args| > 2 || |args| < 1 {
      return TypeError(WRONG_ARITY), effects;
    }
    if |args| >= 1 && !args[0].Bytes? {
      return TypeError(COMPRESS_FIRST_ARG), effects;
    }
    if |args| >= 2 && !args[1].Num? {
      return TypeError(COMPRESS_SECOND_ARG), effects;
    }

    var compressionLevel := DEFAULT_LEVEL;
    if Arg(args, 1).Num? {
      compressionLevel := Arg(args, 1).number;
    }

    var input := args[0];
    var inSize := input.length;
    var outSize;
    outSize, effects := QueryBound(codec, inSize, effects);
    var backingStore;
    backingStore, effects := NewStore(outSize, effects);

    var call := OneShotCompress(Contents(input), outSize, compressionLevel);
    var outActualSize;
    outActualSize, effects := Transform(codec, call, backingStore, effects);
    if outActualSize.Failure? {
      return CodecFail(outActualSize.code), effects;
    }
    out := Ok(View(backingStore, 0, |outActualSize.bytes|));
  }

  method Decompress(codec: Codec, args: seq<Value>) returns (out: Outcome, ghost effects: seq<Effect>)
    requires codec.WellBehaved() && WellFormedArgs(args)
    ensures effects == DecompressSpec(codec, args).effects
    ensures Realises(out, DecompressSpec(codec, args).verdict)
    ensures out.Ok? ==> fresh(out.view.store)
  {
    DecompressValidation(args);
    effects := [];
    if |args| != 1 {
      return TypeError(WRONG_ARITY), effects;
    }
    if !args[0].Bytes? {
      return TypeError(DECOMPRESS_FIRST_ARG), effects;
    }

    var input := args[0];
    var src := Contents(input);
    var outSize;
    outSize, effects := QueryFrameSize(codec, src, effects);
    if outSize.SizeError? {
      return CodecFail(outSize.code), effects;
    }
    var backingStore;
    backingStore, effects := NewStore(outSize.size, effects);

    var call := OneShotDecompress(src, outSize.size);
    var outActualSize;
    outActualSize, effects := Transform(codec, call, backingStore, effects);
    if outActualSize.Failure? {
      return CodecFail(outActualSize.code), effects;
    }
    out := Ok(View(backingStore, 0, |outActualSize.bytes|));
  }

  // -------------------------------------------------------------- properties

  /** compress refuses a bad argument count, a first argument that is not a
      Uint8Array and a second that is not a number (a dictionary included),
      in that order, and does nothing else when it refuses. */
  lemma CompressRejection(codec: Codec, args: seq<Value>)
    requires WellFormedArgs(args)
    ensures var r := CompressSpec(codec, args);
      && (!(1 <= |args| <= 2) ==> r == Run(Thrown(WRONG_ARITY), []))
      && (1 <= |args| <= 2 && !args[0].Bytes? ==> r == Run(Thrown(COMPRESS_FIRST_ARG), []))
      && (1 <= |args| <= 2 && args[0].Bytes? && |args| == 2 && !args[1].Num? ==>
            r == Run(Thrown(COMPRESS_SECOND_ARG), []))
      && (r.verdict.Thrown? <==> !(1 <= |args| <= 2 && args[0].Bytes? && (|args| == 2 ==> args[1].Num?)))
  {
    CompressValidation(args);
  }

  /** An accepted call allocates the compress bound of the input length and
      compresses exactly the input view at the given level, or 1; the
      result is the produced bytes, within that capacity, after CHECK_ZSTD. */
  lemma CompressPath(codec: Codec, args: seq<Value>)
    requires codec.WellBehaved()
    requires WellFormedArgs(args)
    requires 1 <= |args| <= 2 && args[0].Bytes? && (|args| == 2 ==> args[1].Num?)
    ensures var r := CompressSpec(codec, args);
      var capacity := codec.compressBound(args[0].length);
      var level := if |args| == 2 then args[1].number else 1;
      var call := OneShotCompress(Contents(args[0]), capacity, level);
      && r.effects == [AskBound(args[0].length), Allocate(capacity), Invoke(call)]
      && (r.verdict.CodecFailed? <==> codec.transform(call).Failure?)
      && (codec.transform(call).Written? ==>
            && r.verdict == Returned(capacity, codec.transform(call).bytes)
            && |codec.transform(call).bytes| <= capacity)
  {
    CompressValidation(args);
    var capacity := codec.compressBound(args[0].length);
    var level := if |args| == 2 then args[1].number else 1;
    assert Fits(OneShotCompress(Contents(args[0]), capacity, level),
                codec.transform(OneShotCompress(Contents(args[0]), capacity, level)));
  }

  /** decompress accepts exactly one Uint8Array. */
  lemma DecompressRejection(codec: Codec, args: seq<Value>)
    requires WellFormedArgs(args)
    ensures var r := DecompressSpec(codec, args);
      && (|args| != 1 ==> r == Run(Thrown(WRONG_ARITY), []))
      && (|args| == 1 && !args[0].Bytes? ==> r == Run(Thrown(DECOMPRESS_FIRST_ARG), []))
      && (r.verdict.Thrown? <==> !(|args| == 1 && args[0].Bytes?))
  {
    DecompressValidation(args);
  }

  /** There is no ceiling: whatever size the frame declares passes through
      CHECK_ZSTD and is allocated as it is, and the result is the produced
      bytes within it. */
  lemma DecompressUnbounded(codec: Codec, args: seq<Value>)
    requires codec.WellBehaved()
    requires WellFormedArgs(args) && |args| == 1 && args[0].Bytes?
    ensures var src := Contents(args[0]);
      var r := DecompressSpec(codec, args);
      match codec.getFrameContentSize(src)
      case SizeError(code) => r == Run(CodecFailed(code), [AskFrameSize(src)])
      case Declared(size) =>
        var call := OneShotDecompress(src, size);
        && r.effects == [AskFrameSize(src), Allocate(size), Invoke(call)]
        && (r.verdict.CodecFailed? <==> codec.transform(call).Failure?)
        && (codec.transform(call).Written? ==>
              && r.verdict == Returned(size, codec.transform(call).bytes)
              && |codec.transform(call).bytes| <= size)
  {
    DecompressValidation(args);
    var src := Contents(args[0]);
    if codec.getFrameContentSize(src).Declared? {
      var call := OneShotDecompress(src, codec.getFrameContentSize(src).size);
      assert Fits(call, codec.transform(call));
    }
  }
}
