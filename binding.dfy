/** zstd_binding.cc: the four handlers the addon exports (compress,
    decompress, createCDict, createDDict), sharing one compression and one
    decompression context for the life of the process.

    Each handler is specified by a function from its arguments to a `Run`:
    the checks it makes, in source order, and what it does once they all
    pass. The class `Addon` holds the shared contexts and implements the
    handlers as the source does, step by step with early returns; its ghost
    `log` records every codec query, allocation, transform and dictionary
    build, so that "nothing happens on a rejected call" is a statement
    about the log. The log is only ever extended by the recording wrappers
    of `Zstd` through which the handlers reach zstd and allocate. */
module Binding {
  import opened Host
  import opened Zstd
  import opened Reply

  const WRONG_ARITY := "Wrong number of arguments"
  const COMPRESS_FIRST_ARG := "First arg must be Uint8Array: data to compress"
  const COMPRESS_SECOND_ARG := "Second arg must be either: compression level or dict"
  const DECOMPRESS_FIRST_ARG := "First arg must be Uint8Array"
  const DECOMPRESS_SECOND_ARG := "Second arg is optional dict to use"
  const TOO_LARGE := "You tried to decompress a large chunk. Streaming mode is not implemented yet"
  const CDICT_FIRST_ARG := "First arg must be Uint8Array: dictionary"
  const CDICT_SECOND_ARG := "Second arg must be number: compression level"
  const DDICT_FIRST_ARG := "First arg must be Uint8Array"

  /** The level used when no number is given. */
  const DEFAULT_LEVEL: int := 1

  /** The largest declared content size decompress allocates (32 MiB). */
  const CEILING: nat := 1024 * 1024 * 32

  // ---------------------------------------------------------------- compress

  function CompressChecks(args: seq<Value>): seq<Check> {
    [ Check(!(|args| > 2 || |args| < 1), WRONG_ARITY),
      Check(!(|args| >= 1 && !Arg(args, 0).Bytes?), COMPRESS_FIRST_ARG),
      Check(!(|args| >= 2 && !Arg(args, 1).Num? && !Arg(args, 1).External?), COMPRESS_SECOND_ARG) ]
  }

  /** The transform compress runs: with the dictionary when the second
      argument is an External, otherwise at the given or default level. */
  function CompressCall(cctx: Pointer, args: seq<Value>, capacity: nat): Call
    requires 1 <= |args| && args[0].Bytes? && WellFormed(args[0])
  {
    var src := Contents(args[0]);
    if |args| >= 2 && args[1].External? then
      CompressUsingCDict(cctx, src, capacity, args[1].pointer)
    else
      var level := if |args| >= 2 && args[1].Num? then args[1].number else DEFAULT_LEVEL;
      CompressCCtx(cctx, src, capacity, level)
  }

  function CompressSpec(codec: Codec, cctx: Pointer, args: seq<Value>): (r: Run)
    requires WellFormedArgs(args)
    ensures r.verdict.Thrown? <==> r.effects == []
  {
    var checks := CompressChecks(args);
    match Validate(checks)
    case Some(message) => Rejected(message)
    case None =>
      assert checks[0].passes && checks[1].passes;
      var src := Contents(args[0]);
      var capacity := codec.compressBound(|src|);
      var call := CompressCall(cctx, args, capacity);
      Run(Checked(codec.transform(call), capacity), [AskBound(|src|), Allocate(capacity), Invoke(call)])
  }

  /** Compress checks the argument count, then the first argument, then the
      second, and throws at the first check that fails. */
  lemma CompressValidation(args: seq<Value>)
    ensures Validate(CompressChecks(args)) ==
      if |args| > 2 || |args| < 1 then Some(WRONG_ARITY)
      else if !args[0].Bytes? then Some(COMPRESS_FIRST_ARG)
      else if |args| == 2 && !args[1].Num? && !args[1].External? then Some(COMPRESS_SECOND_ARG)
      else None
  {
    var checks := CompressChecks(args);
    ValidateStep(checks);
    ValidateStep(checks[1..]);
    ValidateStep(checks[1..][1..]);
  }

  // -------------------------------------------------------------- decompress

  function DecompressChecks(args: seq<Value>): seq<Check> {
    [ Check(!(|args| > 2), WRONG_ARITY),
      Check(Arg(args, 0).Bytes?, DECOMPRESS_FIRST_ARG),
      Check(!(|args| >= 2 && !Arg(args, 1).External?), DECOMPRESS_SECOND_ARG) ]
  }

  /** The transform decompress runs: with the dictionary exactly when two
      arguments are given. */
  function DecompressCall(dctx: Pointer, args: seq<Value>, capacity: nat): Call
    requires 1 <= |args| <= 2 && args[0].Bytes? && WellFormed(args[0])
    requires |args| == 2 ==> args[1].External?
  {
    var src := Contents(args[0]);
    if |args| == 2 then DecompressUsingDDict(dctx, src, capacity, args[1].pointer)
    else DecompressDCtx(dctx, src, capacity)
  }

  function DecompressSpec(codec: Codec, dctx: Pointer, args: seq<Value>): (r: Run)
    requires WellFormedArgs(args)
    ensures r.verdict.Returned? ==> r.verdict.capacity <= CEILING
  {
    var checks := DecompressChecks(args);
    match Validate(checks)
    case Some(message) => Rejected(message)
    case None =>
      assert checks[0].passes && checks[1].passes && checks[2].passes;
      var src := Contents(args[0]);
      match codec.getFrameContentSize(src)
      case SizeError(code) => Run(CodecFailed(code), [AskFrameSize(src)])
      case Declared(size) =>
        if size > CEILING then
          Run(Thrown(TOO_LARGE), [AskFrameSize(src)])
        else
          var call := DecompressCall(dctx, args, size);
          Run(Checked(codec.transform(call), size), [AskFrameSize(src), Allocate(size), Invoke(call)])
  }

  /** Decompress checks only for too many arguments; with none at all,
      `args[0]` is undefined and the first-argument check throws. */
  lemma DecompressValidation(args: seq<Value>)
    ensures Validate(DecompressChecks(args)) ==
      if |args| > 2 then Some(WRONG_ARITY)
      else if |args| == 0 || !args[0].Bytes? then Some(DECOMPRESS_FIRST_ARG)
      else if |args| == 2 && !args[1].External? then Some(DECOMPRESS_SECOND_ARG)
      else None
  {
    var checks := DecompressChecks(args);
    ValidateStep(checks);
    ValidateStep(checks[1..]);
    ValidateStep(checks[1..][1..]);
  }

  // ------------------------------------------------------------- createCDict

  function CreateCDictChecks(args: seq<Value>): seq<Check> {
    [ Check(!(|args| > 2 || |args| < 1), WRONG_ARITY),
      Check(!(|args| >= 1 && !Arg(args, 0).Bytes?), CDICT_FIRST_ARG),
      Check(!(|args| >= 2 && !Arg(args, 1).Num?), CDICT_SECOND_ARG) ]
  }

  /** The level createCDict builds with: `args[1]` is read without a length
      guard, so a missing second argument is undefined and not a number. */
  function CDictLevel(args: seq<Value>): int {
    if Arg(args, 1).Num? then Arg(args, 1).number else DEFAULT_LEVEL
  }

  function CreateCDictSpec(codec: Codec, args: seq<Value>): (r: Run)
    requires WellFormedArgs(args)
    ensures r.verdict.Thrown? || r.verdict.ReturnedExternal?
  {
    var checks := CreateCDictChecks(args);
    match Validate(checks)
    case Some(message) => Rejected(message)
    case None =>
      assert checks[0].passes && checks[1].passes;
      var dict := Contents(args[0]);
      var level := CDictLevel(args);
      Run(ReturnedExternal(codec.createCDict(dict, level)), [BuildCDict(dict, level)])
  }

  lemma CreateCDictValidation(args: seq<Value>)
    ensures Validate(CreateCDictChecks(args)) ==
      if |args| > 2 || |args| < 1 then Some(WRONG_ARITY)
      else if !args[0].Bytes? then Some(CDICT_FIRST_ARG)
      else if |args| == 2 && !args[1].Num? then Some(CDICT_SECOND_ARG)
      else None
  {
    var checks := CreateCDictChecks(args);
    ValidateStep(checks);
    ValidateStep(checks[1..]);
    ValidateStep(checks[1..][1..]);
  }

  // ------------------------------------------------------------- createDDict

  function CreateDDictChecks(args: seq<Value>): seq<Check> {
    [ Check(|args| == 1, WRONG_ARITY),
      Check(Arg(args, 0).Bytes?, DDICT_FIRST_ARG) ]
  }

  function CreateDDictSpec(codec: Codec, args: seq<Value>): (r: Run)
    requires WellFormedArgs(args)
    ensures r.verdict.Thrown? || r.verdict.ReturnedExternal?
  {
    var checks := CreateDDictChecks(args);
    match Validate(checks)
    case Some(message) => Rejected(message)
    case None =>
      assert checks[0].passes && checks[1].passes;
      var dict := Contents(args[0]);
      Run(ReturnedExternal(codec.createDDict(dict)), [BuildDDict(dict)])
  }

  lemma CreateDDictValidation(args: seq<Value>)
    ensures Validate(CreateDDictChecks(args)) ==
      if |args| != 1 then Some(WRONG_ARITY)
      else if !args[0].Bytes? then Some(DDICT_FIRST_ARG)
      else None
  {
    var checks := CreateDDictChecks(args);
    ValidateStep(checks);
    ValidateStep(checks[1..]);
  }

  // ----------------------------------------------------------------- session

  /** A call from JavaScript into one of the four exported handlers. */
  datatype Request =
    | CompressRequest(args: seq<Value>)
    | DecompressRequest(args: seq<Value>)
    | CreateCDictRequest(args: seq<Value>)
    | CreateDDictRequest(args: seq<Value>)

  predicate WellFormedRequests(reqs: seq<Request>) {
    forall i :: 0 <= i < |reqs| ==> WellFormedArgs(reqs[i].args)
  }

  function Serve(codec: Codec, cctx: Pointer, dctx: Pointer, req: Request): Run
    requires WellFormedArgs(req.args)
  {
    match req
    case CompressRequest(args) => CompressSpec(codec, cctx, args)
    case DecompressRequest(args) => DecompressSpec(codec, dctx, args)
    case CreateCDictRequest(args) => CreateCDictSpec(codec, args)
    case CreateDDictRequest(args) => CreateDDictSpec(codec, args)
  }

  /** Everything a sequence of calls does, one call after another. */
  function SessionLog(codec: Codec, cctx: Pointer, dctx: Pointer, reqs: seq<Request>): seq<Effect>
    requires WellFormedRequests(reqs)
  {
    if reqs == [] then []
    else SessionLog(codec, cctx, dctx, reqs[..|reqs| - 1]) + Serve(codec, cctx, dctx, reqs[|reqs| - 1]).effects
  }

  lemma SessionLogSnoc(codec: Codec, cctx: Pointer, dctx: Pointer, reqs: seq<Request>, req: Request)
    requires WellFormedRequests(reqs) && WellFormedArgs(req.args)
    ensures WellFormedRequests(reqs + [req])
    ensures SessionLog(codec, cctx, dctx, reqs + [req])
         == SessionLog(codec, cctx, dctx, reqs) + Serve(codec, cctx, dctx, req).effects
  {
    assert (reqs + [req])[..|reqs|] == reqs;
  }

  // ------------------------------------------------------------------- addon

  /** The loaded addon: the process-wide `cctx` and `dctx`, created once and
      never freed, and the calls served so far. */
  class Addon {
    const codec: Codec
    const cctx: Pointer
    const dctx: Pointer
    ghost var served: seq<Request>
    ghost var log: seq<Effect>

    ghost predicate Valid()
      reads this
    {
      && codec.WellBehaved()
      && WellFormedRequests(served)
      && log == SessionLog(codec, cctx, dctx, served)
    }

    constructor (codec: Codec, cctx: Pointer, dctx: Pointer)
      requires codec.WellBehaved()
      ensures Valid()
      ensures this.codec == codec && this.cctx == cctx && this.dctx == dctx
      ensures served == [] && log == []
    {
      this.codec := codec;
      this.cctx := cctx;
      this.dctx := dctx;
      served := [];
      log := [];
    }

    method Compress(args: seq<Value>) returns (out: Outcome)
      requires Valid() && WellFormedArgs(args)
      modifies this
      ensures Valid()
      ensures served == old(served) + [CompressRequest(args)]
      ensures log == old(log) + CompressSpec(codec, cctx, args).effects
      ensures Realises(out, CompressSpec(codec, cctx, args).verdict)
      ensures out.Ok? ==> fresh(out.view.store)
    {
      CompressValidation(args);
      SessionLogSnoc(codec, cctx, dctx, served, CompressRequest(args));
      served := served + [CompressRequest(args)];
      if |args| > 2 || |args| < 1 {
        return TypeError(WRONG_ARITY);
      }
      if |args| >= 1 && !args[0].Bytes? {
        return TypeError(COMPRESS_FIRST_ARG);
      }
      if |args| >= 2 && !args[1].Num? && !args[1].External? {
        return TypeError(COMPRESS_SECOND_ARG);
      }

      var input := args[0];
      var inSize := input.length;
      var outSize;
      outSize, log := QueryBound(codec, inSize, log);
      var backingStore;
      backingStore, log := NewStore(outSize, log);

      var call: Call;
      if |args| >= 2 && args[1].External? {
        call := CompressUsingCDict(cctx, Contents(input), outSize, args[1].pointer);
      } else {
        var compressionLevel := DEFAULT_LEVEL;
        if |args| >= 2 && args[1].Num? {
          compressionLevel := args[1].number;
        }
        call := CompressCCtx(cctx, Contents(input), outSize, compressionLevel);
      }
      var outActualSize;
      outActualSize, log := Transform(codec, call, backingStore, log);
      if outActualSize.Failure? {
        return CodecFail(outActualSize.code);
      }
      out := Ok(View(backingStore, 0, |outActualSize.bytes|));
    }

    method Decompress(args: seq<Value>) returns (out: Outcome)
      requires Valid() && WellFormedArgs(args)
      modifies this
      ensures Valid()
      ensures served == old(served) + [DecompressRequest(args)]
      ensures log == old(log) + DecompressSpec(codec, dctx, args).effects
      ensures Realises(out, DecompressSpec(codec, dctx, args).verdict)
      ensures out.Ok? ==> fresh(out.view.store)
    {
      DecompressValidation(args);
      SessionLogSnoc(codec, cctx, dctx, served, DecompressRequest(args));
      served := served + [DecompressRequest(args)];
      if |args| > 2 {
        return TypeError(WRONG_ARITY);
      }
      if !Arg(args, 0).Bytes? {
        return TypeError(DECOMPRESS_FIRST_ARG);
      }
      if |args| >= 2 && !args[1].External? {
        return TypeError(DECOMPRESS_SECOND_ARG);
      }

      var input := args[0];
      var src := Contents(input);
      var outSize;
      outSize, log := QueryFrameSize(codec, src, log);
      if outSize.SizeError? {
        return CodecFail(outSize.code);
      }
      if outSize.size > CEILING {
        return TypeError(TOO_LARGE);
      }
      var backingStore;
      backingStore, log := NewStore(outSize.size, log);

      var call: Call;
      if |args| == 2 {
        call := DecompressUsingDDict(dctx, src, outSize.size, args[1].pointer);
      } else {
        call := DecompressDCtx(dctx, src, outSize.size);
      }
      var outActualSize;
      outActualSize, log := Transform(codec, call, backingStore, log);
      if outActualSize.Failure? {
        return CodecFail(outActualSize.code);
      }
      out := Ok(View(backingStore, 0, |outActualSize.bytes|));
    }

    method CreateCDict(args: seq<Value>) returns (out: Outcome)
      requires Valid() && WellFormedArgs(args)
      modifies this
      ensures Valid()
      ensures served == old(served) + [CreateCDictRequest(args)]
      ensures log == old(log) + CreateCDictSpec(codec, args).effects
      ensures Realises(out, CreateCDictSpec(codec, args).verdict)
    {
      CreateCDictValidation(args);
      SessionLogSnoc(codec, cctx, dctx, served, CreateCDictRequest(args));
      served := served + [CreateCDictRequest(args)];
      if |args| > 2 || |args| < 1 {
        return TypeError(WRONG_ARITY);
      }
      if |args| >= 1 && !args[0].Bytes? {
        return TypeError(CDICT_FIRST_ARG);
      }
      if |args| >= 2 && !args[1].Num? {
        return TypeError(CDICT_SECOND_ARG);
      }

      var compressionLevel := DEFAULT_LEVEL;
      if Arg(args, 1).Num? {
        compressionLevel := Arg(args, 1).number;
      }
      var input := args[0];
      var dict;
      dict, log := BuildCompressionDict(codec, Contents(input), compressionLevel, log);
      out := Handle(dict);
    }

    method CreateDDict(args: seq<Value>) returns (out: Outcome)
      requires Valid() && WellFormedArgs(args)
      modifies this
      ensures Valid()
      ensures served == old(served) + [CreateDDictRequest(args)]
      ensures log == old(log) + CreateDDictSpec(codec, args).effects
      ensures Realises(out, CreateDDictSpec(codec, args).verdict)
    {
      CreateDDictValidation(args);
      SessionLogSnoc(codec, cctx, dctx, served, CreateDDictRequest(args));
      served := served + [CreateDDictRequest(args)];
      if |args| != 1 {
        return TypeError(WRONG_ARITY);
      }
      if !args[0].Bytes? {
        return TypeError(DDICT_FIRST_ARG);
      }

      var input := args[0];
      var dict;
      dict, log := BuildDecompressionDict(codec, Contents(input), log);
      out := Handle(dict);
    }
  }
}
