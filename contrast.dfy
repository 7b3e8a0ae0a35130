/** hello.cc against zstd_binding.cc: what the later version added (the
    dictionary paths, the 32 MiB ceiling, a decompress that tolerates a
    second argument) and where it does exactly what the earlier one did. */
module Contrast {
  import opened Host
  import opened Zstd
  import opened Reply
  import Binding
  import Hello

  /** The one-shot entry points compute what the context-based ones compute
      with the shared contexts, which carry no memory between calls. */
  ghost predicate ContextsAreTransparent(codec: Codec, cctx: Pointer, dctx: Pointer) {
    && (forall src, capacity, level ::
          codec.transform(OneShotCompress(src, capacity, level))
          == codec.transform(CompressCCtx(cctx, src, capacity, level)))
    && (forall src, capacity ::
          codec.transform(OneShotDecompress(src, capacity))
          == codec.transform(DecompressDCtx(dctx, src, capacity)))
  }

  /** A compress call the earlier version accepts gets the same answer from
      the later one, given transparent contexts. */
  lemma CompressAgrees(codec: Codec, cctx: Pointer, dctx: Pointer, args: seq<Value>)
    requires ContextsAreTransparent(codec, cctx, dctx)
    requires WellFormedArgs(args)
    requires 1 <= |args| <= 2 && args[0].Bytes? && (|args| == 2 ==> args[1].Num?)
    ensures Binding.CompressSpec(codec, cctx, args).verdict == Hello.CompressSpec(codec, args).verdict
  {
    Hello.CompressValidation(args);
    Binding.CompressValidation(args);
  }

  /** A decompress call the earlier version accepts gets the same answer
      from the later one unless the frame declares more than 32 MiB, given
      transparent contexts. */
  lemma DecompressAgreesBelowCeiling(codec: Codec, cctx: Pointer, dctx: Pointer, args: seq<Value>)
    requires ContextsAreTransparent(codec, cctx, dctx)
    requires WellFormedArgs(args)
    requires |args| == 1 && args[0].Bytes?
    requires var fs := codec.getFrameContentSize(Contents(args[0])); fs.Declared? ==> fs.size <= Binding.CEILING
    ensures Binding.DecompressSpec(codec, dctx, args).verdict == Hello.DecompressSpec(codec, args).verdict
  {
    Hello.DecompressValidation(args);
    Binding.DecompressValidation(args);
  }

  /** A dictionary as second argument: the earlier version throws because
      it is not a number, the later one compresses with it. */
  lemma DictionaryOnlyInBinding(codec: Codec, cctx: Pointer, data: Value, dict: Pointer)
    requires data.Bytes? && WellFormed(data)
    ensures Hello.CompressSpec(codec, [data, External(dict)])
         == Run(Thrown(Hello.COMPRESS_SECOND_ARG), [])
    ensures Binding.CompressSpec(codec, cctx, [data, External(dict)]).effects[2]
         == Invoke(CompressUsingCDict(cctx, Contents(data), codec.compressBound(data.length), dict))
  {
    Hello.CompressValidation([data, External(dict)]);
    Binding.CompressValidation([data, External(dict)]);
  }

  /** A frame declaring more than 32 MiB: the earlier version allocates the
      declared size, the later one throws before allocating anything. */
  lemma CeilingOnlyInBinding(codec: Codec, dctx: Pointer, data: Value)
    requires data.Bytes? && WellFormed(data)
    requires codec.getFrameContentSize(Contents(data)).Declared?
    requires codec.getFrameContentSize(Contents(data)).size > Binding.CEILING
    ensures Allocate(codec.getFrameContentSize(Contents(data)).size) in Hello.DecompressSpec(codec, [data]).effects
    ensures Binding.DecompressSpec(codec, dctx, [data])
         == Run(Thrown(Binding.TOO_LARGE), [AskFrameSize(Contents(data))])
  {
    Hello.DecompressValidation([data]);
    Binding.DecompressValidation([data]);
  }

  /** decompress with no arguments throws in both versions, but with
      different messages; with a dictionary as second argument the earlier
      version throws on the count and the later one decompresses with it. */
  lemma DecompressArityDiffers(codec: Codec, dctx: Pointer, data: Value, dict: Pointer)
    requires data.Bytes? && WellFormed(data)
    ensures Hello.DecompressSpec(codec, []) == Run(Thrown(Hello.WRONG_ARITY), [])
    ensures Binding.DecompressSpec(codec, dctx, []) == Run(Thrown(Binding.DECOMPRESS_FIRST_ARG), [])
    ensures Hello.DecompressSpec(codec, [data, External(dict)]) == Run(Thrown(Hello.WRONG_ARITY), [])
    ensures Binding.DecompressSpec(codec, dctx, [data, External(dict)]).effects[0] == AskFrameSize(Contents(data))
  {
    Hello.DecompressValidation([]);
    Binding.DecompressValidation([]);
    Hello.DecompressValidation([data, External(dict)]);
    Binding.DecompressValidation([data, External(dict)]);
  }
}
