# fast-zstd handlers, modelled in Dafny

fast-zstd is a Node addon that exposes zstd to JavaScript. This project models
the layer between JavaScript and zstd: the four handlers of `zstd_binding.cc`
(`compress`, `decompress`, `createCDict`, `createDDict`) and the two handlers of
the earlier `hello.cc` (`compress`, `decompress`). Every handler first checks
the argument count and types in a fixed order and throws a TypeError at the
first check that fails. The compress and decompress handlers then size an
output buffer from a zstd query, let zstd write into that buffer, and return a
Uint8Array trimmed to the length zstd reports. The two dictionary builders,
`createCDict` and `createDDict`, allocate no buffer: they return an External
wrapping the pointer `ZSTD_createCDict` or `ZSTD_createDDict` gives back,
unchecked.

Files and modules:

- `host.dfy` (`Host`): JavaScript values (`Bytes`, `Num`, `External`,
  `Undefined`, `Other`). Reading `args[i]` past the argument count gives
  `Undefined`. `Contents` is the definition of the bytes a Uint8Array shows:
  `length` bytes of its buffer from its byte offset. Also the ordered argument
  checks: `FirstFailing` and `Validate`.
- `zstd.dfy` (`Zstd`): zstd as a datatype of functions. These are
  `compressBound`, `getFrameContentSize`, one `transform` for the six
  compress/decompress entry points, `createCDict` and `createDDict`. The only
  assumption about them is `Codec.WellBehaved`: a transform never reports
  more bytes than the capacity it was given. `Effect` names what a handler does
  beyond inspecting arguments: a codec query, an allocation, a transform or a
  dictionary build. The handlers reach zstd and allocate only through
  recording wrappers (`QueryBound`, `QueryFrameSize`, `NewStore`,
  `Transform`, `BuildCompressionDict`, `BuildDecompressionDict`), each of
  which appends its effect to the log it is handed.
- `reply.dfy` (`Reply`): what a call ends in. A specification computes a
  `Verdict`. A handler method returns an `Outcome` whose Uint8Array is a `View`
  over a real `array<byte>` backing store. `Realises` ties the two together.
  `Rejected` is a call that throws and does nothing else. `Checked` is
  CHECK_ZSTD on a transform's status followed by the trimmed return
  (zstd_binding.cc:85-91 and 159-165, hello.cc:67-73 and 111-117); what it
  yields is stated by the trimming lemmas.
- `binding.dfy` (`Binding`): `zstd_binding.cc`. Each handler has a
  specification function that returns its verdict and its effects in order.
  The class `Addon` holds the process-wide `cctx`/`dctx` and implements the
  handlers step by step with early returns. Its ghost `log` records every
  effect and its ghost `served` records every call.
- `binding_properties.dfy` (`BindingProperties`): per-call properties: check
  order, no effect on a rejected call, path choice, default level, sizing,
  the ceiling and trimming.
- `binding_session.dfy` (`BindingSession`): properties of any sequence of
  calls, proved by induction.
- `hello.dfy` (`Hello`): `hello.cc`, with its own specifications, handler
  methods and properties.
- `contrast.dfy` (`Contrast`): the two versions compared.

Error reporting in the code:

- A declared size above 32 MiB is reported as a TypeError carrying the
  source's message. There is no separate "unsupported" kind of error.
- `decompress()` with no arguments passes the arity check, which only rejects
  more than two arguments. It then throws "First arg must be Uint8Array",
  not "Wrong number of arguments".
- Allocation is never checked, so there is no allocation error.
- CHECK_ZSTD is modelled as a `CodecFail`/`CodecFailed` outcome carrying the
  zstd code. An unknown or erroneous frame content size is one of those codes.

## Model

| member | source | states |
|---|---|---|
| `Host.FirstFailing` | zstd_binding.cc:29-52 | the index it finds is one where every earlier check passed and that check itself failed, or the end of the list when all checks pass |
| `Host.Validate` | zstd_binding.cc:29-52 | a call gets past its checks if and only if every check passes; otherwise the message thrown belongs to a check that failed |
| `Host.ValidateStep` | zstd_binding.cc:29-52 | running the checks in order equals the cascade of early returns: a failing first check decides, otherwise the rest run in order |
| `Zstd.Transform` | zstd_binding.cc:62-83 | zstd fills the freshly allocated store in place; on success the produced bytes fit the capacity and sit at the start of the store, and the call is appended to the log |
| `Binding.CompressSpec` | zstd_binding.cc:26-92 | compress throws exactly when it has done nothing: no bound query, no allocation, no transform |
| `Binding.CompressValidation` | zstd_binding.cc:29-52 | compress checks in the order arity (1 to 2), then a Uint8Array first, then a number or External second, and throws that check's message |
| `Binding.DecompressSpec` | zstd_binding.cc:94-166 | a Uint8Array returned by decompress never sits on a store larger than 32 MiB |
| `Binding.DecompressValidation` | zstd_binding.cc:97-120 | decompress checks for more than two arguments, then for a Uint8Array first (which also catches zero arguments), then for an External second |
| `Binding.CreateCDictSpec` | zstd_binding.cc:169-212 | createCDict either throws or returns an External; it never reports a codec error |
| `Binding.CreateCDictValidation` | zstd_binding.cc:172-195 | createCDict checks arity (1 to 2), then a Uint8Array first, then a number second, in that order |
| `Binding.CreateDDictSpec` | zstd_binding.cc:214-242 | createDDict either throws or returns an External; it never reports a codec error |
| `Binding.CreateDDictValidation` | zstd_binding.cc:217-231 | createDDict requires exactly one argument, then a Uint8Array |
| `Binding.Addon.constructor` | zstd_binding.cc:22-24 | the addon starts with its two contexts, a codec that keeps its capacity promise, and an empty log |
| `Binding.Addon.Compress` | zstd_binding.cc:26-92 | the handler's early-return code appends exactly the specified effects to the log and returns the specified verdict; a returned Uint8Array is a fresh store of the bound's size, at offset 0, of the produced length, holding the produced bytes |
| `Binding.Addon.Decompress` | zstd_binding.cc:94-166 | the same for decompress: early returns, CHECK_ZSTD on the frame size, the ceiling before allocation, and the trimmed fresh store of the declared size |
| `Binding.Addon.CreateCDict` | zstd_binding.cc:169-212 | the handler logs one dictionary build and returns the specified External or TypeError; the addon invariant is kept |
| `Binding.Addon.CreateDDict` | zstd_binding.cc:214-242 | the same for createDDict |
| `BindingProperties.CompressArity` | zstd_binding.cc:29-34 | with fewer than 1 or more than 2 arguments, compress throws "Wrong number of arguments" whatever the arguments are, and does nothing else |
| `BindingProperties.CompressRejection` | zstd_binding.cc:29-52 | compress throws if and only if its arguments are not accepted, and exactly then it has no effect at all |
| `BindingProperties.CompressPath` | zstd_binding.cc:54-84 | an accepted compress asks for the bound of the input length, allocates exactly that, and runs one transform with the shared context over exactly the input view into that capacity; it takes the dictionary path if and only if a second argument is an External, and otherwise uses the given number or level 1 |
| `BindingProperties.CompressTrimming` | zstd_binding.cc:85-91 | CHECK_ZSTD turns a transform error, and only an error, into a codec failure with its code; a successful transform always yields a Uint8Array of exactly the produced bytes over a store of the bound's size, and they fit in it |
| `BindingProperties.DecompressWithoutArguments` | zstd_binding.cc:97-111 | decompress with no arguments throws the first-argument message and does nothing else |
| `BindingProperties.DecompressRejection` | zstd_binding.cc:97-129 | decompress refuses with no effect if and only if its arguments are not accepted; an accepted call first asks for the frame content size of exactly the input view |
| `BindingProperties.DecompressCeiling` | zstd_binding.cc:125-138 | a frame-size error fails CHECK_ZSTD before the ceiling is looked at; a declared size above 33554432 throws before any allocation; a size of at most 33554432, 32 MiB itself included, is allocated exactly |
| `BindingProperties.DecompressPath` | zstd_binding.cc:138-158 | once allowed, one transform runs with the shared context over exactly the input view into the declared size, and it uses the dictionary if and only if two arguments were given |
| `BindingProperties.DecompressTrimming` | zstd_binding.cc:159-165 | CHECK_ZSTD turns a transform error, and only an error, into a codec failure with its code; a successful transform always yields a Uint8Array of exactly the produced bytes over a store of the declared size, and they fit in it |
| `BindingProperties.CreateCDictResult` | zstd_binding.cc:172-211 | createCDict accepts 1 to 2 arguments, a Uint8Array and a number, and throws with no effect otherwise; it builds from exactly the input view at the given level or 1, and wraps the pointer zstd returns, null included |
| `BindingProperties.CreateDDictResult` | zstd_binding.cc:217-241 | createDDict accepts exactly one Uint8Array, builds from exactly its view, and wraps the pointer zstd returns, null included |
| `BindingSession.SessionDisciplined` | zstd_binding.cc:54-165 | in any sequence of calls, every allocation is sized by the zstd query just before it, every transform writes into the buffer allocated just before it with exactly that capacity, and no decompression is given more than 32 MiB |
| `BindingSession.RejectedCallsLeaveNoTrace` | zstd_binding.cc:26-242 | the log of any sequence of calls equals the log of the same sequence with the argument-rejected calls removed |
| `BindingSession.AddonDisciplined` | zstd_binding.cc:22-24 | however the shared-context addon has been used, its log is disciplined and within the ceiling |
| `Hello.CompressSpec` | hello.cc:21-74 | the earlier compress throws exactly when it has done nothing |
| `Hello.CompressValidation` | hello.cc:24-47 | the earlier compress checks arity (1 to 2), then a Uint8Array first, then a number second, in that order |
| `Hello.DecompressSpec` | hello.cc:76-118 | a Uint8Array returned by the earlier decompress comes from a one-argument call and sits on a store that call allocated |
| `Hello.DecompressValidation` | hello.cc:79-93 | the earlier decompress requires exactly one argument, then a Uint8Array |
| `Hello.Compress` | hello.cc:21-74 | the early-return handler produces exactly the specified effects and verdict; a returned Uint8Array is a fresh, trimmed store |
| `Hello.Decompress` | hello.cc:76-118 | the same for the earlier decompress |
| `Hello.CompressRejection` | hello.cc:24-47 | the earlier compress throws the arity, first-argument or second-argument message in that order, a dictionary counting as "not a number", and throws exactly when the arguments are not accepted |
| `Hello.CompressPath` | hello.cc:49-73 | an accepted call allocates the bound of the input length and compresses exactly the input view at the given level or 1; CHECK_ZSTD fails exactly on a transform error, and a successful transform always yields exactly the produced bytes over a store of the bound's size |
| `Hello.DecompressRejection` | hello.cc:79-93 | the earlier decompress throws unless given exactly one Uint8Array |
| `Hello.DecompressUnbounded` | hello.cc:95-117 | the earlier decompress has no ceiling: any declared size passes CHECK_ZSTD and is allocated as it is; a successful transform always yields exactly the produced bytes over a store of that size |
| `Contrast.CompressAgrees` | zstd_binding.cc:61-84 | when the one-shot and the shared-context entry points agree, every compress call the earlier version accepts gets the same verdict from the later one |
| `Contrast.DecompressAgreesBelowCeiling` | zstd_binding.cc:125-158 | under the same agreement, a one-argument decompress gets the same verdict from both versions unless the frame declares more than 32 MiB |
| `Contrast.DictionaryOnlyInBinding` | hello.cc:40-47 | an External second argument makes the earlier compress throw, while the later one compresses with that dictionary |
| `Contrast.CeilingOnlyInBinding` | zstd_binding.cc:130-137 | for a frame declaring more than 32 MiB, the earlier decompress allocates the declared size, while the later one throws after only the size query |
| `Contrast.DecompressArityDiffers` | hello.cc:79-84 | with no arguments the two versions throw different messages; with a dictionary as second argument the earlier throws on the count and the later proceeds |

## Left out

- zstd itself is not modelled. Its bound computation, frame parsing, the compress and decompress transforms and dictionary construction are arbitrary functions. The only assumption is that a transform fits its capacity. Round trips and determinism are therefore not stated.
- CHECK_ZSTD lives in `common.h`, which is not part of this model. Whether it throws, logs or aborts the process is unknown, so it is modelled as a codec-failure outcome carrying the zstd code.
- The level argument is a JavaScript number, a double, converted to `int`. The model takes the level as an integer and does not model NaN, infinities, fractions or out-of-range doubles.
- Sizes are unbounded naturals, not `size_t`. An overflowing `ZSTD_compressBound` and the sentinel values of `ZSTD_getFrameContentSize` are not modelled separately; both sentinels are error codes that fail CHECK_ZSTD.
- V8 plumbing is not modelled: `Isolate`, `BackingStore` and `ArrayBuffer` ownership, string construction, and module registration (`Initialize`, `NODE_MODULE`).
- An External is taken as a bare pointer and handed to zstd unchanged. Compress casts any External to a compression dictionary and decompress casts any External to a decompression dictionary. What zstd does with a pointer of the wrong kind is not modelled.
- The contexts are never freed and neither are the dictionaries. Nothing protects the shared contexts from concurrent use. These are lifetime and concurrency concerns with no behaviour to state. The contexts are constants that every call passes to zstd.
- `NewBackingStore` is never checked, so allocation failure is not modelled.
- The bytes of the backing store past the produced length are not described. The returned view never shows them.
- `test.js` asserts nothing and is not modelled.
