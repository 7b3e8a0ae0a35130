/** Properties of any sequence of calls into zstd_binding.cc, served one
    after another with the same two contexts: what the log of effects
    looks like however the calls are mixed. */
module BindingSession {
  import opened Host
  import opened Zstd
  import opened Reply
  import opened Binding

  /** `size` is what the codec query `query` reported: the compress bound of
      an input length, or a declared frame content size no larger than the
      ceiling. */
  predicate SizedBy(codec: Codec, query: Effect, size: nat) {
    || (query.AskBound? && size == codec.compressBound(query.srcSize))
    || (query.AskFrameSize? && codec.getFrameContentSize(query.frame) == Declared(size) && size <= CEILING)
  }

  /** Entry `i` of a log is an allocation sized by the query just before
      it, a transform into the buffer allocated just before it, or neither. */
  predicate InPlace(codec: Codec, log: seq<Effect>, i: nat)
    requires i < |log|
  {
    && (log[i].Allocate? ==> 0 < i && SizedBy(codec, log[i - 1], log[i].size))
    && (log[i].Invoke? ==> 0 < i && log[i - 1] == Allocate(log[i].call.capacity))
  }

  /** Every allocation is sized from a codec query, and every transform
      writes into a buffer of exactly the capacity it is told. */
  predicate Disciplined(codec: Codec, log: seq<Effect>) {
    forall i :: 0 <= i < |log| ==> InPlace(codec, log, i)
  }

  /** A log that can follow any other: it does not start with an
      allocation or a transform, which would lean on the entry before. */
  predicate StartsFresh(log: seq<Effect>) {
    log != [] ==> !log[0].Allocate? && !log[0].Invoke?
  }

  /** No decompression transform is given more than the ceiling. */
  predicate WithinCeiling(log: seq<Effect>) {
    forall i :: 0 <= i < |log| && log[i].Invoke? && log[i].call.IsDecompression() ==>
      log[i].call.capacity <= CEILING
  }

  lemma ServeDisciplined(codec: Codec, cctx: Pointer, dctx: Pointer, req: Request)
    requires WellFormedArgs(req.args)
    ensures var log := Serve(codec, cctx, dctx, req).effects;
      Disciplined(codec, log) && StartsFresh(log) && WithinCeiling(log)
  {
    var log := Serve(codec, cctx, dctx, req).effects;
    forall i | 0 <= i < |log| ensures InPlace(codec, log, i) {
      match req
      case CompressRequest(args) =>
        CompressValidation(args);
      case DecompressRequest(args) =>
        DecompressValidation(args);
      case CreateCDictRequest(args) =>
      case CreateDDictRequest(args) =>
    }
  }

  lemma AppendDisciplined(codec: Codec, a: seq<Effect>, b: seq<Effect>)
    requires Disciplined(codec, a) && Disciplined(codec, b) && StartsFresh(b)
    requires WithinCeiling(a) && WithinCeiling(b)
    ensures Disciplined(codec, a + b) && WithinCeiling(a + b)
  {
    var ab := a + b;
    forall i | 0 <= i < |ab| ensures InPlace(codec, ab, i) {
      if i < |a| {
        assert InPlace(codec, a, i);
        assert ab[i] == a[i];
        if 0 < i { assert ab[i - 1] == a[i - 1]; }
      } else {
        var j := i - |a|;
        assert InPlace(codec, b, j);
        assert ab[i] == b[j];
        if 0 < j { assert ab[i - 1] == b[j - 1]; }
      }
    }
    forall i | 0 <= i < |ab| && ab[i].Invoke? && ab[i].call.IsDecompression()
      ensures ab[i].call.capacity <= CEILING
    {
      if i < |a| { assert ab[i] == a[i]; } else { assert ab[i] == b[i - |a|]; }
    }
  }

  /** However calls are mixed, every buffer the addon allocates is sized by
      the codec query just before it, every transform writes into the
      buffer allocated just before it with exactly that capacity, and no
      decompression is ever given more than 32 MiB. */
  lemma {:induction false} SessionDisciplined(codec: Codec, cctx: Pointer, dctx: Pointer, reqs: seq<Request>)
    requires WellFormedRequests(reqs)
    ensures var log := SessionLog(codec, cctx, dctx, reqs);
      Disciplined(codec, log) && WithinCeiling(log)
    decreases |reqs|
  {
    if reqs != [] {
      var init, last := reqs[..|reqs| - 1], reqs[|reqs| - 1];
      SessionDisciplined(codec, cctx, dctx, init);
      ServeDisciplined(codec, cctx, dctx, last);
      AppendDisciplined(codec, SessionLog(codec, cctx, dctx, init), Serve(codec, cctx, dctx, last).effects);
    }
  }

  /** The call is refused by its argument checks. */
  predicate ArgumentsRejected(req: Request) {
    match req
    case CompressRequest(args) => Validate(CompressChecks(args)).Some?
    case DecompressRequest(args) => Validate(DecompressChecks(args)).Some?
    case CreateCDictRequest(args) => Validate(CreateCDictChecks(args)).Some?
    case CreateDDictRequest(args) => Validate(CreateDDictChecks(args)).Some?
  }

  /** The calls that get past their argument checks, in order. */
  function Admitted(reqs: seq<Request>): (r: seq<Request>)
    ensures |r| <= |reqs|
    ensures forall i :: 0 <= i < |r| ==> r[i] in reqs && !ArgumentsRejected(r[i])
    decreases |reqs|
  {
    if reqs == [] then []
    else
      var last := reqs[|reqs| - 1];
      Admitted(reqs[..|reqs| - 1]) + if ArgumentsRejected(last) then [] else [last]
  }

  lemma AdmittedWellFormed(reqs: seq<Request>)
    requires WellFormedRequests(reqs)
    ensures WellFormedRequests(Admitted(reqs))
  {
    var r := Admitted(reqs);
    forall i | 0 <= i < |r| ensures WellFormedArgs(r[i].args) {
      var j :| 0 <= j < |reqs| && reqs[j] == r[i];
    }
  }

  lemma RejectedServesNothing(codec: Codec, cctx: Pointer, dctx: Pointer, req: Request)
    requires WellFormedArgs(req.args) && ArgumentsRejected(req)
    ensures Serve(codec, cctx, dctx, req).verdict.Thrown?
    ensures Serve(codec, cctx, dctx, req).effects == []
  {
  }

  /** Calls refused by their argument checks leave no trace: the log of a
      session is the log of the same session with those calls removed. */
  lemma {:induction false} RejectedCallsLeaveNoTrace(codec: Codec, cctx: Pointer, dctx: Pointer, reqs: seq<Request>)
    requires WellFormedRequests(reqs)
    ensures WellFormedRequests(Admitted(reqs))
    ensures SessionLog(codec, cctx, dctx, reqs) == SessionLog(codec, cctx, dctx, Admitted(reqs))
    decreases |reqs|
  {
    AdmittedWellFormed(reqs);
    if reqs != [] {
      var init, last := reqs[..|reqs| - 1], reqs[|reqs| - 1];
      assert WellFormedRequests(init);
      RejectedCallsLeaveNoTrace(codec, cctx, dctx, init);
      if ArgumentsRejected(last) {
        RejectedServesNothing(codec, cctx, dctx, last);
        assert Admitted(reqs) == Admitted(init);
      } else {
        assert Admitted(reqs) == Admitted(init) + [last];
        SessionLogSnoc(codec, cctx, dctx, Admitted(init), last);
      }
    }
  }

  /** The log a loaded addon has kept is disciplined and within the
      ceiling, whatever it has been asked to do. */
  lemma AddonDisciplined(addon: Addon)
    requires addon.Valid()
    ensures Disciplined(addon.codec, addon.log) && WithinCeiling(addon.log)
  {
    SessionDisciplined(addon.codec, addon.cctx, addon.dctx, addon.served);
  }
}
