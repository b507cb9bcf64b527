/** The summarisation model handler (api/summarization_model_handler.py).

    The handler is a process-wide singleton: the first construction loads
    a tokenizer and a summarisation pipeline, either of which may fail and
    leave the handler without a pipeline. `summarize_text` truncates the
    input to 1024 tokens, derives minimum and maximum summary lengths from
    the token count and the requested ratio, and calls the model's
    generator, turning a generator failure into an error string. The model
    itself is abstract: the tokenizer and the generator are functions that
    may fail (None). */
module Summarization {
  import opened Common

  const MaxModelLength: nat := 1024
  const NotInitialized: string := "Error: Summarizer not initialized."
  const CouldNotGenerate: string := "Error: Could not generate summary."

  /** The generation parameters loaded from the best-parameters file. */
  type Params = map<string, Value>

  /** The tokenizer: token ids of a text (None when it raises, e.g. on a
      value that is not a string) and the text of generated ids. */
  datatype Tokenizer = Tokenizer(encode: Value -> Option<seq<int>>, decode: seq<int> -> Option<string>)

  /** The pipeline's generator: summary ids for input ids, a minimum and a
      maximum length and the extra parameters (None when it raises). */
  datatype Pipeline = Pipeline(generate: (seq<int>, int, int, Params) -> Option<seq<int>>)

  /** How `_initialize_model` ends: the tokenizer fails to load, the
      pipeline fails to load after the tokenizer did, or both load. */
  datatype LoadOutcome = TokenizerFailed | PipelineFailed(tokenizer: Tokenizer) | Loaded(tokenizer: Tokenizer, pipeline: Pipeline)

  /** What `summarize_text` does: return a string, or raise to its caller. */
  datatype SummaryResult = Returned(text: string) | Raised

  // ---------------------------------------------------------------------
  // Length arithmetic
  // ---------------------------------------------------------------------

  /** Python's `int(x)` on a float: truncation toward zero. */
  function Trunc(x: real): (r: int)
    ensures x >= 0.0 ==> 0 <= r && r as real <= x < r as real + 1.0
    ensures x < 0.0 ==> r <= 0 && x <= r as real && (r as real) - 1.0 < x
  {
    if x >= 0.0 then x.Floor else -((-x).Floor)
  }

  /** Truncation is odd, so it rounds toward zero on both sides. */
  lemma TruncOdd(x: real)
    ensures Trunc(-x) == -Trunc(x)
  {
    if x < 0.0 {
      assert -x > 0.0;
    } else if x == 0.0 {
      assert -x == 0.0;
    }
  }

  /** Truncation is monotone. */
  lemma TruncMonotone(x: real, y: real)
    requires x <= y
    ensures Trunc(x) <= Trunc(y)
  {
  }

  /** The length of `inputs['input_ids']` under `truncation=True,
      max_length=1024`: at most 1024 ids, and the whole encoding when it
      is short enough. A long encoding is cut to its first 1024 ids here;
      the tokenizer itself may end the cut with its own closing token, so
      only the length (all that lines 49-56 read) is modelled exactly. */
  function Truncate(ids: seq<int>): (r: seq<int>)
    ensures |r| <= MaxModelLength
    ensures r <= ids
    ensures |ids| <= MaxModelLength ==> r == ids
  {
    if |ids| <= MaxModelLength then ids else ids[..MaxModelLength]
  }

  /** Lines 50-56: target = int(n * ratio); min = int(0.7 * target) raised
      to 30; max = int(1.3 * target) raised to 40. */
  function LengthBounds(numTokens: int, ratio: real): (int, int)
  {
    var target := Trunc(numTokens as real * ratio);
    var minLen := Trunc(target as real * 0.7);
    var maxLen := Trunc(target as real * 1.3);
    (if minLen < 30 then 30 else minLen, if maxLen < 40 then 40 else maxLen)
  }

  /** For every token count and every ratio, even a negative one, the
      minimum is at least 30, the maximum at least 40, and the minimum
      never exceeds the maximum. */
  lemma LengthBoundsOrdered(numTokens: int, ratio: real)
    ensures var (minLen, maxLen) := LengthBounds(numTokens, ratio);
      30 <= minLen && 40 <= maxLen && minLen <= maxLen
  {
    var t := Trunc(numTokens as real * ratio) as real;
    if t >= 0.0 {
      TruncMonotone(t * 0.7, t * 1.3);
    } else {
      assert t * 0.7 < 0.0 && t * 1.3 < 0.0;
    }
  }

  /** With a non-negative ratio the target is the floor of n * ratio and
      grows with the ratio. */
  lemma TargetMonotone(numTokens: nat, r1: real, r2: real)
    requires 0.0 <= r1 <= r2
    ensures Trunc(numTokens as real * r1) == (numTokens as real * r1).Floor
    ensures Trunc(numTokens as real * r1) <= Trunc(numTokens as real * r2)
  {
    assert numTokens as real * r1 <= numTokens as real * r2;
    TruncMonotone(numTokens as real * r1, numTokens as real * r2);
  }

  /** 1000 tokens at ratio 0.5: target 500, bounds 350 and 650. */
  lemma LengthBoundsLong(numTokens: int, ratio: real)
    requires numTokens == 1000 && ratio == 0.5
    ensures LengthBounds(numTokens, ratio) == (350, 650)
  {
    assert numTokens as real * ratio == 500.0;
    assert 500.0 * 0.7 == 350.0 && 500.0 * 1.3 == 650.0;
  }

  /** 50 tokens at ratio 0.3: target 15, bounds clamped to 30 and 40. */
  lemma LengthBoundsShort(numTokens: int, ratio: real)
    requires numTokens == 50 && ratio == 0.3
    ensures LengthBounds(numTokens, ratio) == (30, 40)
  {
    assert numTokens as real * ratio == 15.0;
    assert 15.0 * 0.7 == 10.5 && 15.0 * 1.3 == 19.5;
  }

  /** The generator's answer turned into a result: a failure of the
      generator or of decoding (or missing parameters, which make the call
      itself raise) is the could-not-generate message. */
  function Generate(pipeline: Pipeline, tokenizer: Tokenizer, ids: seq<int>, params: Option<Params>, ratio: real): SummaryResult
  {
    var (minLen, maxLen) := LengthBounds(|ids|, ratio);
    if params.None? then Returned(CouldNotGenerate)
    else match pipeline.generate(ids, minLen, maxLen, params.value)
      case None => Returned(CouldNotGenerate)
      case Some(out) =>
        match tokenizer.decode(out)
        case None => Returned(CouldNotGenerate)
        case Some(s) => Returned(s)
  }

  /** `summarize_text` on a handler with the given fields. */
  function Summarize(pipeline: Option<Pipeline>, tokenizer: Option<Tokenizer>, text: Value,
                     params: Option<Params>, ratio: Option<real>): (r: SummaryResult)
    requires pipeline.Some? ==> tokenizer.Some?
    ensures pipeline.None? ==> r == Returned(NotInitialized)
    ensures pipeline.Some? && (tokenizer.value.encode(text).None? || ratio.None?) ==> r == Raised
  {
    if pipeline.None? then Returned(NotInitialized)
    else match tokenizer.value.encode(text)
      case None => Raised
      case Some(ids) =>
        if ratio.None? then Raised
        else Generate(pipeline.value, tokenizer.value, Truncate(ids), params, ratio.value)
  }

  /** A summary other than the two error messages was generated from at
      most 1024 input tokens, with bounds of at least 30 and 40 and
      the minimum below the maximum. */
  lemma SummarizeSuccess(pipeline: Option<Pipeline>, tokenizer: Option<Tokenizer>, text: Value,
                         params: Option<Params>, ratio: Option<real>, s: string)
    requires pipeline.Some? ==> tokenizer.Some?
    requires Summarize(pipeline, tokenizer, text, params, ratio) == Returned(s)
    requires s != NotInitialized && s != CouldNotGenerate
    ensures pipeline.Some? && params.Some? && ratio.Some? && tokenizer.value.encode(text).Some?
    ensures var ids := Truncate(tokenizer.value.encode(text).value);
      var (minLen, maxLen) := LengthBounds(|ids|, ratio.value);
      && |ids| <= MaxModelLength && ids <= tokenizer.value.encode(text).value
      && 30 <= minLen <= maxLen && 40 <= maxLen
      && pipeline.value.generate(ids, minLen, maxLen, params.value).Some?
      && tokenizer.value.decode(pipeline.value.generate(ids, minLen, maxLen, params.value).value) == Some(s)
  {
    var ids := Truncate(tokenizer.value.encode(text).value);
    LengthBoundsOrdered(|ids|, ratio.value);
  }

  // ---------------------------------------------------------------------
  // The handler
  // ---------------------------------------------------------------------

  class SummarizationModelHandler {
    var summarizerPipeline: Option<Pipeline>
    var tokenizer: Option<Tokenizer>

    /** The pipeline is only ever set after the tokenizer loaded. */
    ghost predicate Valid()
      reads this
    {
      summarizerPipeline.Some? ==> tokenizer.Some?
    }

    /** `__new__` on a fresh instance: both fields start as None, then
        `_initialize_model` sets what loaded. */
    constructor (load: LoadOutcome)
      ensures Valid()
      ensures load.TokenizerFailed? ==> tokenizer.None? && summarizerPipeline.None?
      ensures load.PipelineFailed? ==> tokenizer == Some(load.tokenizer) && summarizerPipeline.None?
      ensures load.Loaded? ==> tokenizer == Some(load.tokenizer) && summarizerPipeline == Some(load.pipeline)
    {
      summarizerPipeline := None;
      tokenizer := None;
      new;
      InitializeModel(load);
    }

    /** `_initialize_model`: the tokenizer first, then the pipeline; a
        failure is logged and leaves the remaining fields as they were. */
    method InitializeModel(load: LoadOutcome)
      modifies this
      ensures load.TokenizerFailed? ==> unchanged(this)
      ensures load.PipelineFailed? ==> tokenizer == Some(load.tokenizer) && summarizerPipeline == old(summarizerPipeline)
      ensures load.Loaded? ==> tokenizer == Some(load.tokenizer) && summarizerPipeline == Some(load.pipeline)
    {
      match load {
        case TokenizerFailed =>
        case PipelineFailed(t) =>
          tokenizer := Some(t);
        case Loaded(t, p) =>
          tokenizer := Some(t);
          summarizerPipeline := Some(p);
      }
    }

    /** `summarize_text`, proved against `Summarize` on the handler's fields. */
    method SummarizeText(text: Value, params: Option<Params>, ratio: Option<real>) returns (r: SummaryResult)
      requires Valid()
      ensures r == Summarize(summarizerPipeline, tokenizer, text, params, ratio)
    {
      if summarizerPipeline.None? {
        return Returned(NotInitialized);
      }
      var encoded := tokenizer.value.encode(text);
      if encoded.None? {
        return Raised;
      }
      var inputIds := Truncate(encoded.value);
      var numInputTokens := |inputIds|;
      if ratio.None? {
        return Raised;
      }
      var targetTokenCount := Trunc(numInputTokens as real * ratio.value);
      var minLen := Trunc(targetTokenCount as real * 0.7);
      var maxLen := Trunc(targetTokenCount as real * 1.3);
      if minLen < 30 {
        minLen := 30;
      }
      if maxLen < 40 {
        maxLen := 40;
      }
      assert (minLen, maxLen) == LengthBounds(numInputTokens, ratio.value);
      if params.None? {
        // `**None` raises inside the `try`
        return Returned(CouldNotGenerate);
      }
      var summaryIds := summarizerPipeline.value.generate(inputIds, minLen, maxLen, params.value);
      if summaryIds.None? {
        return Returned(CouldNotGenerate);
      }
      var summary := tokenizer.value.decode(summaryIds.value);
      if summary.None? {
        return Returned(CouldNotGenerate);
      }
      r := Returned(summary.value);
    }
  }

  /** The class object of `SummarizationModelHandler`, holding `_instance`. */
  class HandlerClass {
    var instance: SummarizationModelHandler?

    /** The stored instance, once built, keeps the handler's own invariant. */
    ghost predicate Valid()
      reads this, instance
    {
      instance != null ==> instance.Valid()
    }

    constructor ()
      ensures instance == null && Valid()
    {
      instance := null;
    }

    /** `SummarizationModelHandler()`: the first call builds and loads the
        instance; every later call returns that same instance untouched and
        loads nothing. */
    method New(load: LoadOutcome) returns (h: SummarizationModelHandler)
      requires Valid()
      modifies this
      ensures Valid() && h.Valid()
      ensures old(instance) != null ==> h == old(instance) && instance == h && unchanged(h)
      ensures old(instance) == null ==> fresh(h) && instance == h
      ensures old(instance) == null && load.Loaded? ==> h.summarizerPipeline == Some(load.pipeline)
      ensures old(instance) == null && !load.Loaded? ==> h.summarizerPipeline.None?
      ensures old(instance) == null ==> h.tokenizer == (if load.TokenizerFailed? then None else Some(load.tokenizer))
    {
      if instance == null {
        instance := new SummarizationModelHandler(load);
      }
      h := instance;
    }
  }

  /** Constructing twice yields one handler, loaded by the first call only. */
  method ConstructTwice(cls: HandlerClass, first: LoadOutcome, second: LoadOutcome)
    returns (h1: SummarizationModelHandler, h2: SummarizationModelHandler)
    requires cls.instance == null
    modifies cls
    ensures h1 == h2
    ensures first.Loaded? <==> h2.summarizerPipeline.Some?
  {
    h1 := cls.New(first);
    h2 := cls.New(second);
  }
}
