/**
 Extracting one document: its chunks are put to a model a batch at a time, each answer is
 gleaned and mapped, and the parts are folded.  The model is a function of the text and the
 prompt; whether and how it fails is part of its answer.
 */
module Pipeline {
  import opened Wrappers
  import opened Domain
  import opened Planning
  import opened Merging
  import opened Mapping
  import opened Combining
  import opened Carryover
  import opened Corpus

  datatype CallError = ProviderError(message: string) | OtherError(message: string)

  type Provider = (string, string) -> Result<Extraction, CallError>

  datatype Config = Config(
    provider: Provider, systemPrompt: string, gleaningPrompt: (string, Extraction) -> string, gleanings: nat,
    lift: Extraction -> (Extraction, nat, nat), scheme: Scheme, dumps: Renderer,
    carryoverLimit: nat, block: seq<Mention> -> string, skipFailed: bool,
    ident: ChunkId, encode: Encoding)

  // ----- one chunk

  function FoundNothing(x: Extraction): bool {
    x.entities == [] && x.relationships == []
  }

  datatype Gleaned = Gleaned(answer: Extraction, passes: nat, failures: nat)

  // Ask again, up to `left` times, folding each answer in.
  function GleanMore(cfg: Config, text: string, prompt: string, answer: Extraction, left: nat): Result<Gleaned, CallError>
    decreases left
  {
    if left == 0 then Success(Gleaned(answer, 0, 0))
    else
      match cfg.provider(text, cfg.gleaningPrompt(prompt, answer))
      case Failure(ProviderError(_)) => Success(Gleaned(answer, 0, 1))
      case Failure(OtherError(message)) => Failure(OtherError(message))
      case Success(extra) =>
        if FoundNothing(extra) then Success(Gleaned(answer, 1, 0))
        else
          match GleanMore(cfg, text, prompt, Combine(answer, extra), left - 1)
          case Failure(e) => Failure(e)
          case Success(g) => Success(g.(passes := g.passes + 1))
  }

  // How a chunk's gleaning stops.
  method Glean(cfg: Config, text: string, prompt: string, first: Extraction) returns (r: Result<Gleaned, CallError>)
    ensures r == GleanMore(cfg, text, prompt, first, cfg.gleanings)
  {
    var answer, passes, left := first, 0, cfg.gleanings;
    while left > 0
      invariant After(GleanMore(cfg, text, prompt, answer, left), passes) == GleanMore(cfg, text, prompt, first, cfg.gleanings)
    {
      var extra := cfg.provider(text, cfg.gleaningPrompt(prompt, answer));
      match extra
      case Failure(ProviderError(_)) =>
        return Success(Gleaned(answer, passes, 1));
      case Failure(OtherError(message)) =>
        return Failure(OtherError(message));
      case Success(x) =>
        if FoundNothing(x) {
          return Success(Gleaned(answer, passes + 1, 0));
        }
        answer, passes, left := Combine(answer, x), passes + 1, left - 1;
    }
    return Success(Gleaned(answer, passes, 0));
  }

  // A gleaning that had `passes` before it.
  function After(r: Result<Gleaned, CallError>, passes: nat): Result<Gleaned, CallError> {
    if r.Success? then Success(r.value.(passes := r.value.passes + passes)) else r
  }

  /**
   Gleaning never loses what the first answer found, stays within its budget, and turns at most
   one provider error into a count: such an error never fails the chunk.
   */
  lemma {:induction false} GleaningOnlyAdds(cfg: Config, text: string, prompt: string, answer: Extraction, left: nat)
    ensures match GleanMore(cfg, text, prompt, answer, left)
            case Success(g) =>
              && answer.entities <= g.answer.entities && answer.relationships <= g.answer.relationships
              && g.passes + g.failures <= left && g.failures <= 1
            case Failure(e) => e.OtherError?
    decreases left
  {
    if left > 0 {
      var asked := cfg.provider(text, cfg.gleaningPrompt(prompt, answer));
      if asked.Success? && !FoundNothing(asked.value) {
        GleaningOnlyAdds(cfg, text, prompt, Combine(answer, asked.value), left - 1);
      }
    }
  }

  datatype Answered = Answered(mapped: MappedExtraction, passes: nat, failures: nat)

  function ExtractOne(cfg: Config, chunk: Chunk, prompt: string): Result<Answered, CallError> {
    match cfg.provider(chunk.text, prompt)
    case Failure(e) => Failure(e)
    case Success(first) =>
      match GleanMore(cfg, chunk.text, prompt, first, cfg.gleanings)
      case Failure(e) => Failure(e)
      case Success(g) =>
        var (x, lifted, dateNodes) := cfg.lift(g.answer);
        match Mapped(cfg.scheme, cfg.dumps, x, lifted, dateNodes)
        case Failure(e) => Failure(MappingFailed(e))
        case Success(m) => Success(Answered(m, g.passes, g.failures))
  }

  // Errors of the mapper and of the passages, not of the provider.
  function MappingFailed(e: TextError): CallError {
    OtherError(match e case Unencodable => "text has no UTF-8 encoding" case Unstorable => "field must be storable")
  }

  function StoringFailed(e: TextError): CallError {
    OtherError(match e case Unencodable => "passage has no UTF-8 encoding" case Unstorable => "passage must be storable")
  }

  method ExtractChunk(cfg: Config, chunk: Chunk, prompt: string) returns (r: Result<Answered, CallError>)
    ensures r == ExtractOne(cfg, chunk, prompt)
  {
    var first := cfg.provider(chunk.text, prompt);
    if first.Failure? {
      return Failure(first.error);
    }
    var gleaned := Glean(cfg, chunk.text, prompt, first.value);
    if gleaned.Failure? {
      return Failure(gleaned.error);
    }
    var (x, lifted, dateNodes) := cfg.lift(gleaned.value.answer);
    var mapped := MapExtraction(cfg.scheme, cfg.dumps, x, lifted, dateNodes);
    if mapped.Failure? {
      return Failure(MappingFailed(mapped.error));
    }
    return Success(Answered(mapped.value, gleaned.value.passes, gleaned.value.failures));
  }

  // ----- a whole document

  // What the loop accumulates.
  datatype Run = Run(
    parts: seq<MappedExtraction>, foundByIndex: map<nat, seq<EntityId>>,
    failed: nat, gleaned: nat, failedGleanings: nat, seen: seq<Mention>)

  const FRESH_RUN := Run([], map[], 0, 0, 0, [])

  function IdsIn(m: MappedExtraction): seq<EntityId> {
    seq(|m.entities|, i requires 0 <= i < |m.entities| => m.entities[i].id)
  }

  type Outcomes = seq<Result<Answered, CallError>>

  // Record one outcome; a failure is counted if it may be skipped and raised if not.
  function Collect(cfg: Config, chunk: Chunk, outcome: Result<Answered, CallError>, run: Run): Result<Run, CallError> {
    match outcome
    case Failure(ProviderError(message)) =>
      if cfg.skipFailed then Success(run.(failed := run.failed + 1)) else Failure(ProviderError(message))
    case Failure(OtherError(message)) => Failure(OtherError(message))
    case Success(a) =>
      Success(run.(parts := run.parts + [a.mapped], foundByIndex := run.foundByIndex[chunk.index := IdsIn(a.mapped)],
                   gleaned := run.gleaned + a.passes, failedGleanings := run.failedGleanings + a.failures))
  }

  function CollectAll(cfg: Config, batch: seq<Chunk>, outcomes: Outcomes, run: Run): Result<Run, CallError>
    requires |outcomes| == |batch|
  {
    if batch == [] then Success(run)
    else
      var n := |batch| - 1;
      match CollectAll(cfg, batch[..n], outcomes[..n], run)
      case Failure(e) => Failure(e)
      case Success(r) => Collect(cfg, batch[n], outcomes[n], r)
  }

  function RememberOne(cfg: Config, seen: seq<Mention>, outcome: Result<Answered, CallError>): seq<Mention> {
    if outcome.Success? then Remember(cfg.scheme.normalize, seen, outcome.value.mapped.entities) else seen
  }

  function RememberAll(cfg: Config, seen: seq<Mention>, outcomes: Outcomes): seq<Mention> {
    if outcomes == [] then seen
    else RememberOne(cfg, RememberAll(cfg, seen, outcomes[..|outcomes| - 1]), outcomes[|outcomes| - 1])
  }

  function PromptFor(cfg: Config, seen: seq<Mention>): string {
    cfg.systemPrompt + cfg.block(Recent(seen, cfg.carryoverLimit))
  }

  // Every chunk of a batch is asked under the prompt computed before it.
  function Ask(cfg: Config, batch: seq<Chunk>, prompt: string): Outcomes {
    seq(|batch|, i requires 0 <= i < |batch| => ExtractOne(cfg, batch[i], prompt))
  }

  function BatchSize(chunks: seq<Chunk>, concurrency: nat): (n: nat)
    requires concurrency >= 1
    ensures n <= |chunks| && n <= concurrency && (chunks != [] ==> n > 0)
  {
    if |chunks| <= concurrency then |chunks| else concurrency
  }

  function Batches(cfg: Config, concurrency: nat, chunks: seq<Chunk>, run: Run): Result<Run, CallError>
    requires concurrency >= 1
    decreases |chunks|
  {
    if chunks == [] then Success(run)
    else
      var n := BatchSize(chunks, concurrency);
      var outcomes := Ask(cfg, chunks[..n], PromptFor(cfg, run.seen));
      match CollectAll(cfg, chunks[..n], outcomes, run)
      case Failure(e) => Failure(e)
      case Success(r) => Batches(cfg, concurrency, chunks[n..], r.(seen := RememberAll(cfg, run.seen, outcomes)))
  }

  datatype PipelineResult = PipelineResult(
    extraction: MappedExtraction, failedChunks: nat, totalChunks: nat, chunks: seq<StoredChunk>,
    digested: seq<Byte>, gleaningPasses: nat, failedGleanings: nat, mentionCounts: map<EntityId, nat>)

  function Finish(cfg: Config, chunks: seq<Chunk>, run: Run): PipelineResult {
    PipelineResult(MergeOf(cfg.dumps, run.parts), run.failed, |chunks|, Passages(chunks, run.foundByIndex),
                   Preimage(cfg.encode, Boundaries(chunks)), run.gleaned, run.failedGleanings, Counted(AllEntities(run.parts)))
  }

  // The passages are built once the loop is over.
  function Extracted(cfg: Config, concurrency: nat, chunks: seq<Chunk>): Result<PipelineResult, CallError>
    requires concurrency >= 1
  {
    match Batches(cfg, concurrency, chunks, FRESH_RUN)
    case Failure(e) => Failure(e)
    case Success(run) =>
      match StoringError(cfg.scheme.text, cfg.scheme.sourceId, chunks)
      case Some(e) => Failure(StoringFailed(e))
      case None => Success(Finish(cfg, chunks, run))
  }

  method Extract(cfg: Config, concurrency: nat, chunks: seq<Chunk>) returns (r: Result<PipelineResult, CallError>)
    requires concurrency >= 1 && Identifies(cfg.ident)
    ensures r == Extracted(cfg, concurrency, chunks)
  {
    var run := FRESH_RUN;
    var carryover := new Carryover(cfg.carryoverLimit, cfg.scheme.normalize);
    var done := 0;
    assert chunks[0..] == chunks;
    while done < |chunks|
      invariant done <= |chunks| && fresh(carryover) && carryover.Valid() && carryover.seen == run.seen
      invariant carryover.limit == cfg.carryoverLimit && carryover.normalize == cfg.scheme.normalize
      invariant Batches(cfg, concurrency, chunks[done..], run) == Batches(cfg, concurrency, chunks, FRESH_RUN)
    {
      hide Batches, ExtractOne, CollectAll, RememberAll, Remember;
      var end := done + BatchSize(chunks[done..], concurrency);
      var batch := chunks[done..end];
      NextBatch(cfg, concurrency, chunks, done, run);
      var mentions := carryover.Mentions();
      var prompt := cfg.systemPrompt + cfg.block(mentions);
      var results := AskBatch(cfg, batch, prompt);
      var collected := CollectBatch(cfg, batch, results, run);
      if collected.Failure? {
        return Failure(collected.error);
      }
      RememberBatch(cfg, carryover, results);
      run, done := collected.value.(seen := carryover.seen), end;
    }
    var merged := MergeExtractions(cfg.dumps, run.parts);
    var passages := StoredChunks(cfg.scheme.text, cfg.scheme.sourceId, cfg.ident, chunks, run.foundByIndex);
    if passages.Failure? {
      return Failure(StoringFailed(passages.error));
    }
    var digested := DigestInput(cfg.encode, chunks);
    var counts := MentionCounts(run.parts);
    return Success(PipelineResult(merged, run.failed, |chunks|, passages.value, digested, run.gleaned, run.failedGleanings, counts));
  }

  // Every call of the batch is made, whatever the others return.
  method AskBatch(cfg: Config, batch: seq<Chunk>, prompt: string) returns (results: Outcomes)
    ensures results == Ask(cfg, batch, prompt)
  {
    hide ExtractOne;
    results := [];
    for i := 0 to |batch|
      invariant |results| == i && forall j :: 0 <= j < i ==> results[j] == ExtractOne(cfg, batch[j], prompt)
    {
      var r := ExtractChunk(cfg, batch[i], prompt);
      results := results + [r];
    }
  }

  // Collect one batch, chunk by chunk, stopping at an error that is raised.
  method CollectBatch(cfg: Config, batch: seq<Chunk>, results: Outcomes, before: Run) returns (r: Result<Run, CallError>)
    requires |results| == |batch|
    ensures r == CollectAll(cfg, batch, results, before)
  {
    var run := before;
    for i := 0 to |batch|
      invariant CollectAll(cfg, batch[..i], results[..i], before) == Success(run)
    {
      assert batch[..i + 1][..i] == batch[..i] && results[..i + 1][..i] == results[..i];
      match results[i]
      case Failure(e) =>
        if e.OtherError? || !cfg.skipFailed {
          ErrorsStop(cfg, batch, results, before, i + 1);
          return Failure(e);
        }
        run := run.(failed := run.failed + 1);
      case Success(a) =>
        run := Run(run.parts + [a.mapped], run.foundByIndex[batch[i].index := IdsIn(a.mapped)], run.failed,
                   run.gleaned + a.passes, run.failedGleanings + a.failures, run.seen);
    }
    assert batch[..|batch|] == batch && results[..|batch|] == results;
    return Success(run);
  }

  lemma {:induction false} ErrorsStop(cfg: Config, batch: seq<Chunk>, outcomes: Outcomes, run: Run, k: nat)
    requires k <= |batch| == |outcomes| && CollectAll(cfg, batch[..k], outcomes[..k], run).Failure?
    ensures CollectAll(cfg, batch, outcomes, run) == CollectAll(cfg, batch[..k], outcomes[..k], run)
    decreases |batch|
  {
    var n := |batch| - 1;
    if k == |batch| {
      assert batch[..k] == batch && outcomes[..k] == outcomes;
    } else {
      assert batch[..n][..k] == batch[..k] && outcomes[..n][..k] == outcomes[..k];
      ErrorsStop(cfg, batch[..n], outcomes[..n], run, k);
    }
  }

  // Carry over what a batch found, once none of its calls is still running.
  method RememberBatch(cfg: Config, carryover: Carryover, results: Outcomes)
    requires carryover.Valid() && carryover.normalize == cfg.scheme.normalize
    modifies carryover
    ensures carryover.Valid() && carryover.seen == RememberAll(cfg, old(carryover.seen), results)
  {
    ghost var before := carryover.seen;
    for i := 0 to |results|
      invariant carryover.Valid() && carryover.seen == RememberAll(cfg, before, results[..i])
    {
      assert results[..i + 1][..i] == results[..i];
      if results[i].Success? {
        carryover.RememberEntities(results[i].value.mapped.entities);
      }
    }
    assert results[..|results|] == results;
  }

  lemma NextBatch(cfg: Config, concurrency: nat, chunks: seq<Chunk>, done: nat, run: Run)
    requires concurrency >= 1 && done < |chunks|
    ensures var end := done + BatchSize(chunks[done..], concurrency);
            var outcomes := Ask(cfg, chunks[done..end], PromptFor(cfg, run.seen));
            done < end <= |chunks|
            && Batches(cfg, concurrency, chunks[done..], run) ==
               match CollectAll(cfg, chunks[done..end], outcomes, run)
               case Failure(e) => Failure(e)
               case Success(r) => Batches(cfg, concurrency, chunks[end..], r.(seen := RememberAll(cfg, run.seen, outcomes)))
  {
    hide ExtractOne, CollectAll, RememberAll;
    var end := done + BatchSize(chunks[done..], concurrency);
    assert chunks[done..][..end - done] == chunks[done..end] && chunks[done..][end - done..] == chunks[end..];
  }

  // ----- any run is one chunk at a time, under some prompts

  function Step(cfg: Config, chunk: Chunk, prompt: string, run: Run): Result<Run, CallError> {
    var outcome := ExtractOne(cfg, chunk, prompt);
    match Collect(cfg, chunk, outcome, run)
    case Failure(e) => Failure(e)
    case Success(r) => Success(r.(seen := RememberOne(cfg, run.seen, outcome)))
  }

  function Serially(cfg: Config, chunks: seq<Chunk>, prompts: seq<string>, run: Run): Result<Run, CallError>
    requires |prompts| == |chunks|
  {
    if chunks == [] then Success(run)
    else
      var n := |chunks| - 1;
      match Serially(cfg, chunks[..n], prompts[..n], run)
      case Failure(e) => Failure(e)
      case Success(r) => Step(cfg, chunks[n], prompts[n], r)
  }

  function Same(prompt: string, n: nat): (prompts: seq<string>)
    ensures |prompts| == n
  {
    seq(n, i => prompt)
  }

  // A batch collected and then remembered is its chunks taken one at a time under its prompt.
  lemma {:induction false} BatchIsSerial(cfg: Config, batch: seq<Chunk>, prompt: string, run: Run)
    ensures var outcomes := Ask(cfg, batch, prompt);
            Serially(cfg, batch, Same(prompt, |batch|), run) ==
            match CollectAll(cfg, batch, outcomes, run)
            case Failure(e) => Failure(e)
            case Success(r) => Success(r.(seen := RememberAll(cfg, run.seen, outcomes)))
    ensures match CollectAll(cfg, batch, Ask(cfg, batch, prompt), run)
            case Success(r) => r.seen == run.seen
            case Failure(_) => true
  {
    hide ExtractOne;
    if batch != [] {
      var n := |batch| - 1;
      BatchIsSerial(cfg, batch[..n], prompt, run);
      assert Ask(cfg, batch, prompt)[..n] == Ask(cfg, batch[..n], prompt);
      assert Same(prompt, |batch|)[..n] == Same(prompt, n);
    }
  }

  lemma {:induction false} SeriallyInTwo(cfg: Config, chunks: seq<Chunk>, prompts: seq<string>, more: seq<Chunk>,
                                         morePrompts: seq<string>, run: Run)
    requires |prompts| == |chunks| && |morePrompts| == |more|
    ensures Serially(cfg, chunks + more, prompts + morePrompts, run) ==
            match Serially(cfg, chunks, prompts, run)
            case Failure(e) => Failure(e)
            case Success(r) => Serially(cfg, more, morePrompts, r)
  {
    hide Step;
    if more == [] {
      assert chunks + more == chunks && prompts + morePrompts == prompts;
    } else {
      var n := |more| - 1;
      assert (chunks + more)[..|chunks| + n] == chunks + more[..n];
      assert (prompts + morePrompts)[..|chunks| + n] == prompts + morePrompts[..n];
      SeriallyInTwo(cfg, chunks, prompts, more[..n], morePrompts[..n], run);
    }
  }

  // The prompt each chunk is asked under.
  function Prompts(cfg: Config, concurrency: nat, chunks: seq<Chunk>, run: Run): (prompts: seq<string>)
    requires concurrency >= 1
    ensures |prompts| == |chunks|
    decreases |chunks|
  {
    if chunks == [] then []
    else
      var n := BatchSize(chunks, concurrency);
      var prompt := PromptFor(cfg, run.seen);
      var next := Serially(cfg, chunks[..n], Same(prompt, n), run);
      Same(prompt, n) + if next.Success? then Prompts(cfg, concurrency, chunks[n..], next.value) else Same(prompt, |chunks| - n)
  }

  /** A batched run is a serial one in which every chunk of a batch had the batch's prompt. */
  lemma {:induction false} BatchesAreSerial(cfg: Config, concurrency: nat, chunks: seq<Chunk>, run: Run)
    requires concurrency >= 1
    ensures Batches(cfg, concurrency, chunks, run) == Serially(cfg, chunks, Prompts(cfg, concurrency, chunks, run), run)
    decreases |chunks|
  {
    if chunks == [] {
    } else {
      hide Batches, Serially, ExtractOne, CollectAll, RememberAll, Same, Prompts, PromptFor, Ask;
      var n := BatchSize(chunks, concurrency);
      var prompt := PromptFor(cfg, run.seen);
      assert chunks[0..] == chunks && chunks[0..n] == chunks[..n];
      NextBatch(cfg, concurrency, chunks, 0, run);
      BatchIsSerial(cfg, chunks[..n], prompt, run);
      var next := Serially(cfg, chunks[..n], Same(prompt, n), run);
      var rest := LaterPrompts(cfg, concurrency, chunks, run);
      assert chunks == chunks[..n] + chunks[n..];
      SeriallyInTwo(cfg, chunks[..n], Same(prompt, n), chunks[n..], rest, run);
      if next.Success? {
        BatchesAreSerial(cfg, concurrency, chunks[n..], next.value);
      }
    }
  }

  lemma LaterPrompts(cfg: Config, concurrency: nat, chunks: seq<Chunk>, run: Run) returns (rest: seq<string>)
    requires concurrency >= 1 && chunks != []
    ensures var n := BatchSize(chunks, concurrency);
            var prompt := PromptFor(cfg, run.seen);
            var next := Serially(cfg, chunks[..n], Same(prompt, n), run);
            && |rest| == |chunks| - n && Prompts(cfg, concurrency, chunks, run) == Same(prompt, n) + rest
            && (next.Success? ==> rest == Prompts(cfg, concurrency, chunks[n..], next.value))
  {
    hide Serially, PromptFor;
    var n := BatchSize(chunks, concurrency);
    var prompt := PromptFor(cfg, run.seen);
    var next := Serially(cfg, chunks[..n], Same(prompt, n), run);
    rest := if next.Success? then Prompts(cfg, concurrency, chunks[n..], next.value) else Same(prompt, |chunks| - n);
  }

  // ----- with nothing carried over, batching does not matter

  lemma {:induction false} OnePrompt(cfg: Config, concurrency: nat, chunks: seq<Chunk>, run: Run)
    requires concurrency >= 1 && cfg.carryoverLimit == 0
    ensures Prompts(cfg, concurrency, chunks, run) == Same(PromptFor(cfg, []), |chunks|)
    decreases |chunks|
  {
    if chunks != [] {
      hide Serially;
      var n := BatchSize(chunks, concurrency);
      var next := Serially(cfg, chunks[..n], Same(PromptFor(cfg, run.seen), n), run);
      if next.Success? {
        OnePrompt(cfg, concurrency, chunks[n..], next.value);
      }
    }
  }

  /** With carryover off, every concurrency gives the same result or raises the same first error. */
  lemma ConcurrencyDoesNotMatter(cfg: Config, concurrency: nat, other: nat, chunks: seq<Chunk>)
    requires concurrency >= 1 && other >= 1 && cfg.carryoverLimit == 0
    ensures Extracted(cfg, concurrency, chunks) == Extracted(cfg, other, chunks)
  {
    hide Batches, Serially, Finish;
    BatchesAreSerial(cfg, concurrency, chunks, FRESH_RUN);
    BatchesAreSerial(cfg, other, chunks, FRESH_RUN);
    OnePrompt(cfg, concurrency, chunks, FRESH_RUN);
    OnePrompt(cfg, other, chunks, FRESH_RUN);
  }

  // ----- what a run says of each chunk

  ghost predicate Raises(cfg: Config, outcome: Result<Answered, CallError>) {
    outcome.Failure? && (outcome.error.OtherError? || !cfg.skipFailed)
  }

  /** A run succeeds exactly when no chunk's call raises. */
  lemma {:induction false} SucceedsExactlyWhenNothingRaises(cfg: Config, chunks: seq<Chunk>, prompts: seq<string>, run: Run)
    requires |prompts| == |chunks|
    ensures Serially(cfg, chunks, prompts, run).Success? <==>
            forall i :: 0 <= i < |chunks| ==> !Raises(cfg, ExtractOne(cfg, chunks[i], prompts[i]))
  {
    hide ExtractOne;
    if chunks != [] {
      var n := |chunks| - 1;
      SucceedsExactlyWhenNothingRaises(cfg, chunks[..n], prompts[..n], run);
      assert forall i :: 0 <= i < n ==> chunks[..n][i] == chunks[i] && prompts[..n][i] == prompts[i];
    }
  }

  /** Otherwise it raises the error of the first chunk, in document order, whose call does. */
  lemma {:induction false} TheFirstErrorIsRaised(cfg: Config, chunks: seq<Chunk>, prompts: seq<string>, run: Run, i: nat)
    requires i < |chunks| == |prompts| && Raises(cfg, ExtractOne(cfg, chunks[i], prompts[i]))
    requires forall j :: 0 <= j < i ==> !Raises(cfg, ExtractOne(cfg, chunks[j], prompts[j]))
    ensures Serially(cfg, chunks, prompts, run) == Failure(ExtractOne(cfg, chunks[i], prompts[i]).error)
  {
    hide ExtractOne;
    var n := |chunks| - 1;
    if i < n {
      TheFirstErrorIsRaised(cfg, chunks[..n], prompts[..n], run, i);
    } else {
      SucceedsExactlyWhenNothingRaises(cfg, chunks[..n], prompts[..n], run);
    }
  }

  // The answer to a chunk raises when mapped, once date-nodes are lifted.
  ghost predicate AnswerRaises(cfg: Config, answer: Extraction) {
    Unmappable(cfg.scheme, cfg.lift(answer).0)
  }

  // The chunk's first call fails in a way that is skipped; or it succeeds, no gleaning raises and
  // neither does mapping.
  ghost predicate Survives(cfg: Config, chunk: Chunk, prompt: string) {
    match cfg.provider(chunk.text, prompt)
    case Failure(e) => e.ProviderError? && cfg.skipFailed
    case Success(first) =>
      match GleanMore(cfg, chunk.text, prompt, first, cfg.gleanings)
      case Failure(_) => false
      case Success(g) => !AnswerRaises(cfg, g.answer)
  }

  lemma ChunkRaisesExactlyWhen(cfg: Config, chunk: Chunk, prompt: string)
    requires Derives(cfg.scheme)
    ensures Raises(cfg, ExtractOne(cfg, chunk, prompt)) <==> !Survives(cfg, chunk, prompt)
  {
    hide Mapped, Derives, Unmappable;
    var first := cfg.provider(chunk.text, prompt);
    if first.Success? {
      GleaningOnlyAdds(cfg, chunk.text, prompt, first.value, cfg.gleanings);
      var gleaned := GleanMore(cfg, chunk.text, prompt, first.value, cfg.gleanings);
      if gleaned.Success? {
        var (x, lifted, dateNodes) := cfg.lift(gleaned.value.answer);
        MappingRaisesExactlyWhen(cfg.scheme, cfg.dumps, x, lifted, dateNodes);
      }
    }
  }

  /**
   The loop ends without an error exactly when, of every chunk, the first call fails in a way that is
   skipped, or it succeeds and so do its gleaning and the mapping of its answer.  Skipping failed
   chunks does not skip a chunk whose answer cannot be mapped.
   */
  lemma LoopSucceedsExactlyWhen(cfg: Config, chunks: seq<Chunk>, prompts: seq<string>, run: Run)
    requires Derives(cfg.scheme) && |prompts| == |chunks|
    ensures Serially(cfg, chunks, prompts, run).Success? <==>
            forall i :: 0 <= i < |chunks| ==> Survives(cfg, chunks[i], prompts[i])
  {
    hide ExtractOne, Survives, Raises, Derives, Serially;
    SucceedsExactlyWhenNothingRaises(cfg, chunks, prompts, run);
    forall i | 0 <= i < |chunks| ensures Raises(cfg, ExtractOne(cfg, chunks[i], prompts[i])) <==> !Survives(cfg, chunks[i], prompts[i]) {
      ChunkRaisesExactlyWhen(cfg, chunks[i], prompts[i]);
    }
  }

  /**
   A run succeeds exactly when every chunk survives and every passage can be stored: each text, the
   metadata of the first chunk with each text, and the document's id in what identifies them.
   */
  lemma RunSucceedsExactlyWhen(cfg: Config, concurrency: nat, chunks: seq<Chunk>)
    requires Derives(cfg.scheme) && concurrency >= 1
    ensures var prompts := Prompts(cfg, concurrency, chunks, FRESH_RUN);
            Extracted(cfg, concurrency, chunks).Success? <==>
            && (forall i :: 0 <= i < |chunks| ==> Survives(cfg, chunks[i], prompts[i]))
            && AllStorable(cfg.scheme.text, cfg.scheme.sourceId, chunks)
  {
    hide Survives, Derives, Serially, Batches, Prompts, StoringError, AllStorable, Finish;
    BatchesAreSerial(cfg, concurrency, chunks, FRESH_RUN);
    LoopSucceedsExactlyWhen(cfg, chunks, Prompts(cfg, concurrency, chunks, FRESH_RUN), FRESH_RUN);
    RulesConform(cfg.scheme);
    StoringFailsExactlyWhen(cfg.scheme.text, cfg.scheme.sourceId, chunks);
  }

  lemma RulesConform(s: Scheme)
    requires Derives(s)
    ensures s.text.Conform()
  {
  }

  /**
   What a failing run raises: the error of the first chunk, in document order, whose call does, whatever
   the passages hold; and when no call does, that of the passages.
   */
  lemma ChunkErrorsComeFirst(cfg: Config, concurrency: nat, chunks: seq<Chunk>, i: nat)
    requires concurrency >= 1 && Extracted(cfg, concurrency, chunks).Failure? && i <= |chunks|
    requires var prompts := Prompts(cfg, concurrency, chunks, FRESH_RUN);
             && (forall j :: 0 <= j < i ==> !Raises(cfg, ExtractOne(cfg, chunks[j], prompts[j])))
             && (i < |chunks| ==> Raises(cfg, ExtractOne(cfg, chunks[i], prompts[i])))
    ensures Extracted(cfg, concurrency, chunks) ==
            if i < |chunks| then Failure(ExtractOne(cfg, chunks[i], Prompts(cfg, concurrency, chunks, FRESH_RUN)[i]).error)
            else
              match StoringError(cfg.scheme.text, cfg.scheme.sourceId, chunks)
              case Some(e) => Failure(StoringFailed(e))
              case None => Extracted(cfg, concurrency, chunks)
    ensures i == |chunks| ==> StoringError(cfg.scheme.text, cfg.scheme.sourceId, chunks).Some?
  {
    hide ExtractOne, Raises, Serially, Batches, Prompts, StoringError, Finish;
    var prompts := Prompts(cfg, concurrency, chunks, FRESH_RUN);
    BatchesAreSerial(cfg, concurrency, chunks, FRESH_RUN);
    if i < |chunks| {
      TheFirstErrorIsRaised(cfg, chunks, prompts, FRESH_RUN, i);
    } else {
      SucceedsExactlyWhenNothingRaises(cfg, chunks, prompts, FRESH_RUN);
    }
  }

  /** A document with a NUL in it fails, though every call succeeded and was mapped. */
  lemma ANulFailsTheDocument(cfg: Config, concurrency: nat, chunk: Chunk)
    requires Derives(cfg.scheme) && concurrency >= 1 && '\0' in chunk.text && cfg.scheme.text.encodable(chunk.text)
    requires cfg.scheme.text.encodable(cfg.scheme.sourceId) && Survives(cfg, chunk, PromptFor(cfg, []))
    ensures Extracted(cfg, concurrency, [chunk]) == Failure(StoringFailed(Unstorable))
  {
    hide Batches, Serially, ExtractOne, Derives, Survives, Prompts, StoringError, Raises, Finish, AllStorable;
    var prompts := Prompts(cfg, concurrency, [chunk], FRESH_RUN);
    FirstPrompt(cfg, concurrency, [chunk], FRESH_RUN);
    RulesConform(cfg.scheme);
    BatchesAreSerial(cfg, concurrency, [chunk], FRESH_RUN);
    LoopSucceedsExactlyWhen(cfg, [chunk], prompts, FRESH_RUN);
    StoringFailsExactlyWhen(cfg.scheme.text, cfg.scheme.sourceId, [chunk]);
    OneBadText(cfg.scheme.text, cfg.scheme.sourceId, chunk);
  }

  lemma OneBadText(rules: TextRules, sourceId: string, chunk: Chunk)
    requires rules.Conform() && '\0' in chunk.text
    ensures !AllStorable(rules, sourceId, [chunk])
  {
    assert [chunk][0].text == chunk.text;
  }

  /** One edge the log could not hold fails the document, though every call succeeded and failures are skipped. */
  lemma OneBadEdgeFailsTheDocument(cfg: Config, concurrency: nat, chunk: Chunk, answer: Extraction)
    requires Derives(cfg.scheme) && concurrency >= 1 && cfg.gleanings == 0
    requires cfg.provider(chunk.text, PromptFor(cfg, [])) == Success(answer) && AnswerRaises(cfg, answer)
    ensures Extracted(cfg, concurrency, [chunk]).Failure? && Extracted(cfg, concurrency, [chunk]).error.OtherError?
  {
    hide Batches, Serially, ExtractOne, Derives, AnswerRaises, Prompts, Survives;
    var prompts := Prompts(cfg, concurrency, [chunk], FRESH_RUN);
    BatchesAreSerial(cfg, concurrency, [chunk], FRESH_RUN);
    FirstPrompt(cfg, concurrency, [chunk], FRESH_RUN);
    ChunkRaisesExactlyWhen(cfg, chunk, prompts[0]);
    TextErrorsAreOther(cfg, chunk, prompts[0], answer);
    TheFirstErrorIsRaised(cfg, [chunk], prompts, FRESH_RUN, 0);
  }

  lemma FirstPrompt(cfg: Config, concurrency: nat, chunks: seq<Chunk>, run: Run)
    requires concurrency >= 1 && chunks != []
    ensures Prompts(cfg, concurrency, chunks, run)[0] == PromptFor(cfg, run.seen)
  {
    hide Serially;
  }

  lemma TextErrorsAreOther(cfg: Config, chunk: Chunk, prompt: string, answer: Extraction)
    requires Derives(cfg.scheme) && cfg.gleanings == 0 && cfg.provider(chunk.text, prompt) == Success(answer) && AnswerRaises(cfg, answer)
    ensures !Survives(cfg, chunk, prompt)
    ensures ExtractOne(cfg, chunk, prompt).Failure? && ExtractOne(cfg, chunk, prompt).error.OtherError?
  {
    hide Mapped, Derives, Unmappable;
    var (x, lifted, dateNodes) := cfg.lift(answer);
    MappingRaisesExactlyWhen(cfg.scheme, cfg.dumps, x, lifted, dateNodes);
  }

  ghost predicate DistinctIndices(chunks: seq<Chunk>) {
    forall i, j :: 0 <= i < j < |chunks| ==> chunks[i].index != chunks[j].index
  }

  // The entities filed under a chunk's index are those its own call produced, and a chunk whose
  // call failed has none.
  ghost predicate OwnEntities(cfg: Config, chunk: Chunk, prompt: string, found: map<nat, seq<EntityId>>) {
    match ExtractOne(cfg, chunk, prompt)
    case Success(a) => chunk.index in found && found[chunk.index] == IdsIn(a.mapped)
    case Failure(_) => chunk.index !in found
  }

  /**
   However many earlier chunks failed and were skipped, each chunk keeps its own entities, and
   every chunk is either a part or counted as failed.
   */
  lemma {:induction false} EachChunkKeepsItsEntities(cfg: Config, chunks: seq<Chunk>, prompts: seq<string>, run: Run)
    requires |prompts| == |chunks| && DistinctIndices(chunks)
    requires Serially(cfg, chunks, prompts, FRESH_RUN) == Success(run)
    ensures |run.parts| + run.failed == |chunks|
    ensures forall i :: 0 <= i < |chunks| ==> OwnEntities(cfg, chunks[i], prompts[i], run.foundByIndex)
    ensures forall k :: k in run.foundByIndex ==> exists i :: 0 <= i < |chunks| && chunks[i].index == k
  {
    hide ExtractOne, OwnEntities;
    if chunks != [] {
      var n := |chunks| - 1;
      var earlier := Serially(cfg, chunks[..n], prompts[..n], FRESH_RUN).value;
      EachChunkKeepsItsEntities(cfg, chunks[..n], prompts[..n], earlier);
      OneMoreChunk(cfg, chunks, prompts, chunks[..n], prompts[..n], earlier, run);
    }
  }

  lemma OneMoreChunk(cfg: Config, chunks: seq<Chunk>, prompts: seq<string>, before: seq<Chunk>, beforePrompts: seq<string>,
                     earlier: Run, run: Run)
    requires |prompts| == |chunks| > 0 && DistinctIndices(chunks)
    requires before == chunks[..|chunks| - 1] && beforePrompts == prompts[..|chunks| - 1]
    requires Step(cfg, chunks[|chunks| - 1], prompts[|chunks| - 1], earlier) == Success(run)
    requires forall i :: 0 <= i < |before| ==> OwnEntities(cfg, before[i], beforePrompts[i], earlier.foundByIndex)
    requires forall k :: k in earlier.foundByIndex ==> exists i :: 0 <= i < |before| && before[i].index == k
    ensures forall i :: 0 <= i < |chunks| ==> OwnEntities(cfg, chunks[i], prompts[i], run.foundByIndex)
    ensures forall k :: k in run.foundByIndex ==> exists i :: 0 <= i < |chunks| && chunks[i].index == k
  {
    hide ExtractOne;
    var n := |before|;
    forall i | 0 <= i < |chunks| ensures OwnEntities(cfg, chunks[i], prompts[i], run.foundByIndex) {
      if i < n {
        assert OwnEntities(cfg, before[i], beforePrompts[i], earlier.foundByIndex);
      }
    }
    forall k | k in run.foundByIndex ensures exists i :: 0 <= i < |chunks| && chunks[i].index == k {
      if k in earlier.foundByIndex {
        var i :| 0 <= i < n && before[i].index == k;
        assert chunks[i].index == k;
      } else {
        assert chunks[n].index == k;
      }
    }
  }

  // A call made for a chunk with this text succeeded and named `e`.
  ghost predicate NamedIn(cfg: Config, chunks: seq<Chunk>, prompts: seq<string>, text: string, e: EntityId)
    requires |prompts| == |chunks|
  {
    exists i: nat :: i < |chunks| && chunks[i].text == text && Names(ExtractOne(cfg, chunks[i], prompts[i]), e)
  }

  predicate Names(outcome: Result<Answered, CallError>, e: EntityId) {
    outcome.Success? && e in IdsIn(outcome.value.mapped)
  }

  /**
   A stored passage is linked to exactly the entities that the calls made for chunks with its
   text named, whatever failed around them and however the calls were batched.
   */
  lemma PassagesHaveTheirOwnEntities(cfg: Config, concurrency: nat, chunks: seq<Chunk>, record: StoredChunk, e: EntityId)
    requires concurrency >= 1 && DistinctIndices(chunks) && Extracted(cfg, concurrency, chunks).Success?
    requires record in Extracted(cfg, concurrency, chunks).value.chunks
    ensures e in record.entityIds <==> NamedIn(cfg, chunks, Prompts(cfg, concurrency, chunks, FRESH_RUN), record.text, e)
  {
    hide ExtractOne, Batches, Serially, Prompts, Passages, MergeOf, Preimage, Counted, OnePerText, FirstWith,
         LinkedTo, NamedIn, OwnEntities;
    var prompts := Prompts(cfg, concurrency, chunks, FRESH_RUN);
    BatchesAreSerial(cfg, concurrency, chunks, FRESH_RUN);
    var run := Batches(cfg, concurrency, chunks, FRESH_RUN).value;
    EachChunkKeepsItsEntities(cfg, chunks, prompts, run);
    PassagesAreFaithful(chunks, run.foundByIndex);
    assert FaithfulRecord(chunks, run.foundByIndex, record);
    LinksAreNames(cfg, chunks, prompts, run.foundByIndex, record.text, e);
  }

  lemma LinksAreNames(cfg: Config, chunks: seq<Chunk>, prompts: seq<string>, found: Links, text: string, e: EntityId)
    requires |prompts| == |chunks| && forall i :: 0 <= i < |chunks| ==> OwnEntities(cfg, chunks[i], prompts[i], found)
    ensures LinkedTo(chunks, found, text, e) <==> NamedIn(cfg, chunks, prompts, text, e)
  {
    hide ExtractOne;
    forall i: nat | i < |chunks|
      ensures Names(ExtractOne(cfg, chunks[i], prompts[i]), e) <==> e in LinksOf(found, chunks[i].index)
    {
      assert OwnEntities(cfg, chunks[i], prompts[i], found);
    }
  }
}
