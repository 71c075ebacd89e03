/**
 What a run over one document asked and what it returns: which prompt each chunk was put under,
 what gleaning found, and what of all that is in the result.
 */
module RunContents {
  import opened Sequences
  import opened Wrappers
  import opened Domain
  import opened Merging
  import opened Mapping
  import opened MappedAnswers
  import opened MappedEdges
  import opened Combining
  import opened Survivors
  import opened KeptMentions
  import opened Carryover
  import opened Corpus
  import opened Pipeline

  // ----- gleaning

  // The rows of the first answer, then those of every later one in turn; and so for the edges.
  ghost function RowsOf(first: Extraction, extras: seq<Extraction>): seq<ExtractedEntity> {
    if extras == [] then first.entities else RowsOf(first, extras[..|extras| - 1]) + extras[|extras| - 1].entities
  }

  ghost function EdgesOf(first: Extraction, extras: seq<Extraction>): seq<ExtractedRelationship> {
    if extras == [] then first.relationships else EdgesOf(first, extras[..|extras| - 1]) + extras[|extras| - 1].relationships
  }

  ghost function Grown(first: Extraction, extras: seq<Extraction>): Extraction {
    Extraction(RowsOf(first, extras), EdgesOf(first, extras))
  }

  // What the model says when asked what it missed after these.
  ghost function AskedAfter(cfg: Config, text: string, prompt: string, first: Extraction,
                            extras: seq<Extraction>): Result<Extraction, CallError> {
    cfg.provider(text, cfg.gleaningPrompt(prompt, Grown(first, extras)))
  }

  // `extras` are what the model found when asked again and again, something each time.
  ghost predicate FoundInTurn(cfg: Config, text: string, prompt: string, first: Extraction, extras: seq<Extraction>) {
    forall k :: 0 <= k < |extras| ==>
      && AskedAfter(cfg, text, prompt, first, extras[..k]) == Success(extras[k])
      && (extras[k].entities != [] || extras[k].relationships != [])
  }

  // How gleaning ends after `extras`: out of budget, on a pass that found nothing, on a provider
  // error, which is counted, or on any other error, which is raised.
  ghost predicate EndsAfter(cfg: Config, text: string, prompt: string, first: Extraction, extras: seq<Extraction>, budget: nat,
                            r: Result<Gleaned, CallError>) {
    if |extras| == budget then r == Success(Gleaned(Grown(first, extras), budget, 0))
    else
      |extras| < budget &&
      match AskedAfter(cfg, text, prompt, first, extras)
      case Success(none) =>
        none.entities == [] && none.relationships == [] && r == Success(Gleaned(Grown(first, extras), |extras| + 1, 0))
      case Failure(ProviderError(_)) => r == Success(Gleaned(Grown(first, extras), |extras|, 1))
      case Failure(OtherError(message)) => r == Failure(OtherError(message))
  }

  lemma {:induction false} GrownFromTwo(first: Extraction, x: Extraction, extras: seq<Extraction>)
    ensures Grown(first, [x] + extras) == Grown(Combine(first, x), extras)
  {
    if extras == [] {
      assert [x] + extras == [x] && [x][..0] == [];
      assert Grown(first, [x]) == Combine(first, x) by {
        assert RowsOf(first, [x]) == RowsOf(first, []) + x.entities && EdgesOf(first, [x]) == EdgesOf(first, []) + x.relationships;
      }
    } else {
      var n := |extras| - 1;
      assert ([x] + extras)[..n + 1] == [x] + extras[..n];
      GrownFromTwo(first, x, extras[..n]);
    }
  }

  /**
   What gleaning answers: the first answer with what every pass found added to it, pass after pass,
   until the budget is spent, a pass finds nothing or a call fails.
   */
  lemma {:induction false} WhatGleaningFound(cfg: Config, text: string, prompt: string, first: Extraction, budget: nat)
    ensures exists extras :: FoundInTurn(cfg, text, prompt, first, extras)
                             && EndsAfter(cfg, text, prompt, first, extras, budget, GleanMore(cfg, text, prompt, first, budget))
    decreases budget
  {
    var r := GleanMore(cfg, text, prompt, first, budget);
    assert Grown(first, []) == first;
    var next := AskedAfter(cfg, text, prompt, first, []);
    if budget == 0 || next.Failure? || FoundNothing(next.value) {
      assert FoundInTurn(cfg, text, prompt, first, []) && EndsAfter(cfg, text, prompt, first, [], budget, r);
    } else {
      var x := next.value;
      WhatGleaningFound(cfg, text, prompt, Combine(first, x), budget - 1);
      hide EndsAfter, FoundInTurn;
      var later :| FoundInTurn(cfg, text, prompt, Combine(first, x), later)
                   && EndsAfter(cfg, text, prompt, Combine(first, x), later, budget - 1, GleanMore(cfg, text, prompt, Combine(first, x), budget - 1));
      OnePassEarlier(cfg, text, prompt, first, x, later);
      EndsOnePassLater(cfg, text, prompt, first, x, later, budget, GleanMore(cfg, text, prompt, Combine(first, x), budget - 1), r);
      assert FoundInTurn(cfg, text, prompt, first, [x] + later) && EndsAfter(cfg, text, prompt, first, [x] + later, budget, r);
    }
  }

  lemma OnePassEarlier(cfg: Config, text: string, prompt: string, first: Extraction, x: Extraction, later: seq<Extraction>)
    requires AskedAfter(cfg, text, prompt, first, []) == Success(x) && !FoundNothing(x)
    requires FoundInTurn(cfg, text, prompt, Combine(first, x), later)
    ensures FoundInTurn(cfg, text, prompt, first, [x] + later)
  {
    hide Grown, Combine;
    var extras := [x] + later;
    forall k | 0 <= k < |extras|
      ensures AskedAfter(cfg, text, prompt, first, extras[..k]) == Success(extras[k])
              && (extras[k].entities != [] || extras[k].relationships != [])
    {
      if k == 0 {
        assert extras[..0] == [];
      } else {
        assert extras[..k] == [x] + later[..k - 1] && extras[k] == later[k - 1];
        GrownFromTwo(first, x, later[..k - 1]);
      }
    }
  }

  lemma EndsOnePassLater(cfg: Config, text: string, prompt: string, first: Extraction, x: Extraction, later: seq<Extraction>, budget: nat,
                         q: Result<Gleaned, CallError>, r: Result<Gleaned, CallError>)
    requires budget > 0 && EndsAfter(cfg, text, prompt, Combine(first, x), later, budget - 1, q) && r == Pipeline.After(q, 1)
    ensures EndsAfter(cfg, text, prompt, first, [x] + later, budget, r)
  {
    hide Grown, Combine;
    GrownFromTwo(first, x, later);
  }

  /** One chunk: the first call, gleaning from its answer, and the mapping of what they found with its dates lifted. */
  lemma ChunkAnswers(cfg: Config, chunk: Chunk, prompt: string)
    ensures match ExtractOne(cfg, chunk, prompt)
            case Success(a) =>
              exists first, extras, g ::
                && cfg.provider(chunk.text, prompt) == Success(first)
                && FoundInTurn(cfg, chunk.text, prompt, first, extras)
                && EndsAfter(cfg, chunk.text, prompt, first, extras, cfg.gleanings, Success(g))
                && IsMappingOf(cfg, g.answer, a.mapped) && a.passes == g.passes && a.failures == g.failures
            case Failure(ProviderError(message)) => cfg.provider(chunk.text, prompt) == Failure(ProviderError(message))
            case Failure(OtherError(_)) => true
  {
    hide Mapped, FoundInTurn, EndsAfter;
    var asked := cfg.provider(chunk.text, prompt);
    if asked.Success? {
      GleaningOnlyAdds(cfg, chunk.text, prompt, asked.value, cfg.gleanings);
      WhatGleaningFound(cfg, chunk.text, prompt, asked.value, cfg.gleanings);
    }
  }

  // `m` is the answer mapped after its date-nodes are lifted out of it.
  ghost predicate IsMappingOf(cfg: Config, answer: Extraction, m: MappedExtraction) {
    var (x, lifted, dateNodes) := cfg.lift(answer);
    Mapped(cfg.scheme, cfg.dumps, x, lifted, dateNodes) == Success(m)
  }

  // ----- what each chunk was asked under

  // The names in `seen` are those of entities the first `n` chunks produced, one slot to a
  // normalised name and type, and none of theirs is missing.
  ghost predicate SeenIn(cfg: Config, chunks: seq<Chunk>, prompts: seq<string>, n: nat, seen: seq<Mention>)
    requires n <= |chunks| == |prompts|
  {
    && OneSlotEach(cfg.scheme.normalize, seen)
    && (forall m :: m in seen ==> exists i :: 0 <= i < n && Mentioned(ExtractOne(cfg, chunks[i], prompts[i]), m))
    && (forall i, m :: 0 <= i < n && Mentioned(ExtractOne(cfg, chunks[i], prompts[i]), m) ==> HasSlot(cfg.scheme.normalize, seen, m))
  }

  ghost predicate Mentioned(outcome: Result<Answered, CallError>, m: Mention) {
    outcome.Success? && exists e :: e in outcome.value.mapped.entities && m == Mention(e.name, e.entityType)
  }

  ghost function SeenAfter(cfg: Config, chunks: seq<Chunk>, prompts: seq<string>, run: Run, n: nat): seq<Mention>
    requires n <= |chunks| == |prompts| && Serially(cfg, chunks[..n], prompts[..n], run).Success?
  {
    Serially(cfg, chunks[..n], prompts[..n], run).value.seen
  }

  lemma {:induction false} NamesSeen(cfg: Config, chunks: seq<Chunk>, prompts: seq<string>, n: nat)
    requires n <= |chunks| == |prompts| && Serially(cfg, chunks[..n], prompts[..n], FRESH_RUN).Success?
    ensures SeenIn(cfg, chunks, prompts, n, SeenAfter(cfg, chunks, prompts, FRESH_RUN, n))
    ensures n > 0 ==>
              && Serially(cfg, chunks[..n - 1], prompts[..n - 1], FRESH_RUN).Success?
              && SeenAfter(cfg, chunks, prompts, FRESH_RUN, n - 1) <= SeenAfter(cfg, chunks, prompts, FRESH_RUN, n)
  {
    hide ExtractOne;
    if n > 0 {
      var k := n - 1;
      assert chunks[..n][..k] == chunks[..k] && prompts[..n][..k] == prompts[..k];
      NamesSeen(cfg, chunks, prompts, k);
      var outcome := ExtractOne(cfg, chunks[k], prompts[k]);
      var seen, later := SeenAfter(cfg, chunks, prompts, FRESH_RUN, k), SeenAfter(cfg, chunks, prompts, FRESH_RUN, n);
      assert later == RememberOne(cfg, seen, outcome);
      OneMoreIsSeen(cfg, chunks, prompts, k, seen, later);
    }
  }

  lemma OneMoreIsSeen(cfg: Config, chunks: seq<Chunk>, prompts: seq<string>, k: nat, seen: seq<Mention>, later: seq<Mention>)
    requires k < |chunks| == |prompts| && SeenIn(cfg, chunks, prompts, k, seen)
    requires later == RememberOne(cfg, seen, ExtractOne(cfg, chunks[k], prompts[k]))
    ensures SeenIn(cfg, chunks, prompts, k + 1, later) && seen <= later
  {
    hide ExtractOne;
    var outcome := ExtractOne(cfg, chunks[k], prompts[k]);
    if outcome.Success? {
      FirstSpellingStays(cfg.scheme.normalize, seen, outcome.value.mapped.entities);
      forall m | m in later ensures exists i :: 0 <= i < k + 1 && Mentioned(ExtractOne(cfg, chunks[i], prompts[i]), m) {
        var j :| 0 <= j < |later| && later[j] == m;
        if j < |seen| {
          assert m in seen;
        } else {
          assert Mentioned(outcome, m);
        }
      }
      forall i, m | 0 <= i < k + 1 && Mentioned(ExtractOne(cfg, chunks[i], prompts[i]), m)
        ensures HasSlot(cfg.scheme.normalize, later, m)
      {
        if i < k {
          SlotsStay(cfg.scheme.normalize, seen, later, m);
        }
      }
    }
  }

  lemma SlotsStay(normalize: Normalizer, seen: seq<Mention>, later: seq<Mention>, m: Mention)
    requires seen <= later && HasSlot(normalize, seen, m)
    ensures HasSlot(normalize, later, m)
  {
    var i :| 0 <= i < |seen| && SameName(normalize, seen[i], m);
    assert later[i] == seen[i];
  }

  // The prompt of chunk `i`, in the batch that `k` batches come before.
  lemma {:induction false} PromptOfBatch(cfg: Config, concurrency: nat, chunks: seq<Chunk>, run: Run, i: nat, k: nat, start: nat)
    requires concurrency >= 1 && i < |chunks| && start == k * concurrency && start <= i < start + concurrency
    requires Serially(cfg, chunks[..start], Prompts(cfg, concurrency, chunks, run)[..start], run).Success?
    ensures var prompts := Prompts(cfg, concurrency, chunks, run);
            prompts[i] == PromptFor(cfg, SeenAfter(cfg, chunks, prompts, run, start))
    decreases k
  {
    hide Serially, PromptFor, Prompts, Same;
    var n := BatchSize(chunks, concurrency);
    var prompt, prompts := PromptFor(cfg, run.seen), Prompts(cfg, concurrency, chunks, run);
    var rest := LaterPrompts(cfg, concurrency, chunks, run);
    if k == 0 {
      NothingYet(cfg, run);
      assert chunks[..0] == [] && prompts[..0] == [];
      SameAt(prompt, n, i);
      assert prompts[i] == Same(prompt, n)[i];
    } else {
      OneBatchFewer(k, concurrency);
      assert n == concurrency;
      assert prompts[..start] == Same(prompt, n) + rest[..start - n];
      assert chunks[..start] == chunks[..n] + chunks[n..start];
      SeriallyInTwo(cfg, chunks[..n], Same(prompt, n), chunks[n..start], rest[..start - n], run);
      var next := Serially(cfg, chunks[..n], Same(prompt, n), run).value;
      assert chunks[n..][..start - n] == chunks[n..start];
      PromptOfBatch(cfg, concurrency, chunks[n..], next, i - n, k - 1, start - n);
    }
  }

  lemma NothingYet(cfg: Config, run: Run)
    ensures Serially(cfg, [], [], run) == Success(run)
  {
  }

  lemma SameAt(prompt: string, n: nat, i: nat)
    requires i < n
    ensures Same(prompt, n)[i] == prompt
  {
  }

  lemma OneBatchFewer(k: nat, n: nat)
    requires k >= 1
    ensures k * n >= n && (k - 1) * n == k * n - n
  {
  }

  // What `seen` offers the next prompt is what `offered` holds: its end, up to the limit.
  ghost predicate Offers(limit: nat, seen: seq<Mention>, offered: seq<Mention>) {
    |offered| == (if |seen| <= limit then |seen| else limit) && offered == seen[|seen| - |offered|..]
  }

  /**
   Every chunk is asked under the system prompt and the names carried over: the most recently first
   seen, up to the limit, of those produced by the chunks before its batch.  Batches begin at the
   multiples of the concurrency.
   */
  lemma PromptsCarryNamesOver(cfg: Config, concurrency: nat, chunks: seq<Chunk>, i: nat, k: nat, start: nat)
    requires concurrency >= 1 && i < |chunks| && start == k * concurrency && start <= i < start + concurrency
    requires Serially(cfg, chunks[..start], Prompts(cfg, concurrency, chunks, FRESH_RUN)[..start], FRESH_RUN).Success?
    ensures var prompts := Prompts(cfg, concurrency, chunks, FRESH_RUN);
            exists seen, offered ::
              && SeenIn(cfg, chunks, prompts, start, seen)
              && Offers(cfg.carryoverLimit, seen, offered) && prompts[i] == cfg.systemPrompt + cfg.block(offered)
  {
    hide Prompts, Serially, SeenIn;
    var prompts := Prompts(cfg, concurrency, chunks, FRESH_RUN);
    PromptOfBatch(cfg, concurrency, chunks, FRESH_RUN, i, k, start);
    NamesSeen(cfg, chunks, prompts, start);
    var seen := SeenAfter(cfg, chunks, prompts, FRESH_RUN, start);
    assert SeenIn(cfg, chunks, prompts, start, seen);
    var offered := Recent(seen, cfg.carryoverLimit);
    assert Offers(cfg.carryoverLimit, seen, offered);
    assert prompts[i] == cfg.systemPrompt + cfg.block(offered);
  }

  // ----- what the result holds

  ghost function OutcomesOf(cfg: Config, chunks: seq<Chunk>, prompts: seq<string>): Outcomes
    requires |prompts| == |chunks|
  {
    seq(|chunks|, i requires 0 <= i < |chunks| => ExtractOne(cfg, chunks[i], prompts[i]))
  }

  // The mapped answers of the calls that succeeded, in document order.
  ghost function Answers(outcomes: Outcomes): seq<MappedExtraction> {
    if outcomes == [] then []
    else
      var last := outcomes[|outcomes| - 1];
      Answers(outcomes[..|outcomes| - 1]) + if last.Success? then [last.value.mapped] else []
  }

  ghost function Failed(): Result<Answered, CallError> -> bool {
    (o: Result<Answered, CallError>) => o.Failure?
  }

  ghost function PassesOf(): Result<Answered, CallError> -> nat {
    (o: Result<Answered, CallError>) => if o.Success? then o.value.passes else 0
  }

  ghost function FailuresOf(): Result<Answered, CallError> -> nat {
    (o: Result<Answered, CallError>) => if o.Success? then o.value.failures else 0
  }

  lemma {:induction false} RunHolds(cfg: Config, chunks: seq<Chunk>, prompts: seq<string>, run: Run)
    requires |prompts| == |chunks| && Serially(cfg, chunks, prompts, FRESH_RUN) == Success(run)
    ensures var outcomes := OutcomesOf(cfg, chunks, prompts);
            && run.parts == Answers(outcomes) && run.failed == |Where(outcomes, Failed())|
            && run.gleaned == SumOf(outcomes, PassesOf()) && run.failedGleanings == SumOf(outcomes, FailuresOf())
  {
    hide ExtractOne, Where;
    var outcomes := OutcomesOf(cfg, chunks, prompts);
    if chunks == [] {
      NoneIn(Failed());
      assert outcomes == [];
    } else {
      var n := |chunks| - 1;
      var earlier := Serially(cfg, chunks[..n], prompts[..n], FRESH_RUN).value;
      RunHolds(cfg, chunks[..n], prompts[..n], earlier);
      assert outcomes[..n] == OutcomesOf(cfg, chunks[..n], prompts[..n]);
      OneMoreIn(outcomes, Failed());
    }
  }

  lemma {:induction false} AnswersAre(outcomes: Outcomes)
    ensures forall m :: m in Answers(outcomes) <==> exists o :: o in outcomes && o.Success? && o.value.mapped == m
  {
    if outcomes != [] {
      var n := |outcomes| - 1;
      AnswersAre(outcomes[..n]);
      assert outcomes == outcomes[..n] + [outcomes[n]];
    }
  }

  /**
   What a run returns: the merge of the answers that came, in order, how many calls failed and how
   many there were, how often it gleaned and how often that failed, and how many chunks named each.
   */
  lemma ResultHolds(cfg: Config, concurrency: nat, chunks: seq<Chunk>)
    requires concurrency >= 1 && Pipeline.Extracted(cfg, concurrency, chunks).Success?
    ensures var r, outcomes := Pipeline.Extracted(cfg, concurrency, chunks).value, OutcomesOf(cfg, chunks, Prompts(cfg, concurrency, chunks, FRESH_RUN));
            && r.extraction == MergeOf(cfg.dumps, Answers(outcomes))
            && r.failedChunks == |Where(outcomes, Failed())| && r.totalChunks == |chunks|
            && r.gleaningPasses == SumOf(outcomes, PassesOf()) && r.failedGleanings == SumOf(outcomes, FailuresOf())
            && r.mentionCounts == Counted(AllEntities(Answers(outcomes)))
  {
    hide Serially, Batches, Prompts, Where, Answers, MergeOf, StoringError, Passages, Preimage, Counted, AllEntities;
    BatchesAreSerial(cfg, concurrency, chunks, FRESH_RUN);
    RunHolds(cfg, chunks, Prompts(cfg, concurrency, chunks, FRESH_RUN), Batches(cfg, concurrency, chunks, FRESH_RUN).value);
  }

  ghost predicate AnsweredWith(cfg: Config, chunk: Chunk, prompt: string, x: Extraction) {
    exists first, g :: cfg.provider(chunk.text, prompt) == Success(first)
                       && GleanMore(cfg, chunk.text, prompt, first, cfg.gleanings) == Success(g)
                       && cfg.lift(g.answer).0 == x
  }

  lemma AnAnswerIsMapped(cfg: Config, chunk: Chunk, prompt: string, x: Extraction)
    requires AnsweredWith(cfg, chunk, prompt, x) && ExtractOne(cfg, chunk, prompt).Success?
    ensures exists lifted, dateNodes ::
              Mapped(cfg.scheme, cfg.dumps, x, lifted, dateNodes) == Success(ExtractOne(cfg, chunk, prompt).value.mapped)
  {
    hide Mapped;
    var first, g :| cfg.provider(chunk.text, prompt) == Success(first)
                    && GleanMore(cfg, chunk.text, prompt, first, cfg.gleanings) == Success(g)
                    && cfg.lift(g.answer).0 == x;
    var (y, lifted, dateNodes) := cfg.lift(g.answer);
    assert Mapped(cfg.scheme, cfg.dumps, x, lifted, dateNodes) == Success(ExtractOne(cfg, chunk, prompt).value.mapped);
  }

  lemma AnswerOfChunkIsMerged(cfg: Config, concurrency: nat, chunks: seq<Chunk>, i: nat)
    requires concurrency >= 1 && i < |chunks| && Pipeline.Extracted(cfg, concurrency, chunks).Success?
    requires ExtractOne(cfg, chunks[i], Prompts(cfg, concurrency, chunks, FRESH_RUN)[i]).Success?
    ensures var outcomes := OutcomesOf(cfg, chunks, Prompts(cfg, concurrency, chunks, FRESH_RUN));
            && ExtractOne(cfg, chunks[i], Prompts(cfg, concurrency, chunks, FRESH_RUN)[i]).value.mapped in Answers(outcomes)
            && Pipeline.Extracted(cfg, concurrency, chunks).value.extraction == MergeOf(cfg.dumps, Answers(outcomes))
  {
    hide ExtractOne, Prompts, Answers, MergeOf, Pipeline.Extracted;
    ResultHolds(cfg, concurrency, chunks);
    var outcomes := OutcomesOf(cfg, chunks, Prompts(cfg, concurrency, chunks, FRESH_RUN));
    AnswersAre(outcomes);
    assert outcomes[i] in outcomes;
  }

  ghost predicate HoldsRow(cfg: Config, result: MappedExtraction, row: ExtractedEntity) {
    exists mention, kept :: IsTheEntity(cfg.scheme, row, mention) && kept in result.entities && StandsFor(cfg.dumps, kept, mention)
  }

  /** Every usable row any chunk was answered with, first asked or gleaned, is in the result: itself or a mention no worse. */
  lemma EveryRowReachesTheResult(cfg: Config, concurrency: nat, chunks: seq<Chunk>, i: nat, x: Extraction, row: ExtractedEntity)
    requires Derives(cfg.scheme) && concurrency >= 1 && i < |chunks| && Pipeline.Extracted(cfg, concurrency, chunks).Success?
    requires AnsweredWith(cfg, chunks[i], Prompts(cfg, concurrency, chunks, FRESH_RUN)[i], x)
    requires ExtractOne(cfg, chunks[i], Prompts(cfg, concurrency, chunks, FRESH_RUN)[i]).Success?
    requires row in x.entities && Usable(cfg.scheme, row)
    ensures HoldsRow(cfg, Pipeline.Extracted(cfg, concurrency, chunks).value.extraction, row)
  {
    hide Derives, ExtractOne, Prompts, Answers, MergeOf, Pipeline.Extracted, Mapped, Usable, IsTheEntity, StandsFor, AnsweredWith;
    var prompt := Prompts(cfg, concurrency, chunks, FRESH_RUN)[i];
    AnswerOfChunkIsMerged(cfg, concurrency, chunks, i);
    AnAnswerIsMapped(cfg, chunks[i], prompt, x);
    var part := ExtractOne(cfg, chunks[i], prompt).value.mapped;
    var lifted, dateNodes :| Mapped(cfg.scheme, cfg.dumps, x, lifted, dateNodes) == Success(part);
    EveryUsableRowIsMapped(cfg.scheme, cfg.dumps, x, lifted, dateNodes, row);
    var mention, here :| IsTheEntity(cfg.scheme, row, mention) && here in part.entities && StandsFor(cfg.dumps, here, mention);
    var answers := Answers(OutcomesOf(cfg, chunks, Prompts(cfg, concurrency, chunks, FRESH_RUN)));
    MergedEntityIsNoWorse(cfg.dumps, answers, part, here);
    var kept :| kept in MergeOf(cfg.dumps, answers).entities && StandsFor(cfg.dumps, kept, here);
    StandingForIsTransitive(cfg.dumps, kept, here, mention);
  }

  /** And whatever a chunk was answered two entities have to do with each other is in the result, said no worse. */
  lemma EveryEdgeReachesTheResult(cfg: Config, concurrency: nat, chunks: seq<Chunk>, i: nat, x: Extraction,
                                  r: ExtractedRelationship, a: EntityId, b: EntityId)
    requires Derives(cfg.scheme) && concurrency >= 1 && i < |chunks| && Pipeline.Extracted(cfg, concurrency, chunks).Success?
    requires AnsweredWith(cfg, chunks[i], Prompts(cfg, concurrency, chunks, FRESH_RUN)[i], x)
    requires ExtractOne(cfg, chunks[i], Prompts(cfg, concurrency, chunks, FRESH_RUN)[i]).Success?
    requires r in x.relationships && Finds(cfg.scheme, x.entities, r.sourceName, a) && Finds(cfg.scheme, x.entities, r.targetName, b) && a != b
    ensures SaidBetween(cfg.dumps, Pipeline.Extracted(cfg, concurrency, chunks).value.extraction, r, a, b)
  {
    hide ExtractOne, Prompts, Answers, MergeOf, Pipeline.Extracted, Mapped, Finds, SaidNoWorse, AnsweredWith;
    var prompts := Prompts(cfg, concurrency, chunks, FRESH_RUN);
    AnswerOfChunkIsMerged(cfg, concurrency, chunks, i);
    AnAnswerIsMapped(cfg, chunks[i], prompts[i], x);
    var part := ExtractOne(cfg, chunks[i], prompts[i]).value.mapped;
    var lifted, dateNodes :| Mapped(cfg.scheme, cfg.dumps, x, lifted, dateNodes) == Success(part);
    EveryStatedEdgeIsMapped(cfg.scheme, cfg.dumps, x, lifted, dateNodes, r, a, b);
    var here :| here in part.relationships && here.source == a && here.target == b && here.relationshipType == r.relationshipType
                && SaidNoWorse(cfg.dumps, here, Relationship(here.id, a, b, r.relationshipType, here.sourceId, r.properties, r.confidence));
    var answers := Answers(OutcomesOf(cfg, chunks, prompts));
    MergedEdgeIsNoWorse(cfg.dumps, answers, part, here);
    var kept :| kept in MergeOf(cfg.dumps, answers).relationships && StandsForEdge(cfg.dumps, kept, here);
    MergedWasMentioned(cfg.dumps, answers);
    var other :| other in answers && kept in other.relationships;
    AnswersAreMapped(cfg, OutcomesOf(cfg, chunks, prompts), chunks, prompts, other);
    EdgeIsDerived(cfg.scheme, cfg.dumps, part, here);
    EdgeIsDerived(cfg.scheme, cfg.dumps, other, kept);
    SameEdgeId(cfg.scheme, kept, here);
    var said := Relationship(here.id, a, b, r.relationshipType, here.sourceId, r.properties, r.confidence);
    SaidNoWorseIsTransitive(cfg.dumps, kept, here, said);
    OnlyWhatIsSaidCounts(cfg.dumps, kept, said, Relationship(kept.id, a, b, r.relationshipType, kept.sourceId, r.properties, r.confidence));
  }

  lemma AnswersAreMapped(cfg: Config, outcomes: Outcomes, chunks: seq<Chunk>, prompts: seq<string>, part: MappedExtraction)
    requires |prompts| == |chunks| && outcomes == OutcomesOf(cfg, chunks, prompts) && part in Answers(outcomes)
    ensures MappedBy(cfg.scheme, cfg.dumps, part)
  {
    hide Mapped, Answers;
    AnswersAre(outcomes);
    var o :| o in outcomes && o.Success? && o.value.mapped == part;
    var i :| 0 <= i < |outcomes| && outcomes[i] == o;
    var g := GleanMore(cfg, chunks[i].text, prompts[i], cfg.provider(chunks[i].text, prompts[i]).value, cfg.gleanings).value;
    var (x, lifted, dateNodes) := cfg.lift(g.answer);
    assert Mapped(cfg.scheme, cfg.dumps, x, lifted, dateNodes) == Success(part);
  }
}
