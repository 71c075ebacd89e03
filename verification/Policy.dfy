/**
 The score bands, and the batched questions to a model about the pairs in the middle one: every
 answer has to land on the pair it was asked about.
 */
module Policy {
  import opened Sequences
  import opened Wrappers
  import opened Domain

  // ----- the bands

  datatype MergeDecision = Merge | Adjudicate | Reject

  datatype PolicyError = InvertedBand

  const HIGH_SIMILARITY := 0.92
  const LOW_SIMILARITY := 0.75

  function Decide(score: real, high: real := HIGH_SIMILARITY, low: real := LOW_SIMILARITY): (r: Result<MergeDecision, PolicyError>)
    ensures r.Failure? <==> low > high
    ensures r == Success(Merge) <==> score >= high >= low
    ensures r == Success(Adjudicate) <==> high > score >= low
    ensures r == Success(Reject) <==> score < low <= high
  {
    if low > high then Failure(InvertedBand)
    else if score >= high then Success(Merge)
    else if score >= low then Success(Adjudicate)
    else Success(Reject)
  }

  function Strength(d: MergeDecision): nat {
    match d
    case Reject => 0
    case Adjudicate => 1
    case Merge => 2
  }

  /** A higher score never gets a weaker decision, nor does a score against lower thresholds. */
  lemma DecisionsAreMonotone(score: real, other: real, high: real, low: real, high': real, low': real)
    requires score <= other && low <= high && low' <= high' && high' <= high && low' <= low
    ensures Strength(Decide(score, high, low).value) <= Strength(Decide(other, high', low').value)
  {
  }

  /**
   Some score goes to the model exactly when the thresholds differ.  The guard against a band that
   cannot be entered refuses only inverted thresholds: equal ones shut it just as silently.
   */
  lemma TheBandIsOpenExactlyWhen(high: real, low: real)
    ensures (exists score :: Decide(score, high, low) == Success(Adjudicate)) <==> low < high
    ensures Decide(HIGH_SIMILARITY) == Success(Merge) && Decide(LOW_SIMILARITY) == Success(Adjudicate)
  {
    if low < high {
      assert Decide(low, high, low) == Success(Adjudicate);
    }
  }

  // ----- questions and answers

  datatype Question = Question(
    left: string, right: string, entityType: string,
    leftDescription: Option<string>, rightDescription: Option<string>)

  datatype Verdict = Verdict(same: bool, confidence: real, reason: string)

  // A model answering its n-th call; None is a provider error.  It may answer with any number
  // of verdicts.
  type Provider = (nat, seq<Question>) -> Option<seq<Verdict>>

  datatype Work = Work(subject: Entity, candidates: seq<Entity>)

  function Ask(subject: Entity, candidate: Entity): Question {
    Question(subject.name, candidate.name, subject.entityType, subject.description, candidate.description)
  }

  // One question per candidate, the subject on the left.
  function AskAll(w: Work): (questions: seq<Question>)
    ensures |questions| == |w.candidates|
    ensures forall i :: 0 <= i < |questions| ==>
              && questions[i].left == w.subject.name && questions[i].leftDescription == w.subject.description
              && questions[i].right == w.candidates[i].name && questions[i].rightDescription == w.candidates[i].description
              && questions[i].entityType == w.subject.entityType
  {
    seq(|w.candidates|, i requires 0 <= i < |w.candidates| => Ask(w.subject, w.candidates[i]))
  }

  function Flat(work: seq<Work>): seq<Question> {
    if work == [] then [] else Flat(work[..|work| - 1]) + AskAll(work[|work| - 1])
  }

  // What each pair of a batch is told: its own verdict, or nothing if the alignment is unknown.
  function Paired(answer: Option<seq<Verdict>>, asked: nat): (verdicts: seq<Option<Verdict>>)
    ensures |verdicts| == asked
    ensures forall i :: 0 <= i < asked ==>
              verdicts[i] == if answer.Some? && |answer.value| == asked then Some(answer.value[i]) else None
  {
    if answer.Some? && |answer.value| == asked then seq(asked, i requires 0 <= i < asked => Some(answer.value[i]))
    else seq(asked, i => None)
  }

  function BatchEnd(asked: nat, size: nat): (end: nat)
    ensures end <= asked && end <= size
  {
    if asked <= size then asked else size
  }

  // The verdicts on `questions`, asked in batches of `size` from call `call` on.
  function Verdicts(provider: Provider, size: nat, call: nat, questions: seq<Question>): (verdicts: seq<Option<Verdict>>)
    requires size > 0
    ensures |verdicts| == |questions|
    decreases |questions|
  {
    if questions == [] then []
    else
      var end := BatchEnd(|questions|, size);
      Paired(provider(call, questions[..end]), end) + Verdicts(provider, size, call + 1, questions[end..])
  }

  // ----- each answer belongs to the pair it was asked about

  // Which batch of `size` the question at `k` is in, and where that batch starts.
  function BatchNumber(k: nat, size: nat): nat
    requires size > 0
  {
    if k < size then 0 else 1 + BatchNumber(k - size, size)
  }

  function BatchStart(k: nat, size: nat): (start: nat)
    requires size > 0
    ensures start <= k < start + size
  {
    if k < size then 0 else size + BatchStart(k - size, size)
  }

  // The verdict at `k`, worked out from the one call whose batch holds it.
  ghost predicate AnsweredInItsBatch(provider: Provider, size: nat, call: nat, questions: seq<Question>, k: nat, verdict: Option<Verdict>)
    requires size > 0 && k < |questions|
  {
    var start := BatchStart(k, size);
    var end := start + BatchEnd(|questions| - start, size);
    var answer := provider(call + BatchNumber(k, size), questions[start..end]);
    && k < end
    && verdict == if answer.Some? && |answer.value| == end - start then Some(answer.value[k - start]) else None
  }

  lemma OneBatchOn(provider: Provider, size: nat, call: nat, questions: seq<Question>, k: nat, verdict: Option<Verdict>)
    requires 0 < size <= k < |questions|
    requires AnsweredInItsBatch(provider, size, call + 1, questions[size..], k - size, verdict)
    ensures AnsweredInItsBatch(provider, size, call, questions, k, verdict)
  {
    var rest, earlier := questions[size..], BatchStart(k - size, size);
    var end := earlier + BatchEnd(|rest| - earlier, size);
    assert BatchStart(k, size) == size + earlier && BatchNumber(k, size) == 1 + BatchNumber(k - size, size);
    SliceOfRest(questions, size, earlier, end);
  }

  lemma FirstBatch(provider: Provider, size: nat, call: nat, questions: seq<Question>, k: nat)
    requires k < size && k < |questions|
    ensures AnsweredInItsBatch(provider, size, call, questions, k, Verdicts(provider, size, call, questions)[k])
  {
    var end := BatchEnd(|questions|, size);
    assert questions[0..end] == questions[..end];
    assert Verdicts(provider, size, call, questions)[k] == Paired(provider(call, questions[..end]), end)[k];
  }

  lemma LaterBatch(provider: Provider, size: nat, call: nat, questions: seq<Question>, k: nat)
    requires 0 < size <= k < |questions|
    ensures Verdicts(provider, size, call, questions)[k] == Verdicts(provider, size, call + 1, questions[size..])[k - size]
  {
    hide Paired;
  }

  /** A failed or misaligned batch gives None to exactly the pairs in it; any other verdict is the pair's own. */
  lemma {:induction false} EachAnswerIsItsOwn(provider: Provider, size: nat, call: nat, questions: seq<Question>, k: nat)
    requires size > 0 && k < |questions|
    ensures AnsweredInItsBatch(provider, size, call, questions, k, Verdicts(provider, size, call, questions)[k])
    decreases |questions|
  {
    if k < size {
      FirstBatch(provider, size, call, questions, k);
    } else {
      hide AnsweredInItsBatch, Paired, Verdicts;
      var verdict := Verdicts(provider, size, call, questions)[k];
      LaterBatch(provider, size, call, questions, k);
      EachAnswerIsItsOwn(provider, size, call + 1, questions[size..], k - size);
      OneBatchOn(provider, size, call, questions, k, verdict);
    }
  }

  // ----- slices

  // Where the answers about `work[i]` begin.
  function Offset(work: seq<Work>, i: nat): nat
    requires i <= |work|
  {
    if i == 0 then 0 else Offset(work, i - 1) + |work[i - 1].candidates|
  }

  lemma {:induction false} FlatIsSliced(work: seq<Work>, i: nat)
    requires i < |work|
    ensures Offset(work, i) + |work[i].candidates| <= |Flat(work)|
    ensures Flat(work)[Offset(work, i)..Offset(work, i) + |work[i].candidates|] == AskAll(work[i])
    ensures |Flat(work)| == Offset(work, |work|)
  {
    var n := |work| - 1;
    SameOffset(work, n, i);
    SameOffset(work, n, n);
    if i < n {
      FlatIsSliced(work[..n], i);
      var from := Offset(work, i);
      var to := from + |work[i].candidates|;
      assert Flat(work)[from..to] == Flat(work[..n])[from..to];
    } else {
      FlatLength(work[..n]);
    }
  }

  lemma {:induction false} SameOffset(work: seq<Work>, n: nat, i: nat)
    requires i <= n <= |work|
    ensures Offset(work[..n], i) == Offset(work, i)
  {
    if i > 0 {
      SameOffset(work, n, i - 1);
    }
  }

  lemma {:induction false} FlatLength(work: seq<Work>)
    ensures |Flat(work)| == Offset(work, |work|)
  {
    if work != [] {
      FlatLength(work[..|work| - 1]);
      SameOffset(work, |work| - 1, |work| - 1);
    }
  }

  function Resliced(work: seq<Work>, verdicts: seq<Option<Verdict>>, i: nat): seq<Option<Verdict>>
    requires |verdicts| == |Flat(work)| && i < |work|
  {
    FlatIsSliced(work, i);
    verdicts[Offset(work, i)..Offset(work, i) + |work[i].candidates|]
  }

  lemma ReslicedAt(work: seq<Work>, verdicts: seq<Option<Verdict>>, i: nat)
    requires |verdicts| == |Flat(work)| && i < |work|
    ensures Offset(work, i) + |work[i].candidates| <= |verdicts|
    ensures Resliced(work, verdicts, i) == verdicts[Offset(work, i)..Offset(work, i) + |work[i].candidates|]
  {
    FlatIsSliced(work, i);
  }

  // The verdicts so far, and those still to come, are all of them.
  ghost predicate AskedUpTo(provider: Provider, size: nat, questions: seq<Question>, call: nat, done: nat,
                            verdicts: seq<Option<Verdict>>)
    requires size > 0 && done <= |questions|
  {
    verdicts + Verdicts(provider, size, call, questions[done..]) == Verdicts(provider, size, 0, questions)
  }

  lemma AskedNothing(provider: Provider, size: nat, questions: seq<Question>)
    requires size > 0
    ensures AskedUpTo(provider, size, questions, 0, 0, [])
  {
    assert questions[0..] == questions;
  }

  lemma AskedEverything(provider: Provider, size: nat, questions: seq<Question>, call: nat, verdicts: seq<Option<Verdict>>)
    requires size > 0 && AskedUpTo(provider, size, questions, call, |questions|, verdicts)
    ensures verdicts == Verdicts(provider, size, 0, questions)
  {
  }

  lemma OneBatchFirst(provider: Provider, size: nat, call: nat, questions: seq<Question>)
    requires size > 0 && questions != []
    ensures var n := BatchEnd(|questions|, size);
            Verdicts(provider, size, call, questions)
            == Paired(provider(call, questions[..n]), n) + Verdicts(provider, size, call + 1, questions[n..])
  {
    hide Paired;
  }

  lemma NextBatch(provider: Provider, size: nat, questions: seq<Question>, call: nat, done: nat, verdicts: seq<Option<Verdict>>)
    requires size > 0 && done < |questions| && AskedUpTo(provider, size, questions, call, done, verdicts)
    ensures var end := done + BatchEnd(|questions| - done, size);
            AskedUpTo(provider, size, questions, call + 1, end, verdicts + Paired(provider(call, questions[done..end]), end - done))
  {
    hide Paired, Verdicts;
    var n := BatchEnd(|questions| - done, size);
    var rest, end := questions[done..], done + n;
    SliceOfRest(questions, done, 0, n);
    SliceOfRest(questions, done, n, |questions| - done);
    assert rest[0..n] == rest[..n] && rest[n..|rest|] == rest[n..] && questions[end..|questions|] == questions[end..];
    OneBatchFirst(provider, size, call, rest);
    Regrouped(verdicts, Paired(provider(call, questions[done..end]), n), Verdicts(provider, size, call + 1, questions[end..]));
  }

  // ----- the adjudicator

  class Adjudicator {
    const provider: Provider
    const batchSize: nat

    ghost predicate Valid() {
      batchSize > 0
    }

    constructor (provider: Provider, batchSize: nat)
      requires batchSize >= 1
      ensures Valid() && this.provider == provider && this.batchSize == batchSize
    {
      this.provider, this.batchSize := provider, batchSize;
    }

    // One verdict per candidate of a single subject, as `ManyIsEach` compares with.
    method AdjudicateOne(w: Work) returns (verdicts: seq<Option<Verdict>>)
      requires Valid()
      ensures verdicts == Verdicts(provider, batchSize, 0, AskAll(w))
    {
      verdicts := InBatches(AskAll(w));
    }

    // Ask in batches, in order.
    method InBatches(questions: seq<Question>) returns (verdicts: seq<Option<Verdict>>)
      requires Valid()
      ensures verdicts == Verdicts(provider, batchSize, 0, questions)
    {
      hide AskedUpTo, Verdicts, Paired;
      verdicts := [];
      var call, done := 0, 0;
      AskedNothing(provider, batchSize, questions);
      while done < |questions|
        invariant done <= |questions|
        invariant AskedUpTo(provider, batchSize, questions, call, done, verdicts)
      {
        var end := done + BatchEnd(|questions| - done, batchSize);
        var told := OneBatch(call, questions[done..end]);
        NextBatch(provider, batchSize, questions, call, done, verdicts);
        verdicts := verdicts + told;
        call, done := call + 1, end;
      }
      AskedEverything(provider, batchSize, questions, call, verdicts);
    }

    method OneBatch(call: nat, batch: seq<Question>) returns (verdicts: seq<Option<Verdict>>)
      ensures verdicts == Paired(provider(call, batch), |batch|)
    {
      var answer := provider(call, batch);
      match answer
      case None =>
        verdicts := seq(|batch|, i => None);
      case Some(given) =>
        if |given| == |batch| {
          verdicts := seq(|batch|, i requires 0 <= i < |batch| => Some(given[i]));
        } else {
          verdicts := seq(|batch|, i => None);
        }
    }

    // Batches that span subjects, re-sliced by a cursor.  The mismatch it guards against never happens.
    method AdjudicateMany(work: seq<Work>) returns (results: Result<seq<seq<Option<Verdict>>>, string>)
      requires Valid()
      ensures results.Success? && |results.value| == |work|
      ensures forall i :: 0 <= i < |work| ==>
                |results.value[i]| == |work[i].candidates|
                && results.value[i] == Resliced(work, Verdicts(provider, batchSize, 0, Flat(work)), i)
    {
      var flat := [];
      for i := 0 to |work|
        invariant flat == Flat(work[..i])
      {
        assert work[..i + 1][..i] == work[..i];
        flat := flat + AskAll(work[i]);
      }
      assert work[..|work|] == work;
      hide Flat, Verdicts;
      var verdicts := InBatches(flat);
      results := Reslice(work, verdicts);
    }

    method Reslice(work: seq<Work>, verdicts: seq<Option<Verdict>>) returns (results: Result<seq<seq<Option<Verdict>>>, string>)
      requires |verdicts| == |Flat(work)|
      ensures results.Success? && |results.value| == |work|
      ensures forall i :: 0 <= i < |work| ==>
                |results.value[i]| == |work[i].candidates| && results.value[i] == Resliced(work, verdicts, i)
    {
      hide Flat, Resliced;
      var sliced := [];
      var cursor := 0;
      FlatLength(work);
      for i := 0 to |work|
        invariant |sliced| == i && cursor == Offset(work, i)
        invariant forall j :: 0 <= j < i ==> |sliced[j]| == |work[j].candidates| && sliced[j] == Resliced(work, verdicts, j)
      {
        ReslicedAt(work, verdicts, i);
        sliced := sliced + [verdicts[cursor..cursor + |work[i].candidates|]];
        cursor := cursor + |work[i].candidates|;
      }
      if cursor != |verdicts| {
        return Failure("re-paired a different number of verdicts than was asked for");
      }
      return Success(sliced);
    }
  }

  // ----- batching does not change what is answered

  // The model judges each pair on its own and never fails.
  ghost predicate Pointwise(provider: Provider, judge: Question -> Verdict) {
    forall call: nat, questions :: provider(call, questions) == Some(seq(|questions|, i requires 0 <= i < |questions| => judge(questions[i])))
  }

  lemma {:induction false} PointwiseVerdicts(provider: Provider, judge: Question -> Verdict, size: nat, call: nat, questions: seq<Question>)
    requires size > 0 && Pointwise(provider, judge)
    ensures Verdicts(provider, size, call, questions) == seq(|questions|, i requires 0 <= i < |questions| => Some(judge(questions[i])))
    decreases |questions|
  {
    if questions != [] {
      var end := BatchEnd(|questions|, size);
      PointwiseVerdicts(provider, judge, size, call + 1, questions[end..]);
    }
  }

  /**
   With such a model, asking about many subjects at once tells each what asking about it
   alone would have, whatever the two batch sizes.
   */
  lemma ManyIsEach(provider: Provider, judge: Question -> Verdict, size: nat, other: nat, work: seq<Work>, i: nat)
    requires size > 0 && other > 0 && Pointwise(provider, judge) && i < |work|
    ensures Resliced(work, Verdicts(provider, size, 0, Flat(work)), i) == Verdicts(provider, other, 0, AskAll(work[i]))
  {
    hide Pointwise, Verdicts;
    PointwiseVerdicts(provider, judge, size, 0, Flat(work));
    PointwiseVerdicts(provider, judge, other, 0, AskAll(work[i]));
    FlatIsSliced(work, i);
    var from := Offset(work, i);
    forall j | 0 <= j < |work[i].candidates| ensures Flat(work)[from + j] == AskAll(work[i])[j] {
      assert Flat(work)[from..from + |work[i].candidates|][j] == AskAll(work[i])[j];
    }
  }
}
