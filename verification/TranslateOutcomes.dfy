/** What becomes of a batch: which answers are accepted, when translating succeeds, how it can
    fail, and why the calls nested in `translateBatch` are one prompt after the other. */
module TranslateOutcomes {
  import opened Options
  import opened JsText
  import opened TranslationBatches
  import opened TranslateBatch

  // ----- one answer

  /** The answer has a text that is not blank for the item. */
  ghost predicate Answered(fields: map<string, JsonValue>, item: BatchItem) {
    item.key in fields && fields[item.key].Text? && !IsBlank(fields[item.key].text)
  }

  /** An accepted answer has such a text for every item, and those texts are the result. */
  lemma {:induction false} AnswerAccepted(answer: Answer, items: seq<BatchItem>)
    ensures ReadAnswer(answer, items).Ok? <==>
      answer.Answered? && forall i :: 0 <= i < |items| ==> Answered(answer.fields, items[i])
    ensures ReadAnswer(answer, items).Ok? ==>
      var t := ReadAnswer(answer, items).value;
      t.Keys == Keys(items) && forall k :: k in t ==> answer.fields[k] == Text(t[k])
  {
    if answer.Answered? {
      forall i | 0 <= i < |items| ensures Covers(answer.fields, items[i]) <==> Answered(answer.fields, items[i]) {
        CoversMeans(answer.fields, items[i]);
      }
    }
    if ReadAnswer(answer, items).Ok? {
      AcceptedTexts(answer, items);
    }
  }

  lemma {:induction false} AcceptedTexts(answer: Answer, items: seq<BatchItem>)
    requires ReadAnswer(answer, items).Ok?
    ensures var t := ReadAnswer(answer, items).value;
      t.Keys == Keys(items) && forall k :: k in t ==> k in answer.fields && answer.fields[k] == Text(t[k])
  {
    if items != [] {
      AcceptedTexts(answer, items[..|items| - 1]);
      KeysLast(items);
    }
  }

  /** Any other is refused with the message it failed with, or for the first item without such a text. */
  lemma {:induction false} AnswerRefused(answer: Answer, items: seq<BatchItem>)
    requires ReadAnswer(answer, items).Err?
    ensures match answer
      case Failed(message) => ReadAnswer(answer, items).error == message
      case Answered(fields) => FirstMissing(fields, items, ReadAnswer(answer, items).error)
  {
    if answer.Answered? {
      var n := |items| - 1;
      CoversMeans(answer.fields, items[n]);
      if ReadAnswer(answer, items[..n]).Err? {
        AnswerRefused(answer, items[..n]);
        StillMissing(answer.fields, items, ReadAnswer(answer, items[..n]).error);
      } else {
        AnswerAccepted(answer, items[..n]);
        LastMissing(answer.fields, items);
      }
    }
  }

  lemma {:induction false} LastMissing(fields: map<string, JsonValue>, items: seq<BatchItem>)
    requires items != [] && !Answered(fields, items[|items| - 1])
    requires forall x :: x in items[..|items| - 1] ==> Answered(fields, x)
    ensures FirstMissing(fields, items, "missing translation for " + items[|items| - 1].key)
  {
    var n := |items| - 1;
    assert forall i :: 0 <= i < n ==> items[i] in items[..n];
    assert IsFirstMissing(fields, items, n, "missing translation for " + items[n].key);
  }

  lemma {:induction false} KeysLast(items: seq<BatchItem>)
    requires items != []
    ensures Keys(items) == Keys(items[..|items| - 1]) + {items[|items| - 1].key}
  {
    var n := |items| - 1;
    KeysSplit(items, n);
    assert items[n..] == [items[n]] && Keys([items[n]]) == {items[n].key};
  }

  lemma {:induction false} StillMissing(fields: map<string, JsonValue>, items: seq<BatchItem>, e: string)
    requires items != [] && FirstMissing(fields, items[..|items| - 1], e)
    ensures FirstMissing(fields, items, e)
  {
    var i: nat :| IsFirstMissing(fields, items[..|items| - 1], i, e);
    assert IsFirstMissing(fields, items, i, e);
  }

  ghost predicate FirstMissing(fields: map<string, JsonValue>, items: seq<BatchItem>, e: string) {
    exists i: nat :: IsFirstMissing(fields, items, i, e)
  }

  ghost predicate IsFirstMissing(fields: map<string, JsonValue>, items: seq<BatchItem>, i: nat, e: string) {
    && i < |items| && !Answered(fields, items[i]) && e == "missing translation for " + items[i].key
    && forall j :: 0 <= j < i ==> Answered(fields, items[j])
  }

  lemma {:induction false} CoversMeans(fields: map<string, JsonValue>, item: BatchItem)
    ensures Covers(fields, item) <==> Answered(fields, item)
  {
    if item.key in fields && fields[item.key].Text? {
      BlankTrimsToNothing(fields[item.key].text);
    }
  }

  // ----- a list of jobs, one prompt at a time

  /** A batch to be translated, perhaps for the second time. */
  datatype Job = Job(items: seq<BatchItem>, again: bool)

  /** The most prompts a job takes. */
  function Worst(job: Job): nat {
    4 * (if job.items == [] then 1 else |job.items|) - (if job.again then 3 else 2)
  }

  function WorstOf(jobs: seq<Job>): nat {
    if jobs == [] then 0 else Worst(jobs[0]) + WorstOf(jobs[1..])
  }

  /** Where a batch is split: an odd item goes to the first half. */
  function Half(n: nat): (h: nat)
    ensures n > 1 ==> 0 < h < n
    ensures h - (n - h) == n % 2
  {
    n - n / 2
  }

  function Halves(items: seq<BatchItem>): seq<Job>
    requires |items| > 1
  {
    [Job(items[..Half(|items|)], false), Job(items[Half(|items|)..], false)]
  }

  /** The jobs in order: a good answer finishes the first, a timeout on several items puts its halves in its
      place, any other first failure tries it once more, and everything else ends the run. */
  function Work(world: World, at: nat, jobs: seq<Job>, done: Translations): (Result<Translations, string>, nat)
    decreases WorstOf(jobs)
  {
    if jobs == [] then (Ok(done), at)
    else
      var job, rest := jobs[0], jobs[1..];
      match ReadAnswer(world.answers(at), job.items)
      case Ok(t) => Work(world, at + 1, rest, done + t)
      case Err(e) =>
        if world.timedOut(e) && |job.items| > 1 then
          WorstHalves(job, rest);
          Work(world, at + 1, Halves(job.items) + rest, done)
        else if !world.timedOut(e) && !job.again then
          WorstCons(Job(job.items, true), rest);
          Work(world, at + 1, [Job(job.items, true)] + rest, done)
        else (Err(e), at + 1)
  }

  lemma {:induction false} WorstCons(job: Job, rest: seq<Job>)
    ensures WorstOf([job] + rest) == Worst(job) + WorstOf(rest)
  {
    assert ([job] + rest)[1..] == rest;
  }

  lemma {:induction false} WorstHalves(job: Job, rest: seq<Job>)
    requires |job.items| > 1
    ensures WorstOf(Halves(job.items) + rest) < Worst(job) + WorstOf(rest)
  {
    var halves := Halves(job.items);
    assert halves + rest == [halves[0]] + ([halves[1]] + rest);
    WorstCons(halves[0], [halves[1]] + rest);
    WorstCons(halves[1], rest);
  }

  /** The nested calls are that list: a call gets as far as its job does, with what follows waiting. */
  lemma {:induction false} CallIsJob(
    world: World, at: nat, items: seq<BatchItem>, attempt: nat, rest: seq<Job>, done: Translations)
    requires attempt < TRANSLATE_MAX_ATTEMPTS
    ensures Work(world, at, [Job(items, attempt == 1)] + rest, done) ==
      var (r, next) := Translate(world, at, items, attempt);
      if r.Err? then (r, next) else Work(world, next, rest, done + r.value)
    decreases |items|, TRANSLATE_MAX_ATTEMPTS - attempt
  {
    assert ([Job(items, attempt == 1)] + rest)[1..] == rest;
    var reply := ReadAnswer(world.answers(at), items);
    if reply.Err? && world.timedOut(reply.error) && |items| > 1 {
      HalvesAreJobs(world, at, items, attempt, rest, done);
    } else if reply.Err? && !world.timedOut(reply.error) && attempt == 0 {
      CallIsJob(world, at + 1, items, 1, rest, done);
    }
  }

  lemma {:induction false} HalvesAreJobs(
    world: World, at: nat, items: seq<BatchItem>, attempt: nat, rest: seq<Job>, done: Translations)
    requires attempt < TRANSLATE_MAX_ATTEMPTS && |items| > 1
    requires var reply := ReadAnswer(world.answers(at), items); reply.Err? && world.timedOut(reply.error)
    ensures Work(world, at + 1, Halves(items) + rest, done) ==
      var (r, next) := Translate(world, at, items, attempt);
      if r.Err? then (r, next) else Work(world, next, rest, done + r.value)
    decreases |items|, 0
  {
    var a, b := Halves(items)[0], Halves(items)[1];
    assert Halves(items) + rest == [a] + ([b] + rest);
    CallIsJob(world, at + 1, a.items, 0, [b] + rest, done);
    var (left, next) := Translate(world, at + 1, a.items, 0);
    if left.Ok? {
      CallIsJob(world, next, b.items, 0, rest, done + left.value);
      var (right, end) := Translate(world, next, b.items, 0);
      if right.Ok? {
        assert (done + left.value) + right.value == done + (left.value + right.value);
      }
    }
  }

  /** So one batch is the list of one job. */
  lemma {:induction false} BatchIsJob(world: World, at: nat, items: seq<BatchItem>)
    ensures Translate(world, at, items, 0) == Work(world, at, [Job(items, false)], map[])
  {
    CallIsJob(world, at, items, 0, [], map[]);
    assert [Job(items, false)] + [] == [Job(items, false)];
    var (r, next) := Translate(world, at, items, 0);
    assert r.Ok? ==> map[] + r.value == r.value;
  }

  // ----- how a run fails

  /** The prompt `at` was for this batch and failed with this error. */
  predicate FailedOn(world: World, at: nat, batch: seq<BatchItem>, e: string) {
    ReadAnswer(world.answers(at), batch) == Err(e)
  }

  /** A timeout that leaves nothing to split. */
  predicate TimedOutAlone(world: World, at: nat, batch: seq<BatchItem>, e: string) {
    FailedOn(world, at, batch, e) && world.timedOut(e) && |batch| <= 1
  }

  /** The first prompt for the batch failed, and this is the second; neither timed out. */
  ghost predicate FailedTwice(world: World, at: nat, batch: seq<BatchItem>, e: string) {
    && at > 0 && FailedOn(world, at, batch, e) && !world.timedOut(e)
    && exists first :: FailedOn(world, at - 1, batch, first) && !world.timedOut(first)
  }

  /** The last prompt was for a stretch of the items, and ended the run. */
  ghost predicate EndedBy(world: World, at: nat, items: seq<BatchItem>, e: string) {
    exists i, j :: 0 <= i <= j <= |items| && EndedOn(world, at, items[i..j], e)
  }

  ghost predicate EndedOn(world: World, at: nat, batch: seq<BatchItem>, e: string) {
    TimedOutAlone(world, at, batch, e) || FailedTwice(world, at, batch, e)
  }

  /** The run made prompts, and if it failed the last of them ended it. */
  ghost predicate FailsSo(world: World, at: nat, items: seq<BatchItem>, r: Result<Translations, string>, next: nat) {
    at < next && (r.Err? ==> EndedBy(world, next - 1, items, r.error))
  }

  /** A run that fails does so at its last prompt: on a timeout of one item, or on the second failure of one
      batch whose first was not a timeout. So a timeout of several items never ends it. */
  lemma {:induction false} FailsOnlySo(world: World, at: nat, items: seq<BatchItem>)
    ensures var (r, next) := Translate(world, at, items, 0); FailsSo(world, at, items, r, next)
  {
    AttemptFailsOnlySo(world, at, items, 0);
  }

  lemma {:induction false} AttemptFailsOnlySo(world: World, at: nat, items: seq<BatchItem>, attempt: nat)
    requires attempt < TRANSLATE_MAX_ATTEMPTS
    requires attempt == 1 ==> at > 0 && exists first :: FailedOn(world, at - 1, items, first) && !world.timedOut(first)
    ensures var (r, next) := Translate(world, at, items, attempt); FailsSo(world, at, items, r, next)
    decreases |items|, TRANSLATE_MAX_ATTEMPTS - attempt
  {
    var reply := ReadAnswer(world.answers(at), items);
    if reply.Err? {
      assert FailedOn(world, at, items, reply.error);
      if world.timedOut(reply.error) && |items| > 1 {
        HalvesFailOnlySo(world, at, items, attempt);
      } else if world.timedOut(reply.error) || attempt == 1 {
        assert items[0..|items|] == items && EndedOn(world, at, items, reply.error);
      } else {
        AttemptFailsOnlySo(world, at + 1, items, 1);
      }
    }
  }

  lemma {:induction false} HalvesFailOnlySo(world: World, at: nat, items: seq<BatchItem>, attempt: nat)
    requires attempt < TRANSLATE_MAX_ATTEMPTS && |items| > 1
    requires var reply := ReadAnswer(world.answers(at), items); reply.Err? && world.timedOut(reply.error)
    ensures var (r, next) := Translate(world, at, items, attempt); FailsSo(world, at, items, r, next)
    decreases |items|, 0
  {
    var m := (|items| + 1) / 2;
    AttemptFailsOnlySo(world, at + 1, items[..m], 0);
    var (left, next) := Translate(world, at + 1, items[..m], 0);
    if left.Ok? {
      AttemptFailsOnlySo(world, next, items[m..], 0);
      var (right, end) := Translate(world, next, items[m..], 0);
      BackFails(world, at, items, m, next, right, end);
    } else {
      FrontFails(world, at, items, m, left, next);
    }
  }

  lemma {:induction false} FrontFails(
    world: World, at: nat, items: seq<BatchItem>, m: nat, left: Result<Translations, string>, next: nat)
    requires m <= |items| && FailsSo(world, at + 1, items[..m], left, next)
    ensures FailsSo(world, at, items, left, next)
  {
    if left.Err? {
      OfFront(world, next - 1, items, m, left.error);
    }
  }

  lemma {:induction false} BackFails(
    world: World, at: nat, items: seq<BatchItem>, m: nat, next: nat, right: Result<Translations, string>, end: nat)
    requires m <= |items| && at < next && FailsSo(world, next, items[m..], right, end)
    ensures FailsSo(world, at, items, right, end)
  {
    if right.Err? {
      OfBack(world, end - 1, items, m, right.error);
    }
  }

  lemma {:induction false} OfFront(world: World, at: nat, items: seq<BatchItem>, m: nat, e: string)
    requires m <= |items| && EndedBy(world, at, items[..m], e)
    ensures EndedBy(world, at, items, e)
  {
    assert items[..m] == items[0..m];
    OfStretch(world, at, items, 0, m, e);
  }

  lemma {:induction false} OfBack(world: World, at: nat, items: seq<BatchItem>, m: nat, e: string)
    requires m <= |items| && EndedBy(world, at, items[m..], e)
    ensures EndedBy(world, at, items, e)
  {
    assert items[m..] == items[m..|items|];
    OfStretch(world, at, items, m, |items|, e);
  }

  lemma {:induction false} OfStretch(world: World, at: nat, items: seq<BatchItem>, from: nat, to: nat, e: string)
    requires from <= to <= |items| && EndedBy(world, at, items[from..to], e)
    ensures EndedBy(world, at, items, e)
  {
    var i, j :| 0 <= i <= j <= |items[from..to]| && EndedOn(world, at, items[from..to][i..j], e);
    SliceOfSlice(items, from, to, i, j);
  }

  lemma {:induction false} SliceOfSlice<T>(s: seq<T>, from: nat, to: nat, i: nat, j: nat)
    requires from <= to <= |s| && i <= j <= to - from
    ensures s[from..to][i..j] == s[from + i..from + j]
  {
    var part, whole := s[from..to][i..j], s[from + i..from + j];
    assert |part| == |whole|;
    forall k | 0 <= k < |part| ensures part[k] == whole[k] {
      assert part[k] == s[from..to][i + k] == s[from + i + k];
    }
  }

  // ----- a run that succeeds although everything but single items times out

  /** Every batch of several items times out at once, and every single item is answered at once. */
  function AlwaysSplit(items: seq<BatchItem>, slow: string, good: Answer): (r: seq<Answer>)
    requires items != []
    ensures |r| == 2 * |items| - 1
    decreases |items|
  {
    if |items| == 1 then [good]
    else
      var h := Half(|items|);
      [Failed(slow)] + (AlwaysSplit(items[..h], slow, good) + AlwaysSplit(items[h..], slow, good))
  }

  ghost predicate AnswersAll(good: Answer, items: seq<BatchItem>) {
    good.Answered? && forall x :: x in items ==> Answered(good.fields, x)
  }

  lemma {:induction false} AnswersParts(good: Answer, items: seq<BatchItem>, h: nat)
    requires h <= |items| && AnswersAll(good, items)
    ensures AnswersAll(good, items[..h]) && AnswersAll(good, items[h..])
  {
  }

  /** Such a run succeeds, with all keys, in 2n - 1 prompts: each timeout is split without a second try. */
  lemma {:induction false} SplitsDown(world: World, at: nat, items: seq<BatchItem>, slow: string, good: Answer)
    requires items != [] && world.timedOut(slow)
    requires AnswersAll(good, items)
    requires Follows(world, at, AlwaysSplit(items, slow, good))
    ensures var (r, next) := Translate(world, at, items, 0);
      r.Ok? && next == at + 2 * |items| - 1 && Complete(world, at, next, items, r.value)
    decreases |items|
  {
    SplitsDownInPrompts(world, at, items, slow, good);
    AllOrNothing(world, at, items, 0);
  }

  lemma {:induction false} SplitsDownInPrompts(
    world: World, at: nat, items: seq<BatchItem>, slow: string, good: Answer)
    requires items != [] && world.timedOut(slow)
    requires AnswersAll(good, items)
    requires Follows(world, at, AlwaysSplit(items, slow, good))
    ensures Succeeds(world, at, items, at + 2 * |items| - 1)
    decreases |items|
  {
    if |items| == 1 {
      FollowsAt(world, at, [good], 0);
      AnsweredAtOnce(world, at, items, good);
    } else {
      var a, b := items[..Half(|items|)], items[Half(|items|)..];
      AlwaysSplitParts(world, at, items, a, b, slow, good);
      AnswersParts(good, items, |a|);
      SplitsDownInPrompts(world, at + 1, a, slow, good);
      SplitsDownInPrompts(world, at + 2 * |a|, b, slow, good);
      SplitAtFirstAttempt(world, at, items, at + 2 * |a|, at + 2 * |items| - 1);
    }
  }

  lemma {:induction false} AnsweredAtOnce(world: World, at: nat, items: seq<BatchItem>, good: Answer)
    requires AnswersAll(good, items) && world.answers(at) == good
    ensures Succeeds(world, at, items, at + 1)
  {
    AnswerAccepted(good, items);
  }

  lemma {:induction false} AlwaysSplitParts(
    world: World, at: nat, items: seq<BatchItem>, a: seq<BatchItem>, b: seq<BatchItem>, slow: string, good: Answer)
    requires |items| > 1 && a == items[..Half(|items|)] && b == items[Half(|items|)..]
    requires Follows(world, at, AlwaysSplit(items, slow, good))
    ensures world.answers(at) == Failed(slow)
    ensures Follows(world, at + 1, AlwaysSplit(a, slow, good))
    ensures Follows(world, at + 2 * |a|, AlwaysSplit(b, slow, good))
  {
    var sa, sb := AlwaysSplit(a, slow, good), AlwaysSplit(b, slow, good);
    assert AlwaysSplit(items, slow, good) == [Failed(slow)] + (sa + sb);
    FollowsRest(world, at, [Failed(slow)], sa + sb);
    FollowsAt(world, at, [Failed(slow)], 0);
    FollowsRest(world, at + 1, sa, sb);
  }

  lemma {:induction false} SplitAtFirstAttempt(world: World, at: nat, items: seq<BatchItem>, next: nat, end: nat)
    requires |items| > 1 && world.answers(at).Failed? && world.timedOut(world.answers(at).message)
    requires Succeeds(world, at + 1, items[..Half(|items|)], next)
    requires Succeeds(world, next, items[Half(|items|)..], end)
    ensures Succeeds(world, at, items, end)
  {
    assert |items[..Half(|items|)]| == (|items| + 1) / 2;
  }
}
