/** `translateBatch`: two attempts a batch, a timed-out batch of several items split in halves,
    and either every key translated or an error. The translator behind it is arbitrary. */
module TranslateBatch {
  import opened Options
  import opened JsText
  import opened TranslationBatches

  const TRANSLATE_MAX_ATTEMPTS: nat := 2

  datatype JsonValue = Text(text: string) | Other

  /** One prompt: the JSON object it returned, or the message of whatever error it ended with
      (no client, a rejected prompt, an answer that is not JSON). */
  datatype Answer = Answered(fields: map<string, JsonValue>) | Failed(message: string)

  type Translations = map<string, string>

  /** What the rest of the world does: the answer to each attempt ever made, in order,
      and which error messages mention a timeout. */
  datatype World = World(answers: nat -> Answer, timedOut: string -> bool)

  // ----- reading one answer

  /** An answer is good when it has a text, not blank, under every key. */
  predicate Covers(fields: map<string, JsonValue>, item: BatchItem) {
    item.key in fields && fields[item.key].Text? && Trim(fields[item.key].text) != ""
  }

  /** The first item the answer fails, or the whole translation. */
  function ReadAnswer(answer: Answer, items: seq<BatchItem>): (r: Result<Translations, string>)
    ensures r.Ok? <==> answer.Answered? && forall i :: 0 <= i < |items| ==> Covers(answer.fields, items[i])
  {
    if answer.Failed? then Err(answer.message)
    else if items == [] then Ok(map[])
    else
      var last := items[|items| - 1];
      var before := ReadAnswer(answer, items[..|items| - 1]);
      if before.Err? then before
      else if !Covers(answer.fields, last) then Err("missing translation for " + last.key)
      else Ok(before.value[last.key := answer.fields[last.key].text])
  }

  method ReadReply(answer: Answer, items: seq<BatchItem>) returns (r: Result<Translations, string>)
    ensures r == ReadAnswer(answer, items)
  {
    if answer.Failed? {
      return Err(answer.message);
    }
    var translated: Translations := map[];
    for i := 0 to |items|
      invariant ReadAnswer(answer, items[..i]) == Ok(translated)
    {
      assert items[..i + 1][..i] == items[..i];
      if !Covers(answer.fields, items[i]) {
        FirstMiss(answer, items, i + 1);
        return Err("missing translation for " + items[i].key);
      }
      translated := translated[items[i].key := answer.fields[items[i].key].text];
    }
    assert items[..|items|] == items;
    return Ok(translated);
  }

  lemma {:induction false} FirstMiss(answer: Answer, items: seq<BatchItem>, n: nat)
    requires n <= |items| && ReadAnswer(answer, items[..n]).Err?
    ensures ReadAnswer(answer, items) == ReadAnswer(answer, items[..n])
  {
    if n < |items| {
      var m := |items| - 1;
      assert items[..m][..n] == items[..n];
      FirstMiss(answer, items[..m], n);
    } else {
      assert items[..n] == items;
    }
  }

  // ----- retries and splits

  /** The outcome of translating `items` from attempt `attempt` on, when `at` prompts were made
      before, and the number of prompts made after. */
  function Translate(world: World, at: nat, items: seq<BatchItem>, attempt: nat): (Result<Translations, string>, nat)
    requires attempt < TRANSLATE_MAX_ATTEMPTS
    decreases |items|, TRANSLATE_MAX_ATTEMPTS - attempt
  {
    var reply := ReadAnswer(world.answers(at), items);
    if reply.Ok? then (reply, at + 1)
    else if world.timedOut(reply.error) && |items| > 1 then
      var midpoint := (|items| + 1) / 2;
      var (left, next) := Translate(world, at + 1, items[..midpoint], 0);
      if left.Err? then (left, next)
      else
        var (right, end) := Translate(world, next, items[midpoint..], 0);
        if right.Err? then (right, end) else (Ok(left.value + right.value), end)
    else if world.timedOut(reply.error) || attempt + 1 == TRANSLATE_MAX_ATTEMPTS then (reply, at + 1)
    else Translate(world, at + 1, items, attempt + 1)
  }

  /** The function itself: a loop over the attempts that recurses on both halves after a timeout. */
  method TranslateItems(
    world: World, at: nat, items: seq<BatchItem>) returns (r: Result<Translations, string>, next: nat)
    ensures (r, next) == Translate(world, at, items, 0)
    decreases |items|
  {
    next := at;
    var lastError := "translation failed";
    var attempt := 0;
    while attempt < TRANSLATE_MAX_ATTEMPTS
      invariant attempt <= TRANSLATE_MAX_ATTEMPTS
      invariant attempt < TRANSLATE_MAX_ATTEMPTS ==>
        Translate(world, at, items, 0) == Translate(world, next, items, attempt)
      invariant attempt == TRANSLATE_MAX_ATTEMPTS ==>
        Translate(world, at, items, 0) == (Err(lastError), next)
    {
      var reply := ReadReply(world.answers(next), items);
      next := next + 1;
      if reply.Ok? {
        return reply, next;
      }
      lastError := reply.error;
      if world.timedOut(lastError) && |items| > 1 {
        var midpoint := (|items| + 1) / 2;
        var left, right;
        left, next := TranslateItems(world, next, items[..midpoint]);
        if left.Err? {
          return left, next;
        }
        right, next := TranslateItems(world, next, items[midpoint..]);
        if right.Err? {
          return right, next;
        }
        return Ok(left.value + right.value), next;
      }
      if world.timedOut(lastError) {
        break;
      }
      attempt := attempt + 1;
    }
    return Err(lastError), next;
  }

  ghost function Keys(items: seq<BatchItem>): set<string> {
    set i | 0 <= i < |items| :: items[i].key
  }

  /** A translated text is one that some prompt of the run returned for that key. */
  ghost predicate Returned(world: World, from: nat, to: nat, key: string, text: string) {
    exists a :: from <= a < to && world.answers(a).Answered? && key in world.answers(a).fields
      && world.answers(a).fields[key] == Text(text)
  }

  ghost predicate Complete(world: World, from: nat, to: nat, items: seq<BatchItem>, t: Translations) {
    && t.Keys == Keys(items)
    && (forall k :: k in t ==> !IsBlank(t[k]) && Returned(world, from, to, k, t[k]))
  }

  lemma {:induction false} AnswerIsComplete(world: World, at: nat, items: seq<BatchItem>)
    requires ReadAnswer(world.answers(at), items).Ok?
    ensures Complete(world, at, at + 1, items, ReadAnswer(world.answers(at), items).value)
  {
    if items != [] {
      var n := |items| - 1;
      AnswerIsComplete(world, at, items[..n]);
      KeysSplit(items, n);
      assert items[n..] == [items[n]] && Keys([items[n]]) == {items[n].key};
      BlankTrimsToNothing(world.answers(at).fields[items[n].key].text);
    }
  }

  lemma {:induction false} KeysSplit(items: seq<BatchItem>, n: nat)
    requires n <= |items|
    ensures Keys(items) == Keys(items[..n]) + Keys(items[n..])
  {
    forall k ensures k in Keys(items) <==> k in Keys(items[..n]) || k in Keys(items[n..]) {
      if k in Keys(items) {
        var i :| 0 <= i < |items| && items[i].key == k;
        if i < n { assert items[..n][i].key == k; } else { assert items[n..][i - n].key == k; }
      }
    }
  }

  lemma {:induction false} Widened(
    world: World, from: nat, to: nat, lo: nat, hi: nat, items: seq<BatchItem>, t: Translations)
    requires Complete(world, from, to, items, t) && lo <= from && to <= hi
    ensures Complete(world, lo, hi, items, t)
  {
    forall k | k in t ensures Returned(world, lo, hi, k, t[k]) {
      assert Returned(world, from, to, k, t[k]);
    }
  }

  /** Whatever fails and whenever, across all nested splits: an error, or every key with a text
      that is not blank and that the translator returned for it. */
  lemma {:induction false} AllOrNothing(world: World, at: nat, items: seq<BatchItem>, attempt: nat)
    requires attempt < TRANSLATE_MAX_ATTEMPTS
    ensures var (r, next) := Translate(world, at, items, attempt);
      at < next && (r.Ok? ==> Complete(world, at, next, items, r.value))
    decreases |items|, TRANSLATE_MAX_ATTEMPTS - attempt
  {
    var reply := ReadAnswer(world.answers(at), items);
    var (r, end) := Translate(world, at, items, attempt);
    if reply.Ok? {
      AnswerIsComplete(world, at, items);
    } else if world.timedOut(reply.error) && |items| > 1 {
      var midpoint := (|items| + 1) / 2;
      AllOrNothing(world, at + 1, items[..midpoint], 0);
      var (left, next) := Translate(world, at + 1, items[..midpoint], 0);
      if left.Ok? {
        AllOrNothing(world, next, items[midpoint..], 0);
        var (right, last) := Translate(world, next, items[midpoint..], 0);
        if right.Ok? {
          KeysSplit(items, midpoint);
          Widened(world, at + 1, next, at, end, items[..midpoint], left.value);
          Widened(world, next, end, at, end, items[midpoint..], right.value);
        }
      }
    } else if !world.timedOut(reply.error) && attempt + 1 < TRANSLATE_MAX_ATTEMPTS {
      AllOrNothing(world, at + 1, items, attempt + 1);
      if r.Ok? {
        Widened(world, at + 1, end, at, end, items, r.value);
      }
    }
  }

  // ----- how many prompts

  /** At most 4n - 2 prompts for n items. */
  lemma {:induction false} PromptBound(world: World, at: nat, items: seq<BatchItem>, attempt: nat)
    requires items != [] && attempt < TRANSLATE_MAX_ATTEMPTS
    ensures Translate(world, at, items, attempt).1 <= at + 4 * |items| - 2 - attempt
    decreases |items|, TRANSLATE_MAX_ATTEMPTS - attempt
  {
    var reply := ReadAnswer(world.answers(at), items);
    if reply.Err? {
      if world.timedOut(reply.error) && |items| > 1 {
        var midpoint := (|items| + 1) / 2;
        PromptBound(world, at + 1, items[..midpoint], 0);
        PromptBound(world, Translate(world, at + 1, items[..midpoint], 0).1, items[midpoint..], 0);
      } else if !world.timedOut(reply.error) && attempt + 1 < TRANSLATE_MAX_ATTEMPTS {
        PromptBound(world, at + 1, items, attempt + 1);
      }
    }
  }

  /** Answers that cost `items` the most: fail once, then time out and split, down to single
      items that succeed at the second attempt. */
  function Costly(items: seq<BatchItem>, slow: string, broken: string, good: Answer): (r: seq<Answer>)
    requires items != []
    ensures |r| == 4 * |items| - 2
    decreases |items|
  {
    if |items| == 1 then [Failed(broken), good]
    else
      var midpoint := (|items| + 1) / 2;
      [Failed(broken), Failed(slow)] + Costly(items[..midpoint], slow, broken, good)
        + Costly(items[midpoint..], slow, broken, good)
  }

  ghost predicate Follows(world: World, at: nat, script: seq<Answer>) {
    forall i {:trigger script[i]} :: 0 <= i < |script| ==> world.answers(at + i) == script[i]
  }

  ghost predicate Succeeds(world: World, at: nat, items: seq<BatchItem>, end: nat) {
    Translate(world, at, items, 0).0.Ok? && Translate(world, at, items, 0).1 == end
  }

  /** The bound is exact: for any items some translator makes that many prompts, and succeeds. */
  lemma {:induction false} BoundIsTight(
    world: World, at: nat, items: seq<BatchItem>, slow: string, broken: string, good: Answer)
    requires items != [] && world.timedOut(slow) && !world.timedOut(broken)
    requires good.Answered? && forall i :: 0 <= i < |items| ==> Covers(good.fields, items[i])
    requires Follows(world, at, Costly(items, slow, broken, good))
    ensures Succeeds(world, at, items, at + 4 * |items| - 2)
    decreases |items|
  {
    CostlyParts(world, at, items, slow, broken, good);
    if |items| == 1 {
      SecondAttempt(world, at, items);
    } else {
      var a, b := items[..(|items| + 1) / 2], items[(|items| + 1) / 2..];
      var next := at + 4 * |a|;
      BoundIsTight(world, at + 2, a, slow, broken, good);
      BoundIsTight(world, next, b, slow, broken, good);
      SplitAtSecondAttempt(world, at, items, next, next + 4 * |b| - 2);
    }
  }

  lemma {:induction false} CostlyParts(
    world: World, at: nat, items: seq<BatchItem>, slow: string, broken: string, good: Answer)
    requires items != [] && Follows(world, at, Costly(items, slow, broken, good))
    ensures world.answers(at) == Failed(broken)
    ensures |items| == 1 ==> world.answers(at + 1) == good
    ensures |items| > 1 ==>
      var a, b := items[..(|items| + 1) / 2], items[(|items| + 1) / 2..];
      && world.answers(at + 1) == Failed(slow)
      && Follows(world, at + 2, Costly(a, slow, broken, good))
      && Follows(world, at + 4 * |a|, Costly(b, slow, broken, good))
  {
    if |items| == 1 {
      FollowsAt(world, at, [Failed(broken), good], 0);
      FollowsAt(world, at, [Failed(broken), good], 1);
    } else {
      var a, b := items[..(|items| + 1) / 2], items[(|items| + 1) / 2..];
      var sa, sb := Costly(a, slow, broken, good), Costly(b, slow, broken, good);
      CostlyShape(items, slow, broken, good, sa, sb);
      FollowsThree(world, at, Failed(broken), Failed(slow), sa, sb);
    }
  }

  lemma {:induction false} CostlyShape(
    items: seq<BatchItem>, slow: string, broken: string, good: Answer, sa: seq<Answer>, sb: seq<Answer>)
    requires |items| > 1
    requires sa == Costly(items[..(|items| + 1) / 2], slow, broken, good)
    requires sb == Costly(items[(|items| + 1) / 2..], slow, broken, good)
    ensures Costly(items, slow, broken, good) == [Failed(broken), Failed(slow)] + (sa + sb)
  {
    assert [Failed(broken), Failed(slow)] + sa + sb == [Failed(broken), Failed(slow)] + (sa + sb);
  }

  lemma {:induction false} FollowsThree(
    world: World, at: nat, x: Answer, y: Answer, sa: seq<Answer>, sb: seq<Answer>)
    requires Follows(world, at, [x, y] + (sa + sb))
    ensures world.answers(at) == x && world.answers(at + 1) == y
    ensures Follows(world, at + 2, sa) && Follows(world, at + 2 + |sa|, sb)
  {
    FollowsRest(world, at, [x, y], sa + sb);
    FollowsAt(world, at, [x, y], 0);
    FollowsAt(world, at, [x, y], 1);
    FollowsRest(world, at + 2, sa, sb);
  }

  lemma {:induction false} SecondAttempt(world: World, at: nat, items: seq<BatchItem>)
    requires world.answers(at).Failed? && !world.timedOut(world.answers(at).message)
    requires world.answers(at + 1).Answered?
    requires forall i :: 0 <= i < |items| ==> Covers(world.answers(at + 1).fields, items[i])
    ensures Succeeds(world, at, items, at + 2)
  {
    assert Translate(world, at, items, 0) == Translate(world, at + 1, items, 1);
    assert ReadAnswer(world.answers(at + 1), items).Ok?;
  }

  /** A failure and then a timeout: two prompts, then both halves. */
  lemma {:induction false} SplitAtSecondAttempt(world: World, at: nat, items: seq<BatchItem>, next: nat, end: nat)
    requires |items| > 1
    requires world.answers(at).Failed? && !world.timedOut(world.answers(at).message)
    requires world.answers(at + 1).Failed? && world.timedOut(world.answers(at + 1).message)
    requires Succeeds(world, at + 2, items[..(|items| + 1) / 2], next)
    requires Succeeds(world, next, items[(|items| + 1) / 2..], end)
    ensures Succeeds(world, at, items, end)
  {
    assert Translate(world, at, items, 0) == Translate(world, at + 1, items, 1);
  }

  lemma {:induction false} FollowsAt(world: World, at: nat, script: seq<Answer>, i: nat)
    requires Follows(world, at, script) && i < |script|
    ensures world.answers(at + i) == script[i]
  {
  }

  lemma {:induction false} FollowsRest(world: World, at: nat, a: seq<Answer>, b: seq<Answer>)
    requires Follows(world, at, a + b)
    ensures Follows(world, at, a) && Follows(world, at + |a|, b)
  {
    forall i {:trigger a[i]} | 0 <= i < |a| ensures world.answers(at + i) == a[i] {
      FollowsAt(world, at, a + b, i);
    }
    forall i {:trigger b[i]} | 0 <= i < |b| ensures world.answers(at + |a| + i) == b[i] {
      FollowsAt(world, at, a + b, |a| + i);
    }
  }
}
