// Translating one batch: two attempts, a fresh client after every failure, and
// a split in two halves when an attempt times out.
module TranslateBatch {
  import opened Wrappers
  import opened OrderedMap
  import Text
  import Session
  import opened TranslationBatches

  const TRANSLATE_MAX_ATTEMPTS := 2

  datatype Value = Str(text: string) | NotAString

  /** What one prompt yields: a thrown error (rejection or unparsable text), or a parsed object. */
  datatype Reply = Failed(message: string) | Parsed(values: map<string, Value>)

  /** What the batch does with its client. */
  datatype Op = Asked(items: seq<Item>, reply: Reply) | ResetClient

  function Lower(s: string): (r: string)
    ensures |r| == |s|
  {
    if s == "" then ""
    else [if 'A' <= s[0] <= 'Z' then s[0] - 'A' + 'a' else s[0]] + Lower(s[1..])
  }

  predicate IsPromptTimeoutError(message: string) {
    Text.Occurs(Lower(message), "timed out")
  }

  /** The two words stand there, each letter in either case.  No other character has one of them for its lower case. */
  predicate TimedOutAt(s: string, at: int) {
    0 <= at <= |s| - 9 && forall i :: 0 <= i < 9 ==> s[at + i] == "timed out"[i] || s[at + i] == "TIMED OUT"[i]
  }

  lemma {:induction false} LowerAt(s: string, i: nat)
    requires i < |s|
    ensures Lower(s)[i] == if 'A' <= s[i] <= 'Z' then s[i] - 'A' + 'a' else s[i]
  {
    if i > 0 {
      LowerAt(s[1..], i - 1);
    }
  }

  lemma OccursIff(s: string, pat: string, at: nat)
    requires at + |pat| <= |s|
    ensures Text.OccursAt(s, pat, at) <==> forall i :: 0 <= i < |pat| ==> s[at + i] == pat[i]
  {
    var part := s[at..at + |pat|];
    if forall i :: 0 <= i < |pat| ==> s[at + i] == pat[i] {
      assert forall i :: 0 <= i < |pat| ==> part[i] == pat[i];
    }
  }

  lemma LetterOf(c: char, low: char, high: char)
    requires ('a' <= low <= 'z' && high == low - 'a' + 'A') || low == high == ' '
    ensures (if 'A' <= c <= 'Z' then c - 'A' + 'a' else c) == low <==> c == low || c == high
  {
  }

  lemma LettersOf(i: nat)
    requires i < 9
    ensures var low, high := "timed out"[i], "TIMED OUT"[i];
            ('a' <= low <= 'z' && high == low - 'a' + 'A') || low == high == ' '
  {
    var low, high := "timed out", "TIMED OUT";
    if i < 3 {
      assert i == 0 || i == 1 || i == 2;
    } else if i < 6 {
      assert i == 3 || i == 4 || i == 5;
    } else {
      assert i == 6 || i == 7 || i == 8;
    }
  }

  lemma {:induction false} LetterIff(s: string, at: nat, i: nat)
    requires at + 9 <= |s| && i < 9
    ensures Lower(s)[at + i] == "timed out"[i] <==> s[at + i] == "timed out"[i] || s[at + i] == "TIMED OUT"[i]
  {
    LowerAt(s, at + i);
    LettersOf(i);
    hide Lower;
    LetterOf(s[at + i], "timed out"[i], "TIMED OUT"[i]);
  }

  lemma {:induction false} SpellingAt(s: string, at: nat)
    requires at + 9 <= |s|
    ensures Text.OccursAt(Lower(s), "timed out", at) <==> TimedOutAt(s, at)
  {
    var pat := "timed out";
    OccursIff(Lower(s), pat, at);
    forall i: nat | i < 9
      ensures Lower(s)[at + i] == pat[i] <==> s[at + i] == pat[i] || s[at + i] == "TIMED OUT"[i]
    {
      LetterIff(s, at, i);
    }
    hide Lower;
  }

  /** An error is a timeout exactly when its message spells "timed out" somewhere, in whatever case. */
  lemma TimeoutIff(message: string)
    ensures IsPromptTimeoutError(message) <==> exists at :: TimedOutAt(message, at)
  {
    hide Lower;
    if IsPromptTimeoutError(message) {
      var at :| 0 <= at <= |Lower(message)| && Text.OccursAt(Lower(message), "timed out", at);
      SpellingAt(message, at);
    }
    if at :| TimedOutAt(message, at) {
      SpellingAt(message, at);
    }
  }

  /** Such as the client's own message, with a label in front and the length of the wait behind. */
  lemma TimeoutAnywhere(before: string, words: string, after: string)
    requires |words| == 9 && TimedOutAt(words, 0)
    ensures IsPromptTimeoutError(before + words + after)
  {
    var m := before + words + after;
    assert m[|before|..|before| + 9] == words;
    forall i | 0 <= i < 9 ensures m[|before| + i] == "timed out"[i] || m[|before| + i] == "TIMED OUT"[i] {
      assert m[|before| + i] == words[0 + i];
    }
    hide IsPromptTimeoutError;
    assert TimedOutAt(m, |before|);
    TimeoutIff(m);
  }

  predicate Usable(values: map<string, Value>, key: string) {
    key in values && values[key].Str? && Text.Trim(values[key].text) != ""
  }

  type Outcome = Result<OMap<string>, string>

  function Collect(items: seq<Item>, values: map<string, Value>): (r: Outcome)
    ensures r.Ok? ==> r.value.Valid()
  {
    if items == [] then Ok(Empty())
    else
      var last := items[|items| - 1];
      match Collect(items[..|items| - 1], values)
      case Err(e) => Err(e)
      case Ok(m) =>
        if Usable(values, last.key) then Ok(Put(m, last.key, values[last.key].text))
        else Err("missing translation for " + last.key)
  }

  function Accept(items: seq<Item>, reply: Reply): (r: Outcome)
    ensures r.Ok? ==> r.value.Valid()
  {
    match reply
    case Failed(message) => Err(message)
    case Parsed(values) => Collect(items, values)
  }

  // ---- The batch as a function of pi's replies ----

  datatype Run = Run(outcome: Outcome, attempts: nat, ops: seq<Op>, deepest: nat)

  function Chain(a: Run, b: Run): Run {
    Run(b.outcome, a.attempts + b.attempts, a.ops + b.ops, if a.deepest < b.deepest then b.deepest else a.deepest)
  }

  function Joined(left: Outcome, right: Outcome): (r: Outcome)
    requires (left.Ok? ==> left.value.Valid()) && (right.Ok? ==> right.value.Valid())
    ensures r.Ok? ==> r.value.Valid()
  {
    if left.Err? then left else if right.Err? then right else Ok(Merge(left.value, right.value))
  }

  function Midpoint(n: nat): nat {
    (n + 1) / 2
  }

  /** The run from the attempt after `tried` failed ones; the next reply to come is `replies(at)`. */
  function Attempt(
    items: seq<Item>, tried: nat, lastError: string, replies: nat -> Reply, at: nat, depth: nat): (r: Run)
    requires tried <= TRANSLATE_MAX_ATTEMPTS
    ensures r.outcome.Ok? ==> r.outcome.value.Valid()
    ensures depth <= r.deepest
    decreases |items|, TRANSLATE_MAX_ATTEMPTS - tried
  {
    if tried == TRANSLATE_MAX_ATTEMPTS then Run(Err(lastError), 0, [], depth)
    else
      var reply := replies(at);
      match Accept(items, reply)
      case Ok(m) => Run(Ok(m), 1, [Asked(items, reply)], depth)
      case Err(e) =>
        var failed := Run(Err(e), 1, [Asked(items, reply), ResetClient], depth);
        if !IsPromptTimeoutError(e) then Chain(failed, Attempt(items, tried + 1, e, replies, at + 1, depth))
        else if |items| <= 1 then failed
        else Chain(failed, Halves(items, replies, at + 1, depth))
  }

  function Halves(items: seq<Item>, replies: nat -> Reply, at: nat, depth: nat): (r: Run)
    requires |items| > 1
    ensures r.outcome.Ok? ==> r.outcome.value.Valid()
    ensures depth <= r.deepest
    decreases |items|, 0
  {
    var mid := Midpoint(|items|);
    var left := Translate(items[..mid], replies, at, depth + 1);
    if left.outcome.Err? then left
    else
      var right := Translate(items[mid..], replies, at + left.attempts, depth + 1);
      Chain(left, right).(outcome := Joined(left.outcome, right.outcome))
  }

  const FIRST_ERROR := "translation failed"

  function Translate(items: seq<Item>, replies: nat -> Reply, at: nat, depth: nat): (r: Run)
    ensures r.outcome.Ok? ==> r.outcome.value.Valid()
    ensures depth <= r.deepest
    decreases |items|, TRANSLATE_MAX_ATTEMPTS + 1
  {
    Attempt(items, 0, FIRST_ERROR, replies, at, depth)
  }

  // ---- Bounds ----

  function Pow2(k: nat): nat {
    if k == 0 then 1 else 2 * Pow2(k - 1)
  }

  // The three shapes of an attempt, for proofs that look no further into it.

  lemma {:induction false} Accepted(
    items: seq<Item>, tried: nat, lastError: string, replies: nat -> Reply, at: nat, depth: nat)
    requires tried < TRANSLATE_MAX_ATTEMPTS && Accept(items, replies(at)).Ok?
    ensures Attempt(items, tried, lastError, replies, at, depth)
            == Run(Accept(items, replies(at)), 1, [Asked(items, replies(at))], depth)
  {
  }

  lemma {:induction false} Exhausted(items: seq<Item>, lastError: string, replies: nat -> Reply, at: nat, depth: nat)
    ensures Attempt(items, TRANSLATE_MAX_ATTEMPTS, lastError, replies, at, depth) == Run(Err(lastError), 0, [], depth)
  {
  }

  function FailedRun(items: seq<Item>, reply: Reply, error: string, depth: nat): Run {
    Run(Err(error), 1, [Asked(items, reply), ResetClient], depth)
  }

  lemma Refused(items: seq<Item>, tried: nat, lastError: string, replies: nat -> Reply, at: nat, depth: nat)
    requires tried < TRANSLATE_MAX_ATTEMPTS && Accept(items, replies(at)).Err?
    ensures var e := Accept(items, replies(at)).error;
            var failed := FailedRun(items, replies(at), e, depth);
            Attempt(items, tried, lastError, replies, at, depth)
            == if !IsPromptTimeoutError(e) then Chain(failed, Attempt(items, tried + 1, e, replies, at + 1, depth))
               else if |items| <= 1 then failed
               else Chain(failed, Halves(items, replies, at + 1, depth))
  {
    hide IsPromptTimeoutError, Accept;
  }

  lemma {:induction false} Halved(items: seq<Item>, replies: nat -> Reply, at: nat, depth: nat)
    requires |items| > 1
    ensures var mid := Midpoint(|items|);
            var left := Attempt(items[..mid], 0, FIRST_ERROR, replies, at, depth + 1);
            var right := Attempt(items[mid..], 0, FIRST_ERROR, replies, at + left.attempts, depth + 1);
            Halves(items, replies, at, depth)
            == if left.outcome.Err? then left else Chain(left, right).(outcome := Joined(left.outcome, right.outcome))
  {
    hide IsPromptTimeoutError, Accept;
  }

  /** At most 4n - 2 prompts for n keys. */
  lemma {:induction false} AttemptsBounded(
    items: seq<Item>, tried: nat, lastError: string, replies: nat -> Reply, at: nat, depth: nat)
    requires items != [] && tried <= TRANSLATE_MAX_ATTEMPTS
    ensures Attempt(items, tried, lastError, replies, at, depth).attempts <= 4 * |items| - 2 - tried
    decreases |items|, TRANSLATE_MAX_ATTEMPTS - tried
  {
    hide IsPromptTimeoutError, Accept, Halves;
    var r := Accept(items, replies(at));
    if tried < TRANSLATE_MAX_ATTEMPTS && r.Err? {
      Refused(items, tried, lastError, replies, at, depth);
      if !IsPromptTimeoutError(r.error) {
        AttemptsBounded(items, tried + 1, r.error, replies, at + 1, depth);
      } else if |items| > 1 {
        var mid := Midpoint(|items|);
        var left := Attempt(items[..mid], 0, FIRST_ERROR, replies, at + 1, depth + 1);
        AttemptsBounded(items[..mid], 0, FIRST_ERROR, replies, at + 1, depth + 1);
        AttemptsBounded(items[mid..], 0, FIRST_ERROR, replies, at + 1 + left.attempts, depth + 1);
        Halved(items, replies, at + 1, depth);
      }
    }
  }

  /** The split depth is at most ceil(log2 n): for any k with n <= 2^k it grows by at most k. */
  lemma {:induction false} DepthBounded(
    items: seq<Item>, tried: nat, lastError: string, replies: nat -> Reply, at: nat, depth: nat, k: nat)
    requires tried <= TRANSLATE_MAX_ATTEMPTS && |items| <= Pow2(k)
    ensures depth <= Attempt(items, tried, lastError, replies, at, depth).deepest <= depth + k
    decreases |items|, TRANSLATE_MAX_ATTEMPTS - tried
  {
    hide IsPromptTimeoutError, Accept, Halves;
    var r := Accept(items, replies(at));
    if tried < TRANSLATE_MAX_ATTEMPTS && r.Err? {
      Refused(items, tried, lastError, replies, at, depth);
      if !IsPromptTimeoutError(r.error) {
        DepthBounded(items, tried + 1, r.error, replies, at + 1, depth, k);
      } else if |items| > 1 {
        var mid := Midpoint(|items|);
        var left := Attempt(items[..mid], 0, FIRST_ERROR, replies, at + 1, depth + 1);
        DepthBounded(items[..mid], 0, FIRST_ERROR, replies, at + 1, depth + 1, k - 1);
        DepthBounded(items[mid..], 0, FIRST_ERROR, replies, at + 1 + left.attempts, depth + 1, k - 1);
        Halved(items, replies, at + 1, depth);
      }
    }
  }

  // ---- What a successful batch returns ----

  function KeysOf(items: seq<Item>): (r: seq<string>)
    ensures |r| == |items| && forall i :: 0 <= i < |items| ==> r[i] == items[i].key
  {
    if items == [] then [] else KeysOf(items[..|items| - 1]) + [items[|items| - 1].key]
  }

  /** This operation asked about a batch holding the key, and the reply gave the key this text. */
  ghost predicate Gave(op: Op, key: string, text: string) {
    && op.Asked? && op.reply.Parsed? && Usable(op.reply.values, key) && op.reply.values[key].text == text
    && key in KeysOf(op.items)
  }

  ghost predicate Told(ops: seq<Op>, key: string, text: string) {
    exists op <- ops :: Gave(op, key, text)
  }

  lemma ToldLater(before: seq<Op>, ops: seq<Op>, later: seq<Op>, key: string, text: string)
    requires Told(ops, key, text)
    ensures Told(before + ops + later, key, text)
  {
    hide Gave;
    var op :| op in ops && Gave(op, key, text);
    assert op in before + ops + later;
  }

  /** The map has exactly the item keys, in item order, and every text is non-blank and was given by pi. */
  ghost predicate Translates(m: OMap<string>, items: seq<Item>, ops: seq<Op>) {
    && m.Valid()
    && (forall k :: k in m.at <==> k in KeysOf(items))
    && (Distinct(KeysOf(items)) ==> m.order == KeysOf(items))
    && (forall k :: k in m.at ==> Text.Trim(m.at[k]) != "" && Told(ops, k, m.at[k]))
  }

  lemma {:induction false} CollectKeys(items: seq<Item>, values: map<string, Value>)
    requires Collect(items, values).Ok?
    ensures var m := Collect(items, values).value;
            && (forall k :: k in m.at <==> k in KeysOf(items))
            && (forall k :: k in m.at ==> Usable(values, k) && m.at[k] == values[k].text)
  {
    hide Usable;
    if items != [] {
      CollectKeys(items[..|items| - 1], values);
    }
  }

  lemma {:induction false} CollectOrder(items: seq<Item>, values: map<string, Value>)
    requires Collect(items, values).Ok? && Distinct(KeysOf(items))
    ensures Collect(items, values).value.order == KeysOf(items)
  {
    hide Usable;
    if items != [] {
      var before, key := items[..|items| - 1], items[|items| - 1].key;
      var keys := KeysOf(items);
      assert forall i :: 0 <= i < |before| ==> keys[i] == KeysOf(before)[i];
      assert keys[|before|] == key && key !in KeysOf(before);
      CollectOrder(before, values);
      CollectKeys(before, values);
    }
  }

  lemma {:induction false} CollectTranslates(items: seq<Item>, values: map<string, Value>)
    requires Collect(items, values).Ok?
    ensures Translates(Collect(items, values).value, items, [Asked(items, Parsed(values))])
  {
    hide Text.Trim, Collect, KeysOf;
    CollectKeys(items, values);
    if Distinct(KeysOf(items)) {
      CollectOrder(items, values);
    }
    var m := Collect(items, values).value;
    var op := Asked(items, Parsed(values));
    forall k | k in m.at ensures Text.Trim(m.at[k]) != "" && Told([op], k, m.at[k]) {
      assert op in [op] && Gave(op, k, m.at[k]);
    }
  }

  lemma TranslatesLater(m: OMap<string>, items: seq<Item>, before: seq<Op>, ops: seq<Op>, later: seq<Op>)
    requires Translates(m, items, ops)
    ensures Translates(m, items, before + ops + later)
  {
    hide Text.Trim;
    forall k | k in m.at ensures Told(before + ops + later, k, m.at[k]) {
      ToldLater(before, ops, later, k, m.at[k]);
    }
  }

  lemma DistinctHalves(left: seq<string>, right: seq<string>)
    requires Distinct(left + right)
    ensures Distinct(left) && Distinct(right) && forall k :: k in left ==> k !in right
  {
    var all := left + right;
    assert forall i :: 0 <= i < |left| ==> all[i] == left[i];
    assert forall i :: 0 <= i < |right| ==> all[|left| + i] == right[i];
  }

  lemma MergedKeys(m: OMap<string>, n: OMap<string>, left: seq<string>, right: seq<string>)
    requires m.Valid() && n.Valid()
    requires (forall k :: k in m.at <==> k in left) && (forall k :: k in n.at <==> k in right)
    requires Distinct(left) ==> m.order == left
    requires Distinct(right) ==> n.order == right
    ensures forall k :: k in Merge(m, n).at <==> k in left + right
    ensures Distinct(left + right) ==> Merge(m, n).order == left + right
  {
    hide Merge, OMap.Valid;
    if Distinct(left + right) {
      DistinctHalves(left, right);
      hide Distinct;
      MergeDisjoint(m, n);
    }
  }

  lemma {:induction false} KeysOfHalves(items: seq<Item>, mid: nat)
    requires mid <= |items|
    ensures KeysOf(items) == KeysOf(items[..mid]) + KeysOf(items[mid..])
  {
    hide KeysOf;
  }

  lemma HalvesTranslate(m: OMap<string>, n: OMap<string>, items: seq<Item>, mid: nat, ops: seq<Op>, more: seq<Op>)
    requires mid <= |items|
    requires Translates(m, items[..mid], ops) && Translates(n, items[mid..], more)
    ensures Translates(Merge(m, n), items, ops + more)
  {
    hide Text.Trim, Told, KeysOf, Merge, Distinct, OMap.Valid;
    var left, right := KeysOf(items[..mid]), KeysOf(items[mid..]);
    KeysOfHalves(items, mid);
    MergedKeys(m, n, left, right);
    var r := Merge(m, n);
    assert [] + ops + more == ops + more && ops + more + [] == ops + more;
    forall k | k in r.at ensures Text.Trim(r.at[k]) != "" && Told(ops + more, k, r.at[k]) {
      if k in n.at {
        ToldLater(ops, more, [], k, r.at[k]);
      } else {
        ToldLater([], ops, more, k, r.at[k]);
      }
    }
  }

  /** A batch that returns has translated all its items. */
  lemma {:induction false} SuccessTranslates(
    items: seq<Item>, tried: nat, lastError: string, replies: nat -> Reply, at: nat, depth: nat)
    requires tried <= TRANSLATE_MAX_ATTEMPTS
    requires Attempt(items, tried, lastError, replies, at, depth).outcome.Ok?
    ensures var run := Attempt(items, tried, lastError, replies, at, depth);
            Translates(run.outcome.value, items, run.ops)
    decreases |items|, TRANSLATE_MAX_ATTEMPTS - tried
  {
    hide IsPromptTimeoutError, Halves, Translates, Collect;
    var reply := replies(at);
    var r := Accept(items, reply);
    if r.Ok? {
      Accepted(items, tried, lastError, replies, at, depth);
      CollectTranslates(items, reply.values);
    } else {
      Refused(items, tried, lastError, replies, at, depth);
      var rest: Run;
      if IsPromptTimeoutError(r.error) {
        Halved(items, replies, at + 1, depth);
        var mid := Midpoint(|items|);
        var left := Attempt(items[..mid], 0, FIRST_ERROR, replies, at + 1, depth + 1);
        var right := Attempt(items[mid..], 0, FIRST_ERROR, replies, at + 1 + left.attempts, depth + 1);
        SuccessTranslates(items[..mid], 0, FIRST_ERROR, replies, at + 1, depth + 1);
        SuccessTranslates(items[mid..], 0, FIRST_ERROR, replies, at + 1 + left.attempts, depth + 1);
        HalvesTranslate(left.outcome.value, right.outcome.value, items, mid, left.ops, right.ops);
        rest := Halves(items, replies, at + 1, depth);
      } else {
        SuccessTranslates(items, tried + 1, r.error, replies, at + 1, depth);
        rest := Attempt(items, tried + 1, r.error, replies, at + 1, depth);
      }
      var prefix := [Asked(items, reply), ResetClient];
      TranslatesLater(rest.outcome.value, items, prefix, rest.ops, []);
      assert prefix + rest.ops + [] == prefix + rest.ops;
    }
  }

  // ---- Which prompts follow which replies ----

  lemma {:induction false} FirstPrompt(items: seq<Item>, replies: nat -> Reply, at: nat, depth: nat)
    ensures var ops := Translate(items, replies, at, depth).ops;
            ops != [] && ops[0] == Asked(items, replies(at))
  {
    hide IsPromptTimeoutError, Accept, Halves;
    if Accept(items, replies(at)).Ok? {
      Accepted(items, 0, FIRST_ERROR, replies, at, depth);
    } else {
      Refused(items, 0, FIRST_ERROR, replies, at, depth);
    }
  }

  /** After some operations, the run is that of the first half and, once that has succeeded, of the second. */
  ghost predicate Splits(
    run: Run, tried: nat, before: seq<Op>, items: seq<Item>, replies: nat -> Reply, at: nat, depth: nat)
    requires |items| > 1
  {
    var mid := (|items| + 1) / 2;
    var left := Translate(items[..mid], replies, at, depth + 1);
    var right := Translate(items[mid..], replies, at + left.attempts, depth + 1);
    if left.outcome.Err? then
      && run.ops == before + left.ops && run.attempts == tried + left.attempts
      && run.outcome == left.outcome
    else
      && run.ops == before + left.ops + right.ops && run.attempts == tried + left.attempts + right.attempts
      && (right.outcome.Err? ==> run.outcome == right.outcome)
      && (right.outcome.Ok? ==>
            run.outcome.Ok? && run.outcome.value.at == left.outcome.value.at + right.outcome.value.at)
  }

  lemma {:induction false} HalvesSplit(
    run: Run, items: seq<Item>, failed: Run, replies: nat -> Reply, at: nat, depth: nat)
    requires |items| > 1 && run == Chain(failed, Halves(items, replies, at, depth))
    ensures Splits(run, failed.attempts, failed.ops, items, replies, at, depth)
  {
    hide Attempt, Halves, Merge;
    Halved(items, replies, at, depth);
    var mid := Midpoint(|items|);
    var left := Translate(items[..mid], replies, at, depth + 1);
    var right := Translate(items[mid..], replies, at + left.attempts, depth + 1);
    assert (failed.ops + left.ops) + right.ops == failed.ops + (left.ops + right.ops);
  }

  lemma {:induction false} SecondReplyDecides(
    items: seq<Item>, error: string, replies: nat -> Reply, at: nat, depth: nat, failed: Run)
    requires failed.attempts == 1 && failed.deepest == depth && |failed.ops| == 2 && failed.ops[1] == ResetClient
    ensures
      var run := Chain(failed, Attempt(items, 1, error, replies, at, depth));
      var second := Accept(items, replies(at));
      var again := failed.ops + [Asked(items, replies(at))];
      if second.Ok? then run.outcome == second && run.attempts == 2 && run.ops == again
      else if (exists i :: TimedOutAt(second.error, i)) && |items| > 1 then
        Splits(run, 2, again + [ResetClient], items, replies, at + 1, depth)
      else run.outcome == second && run.attempts == 2 && run.ops == again + [ResetClient]
  {
    hide IsPromptTimeoutError, Accept, Halves, Attempt, Splits, TimedOutAt;
    var second := Accept(items, replies(at));
    if second.Ok? {
      Accepted(items, 1, error, replies, at, depth);
    } else {
      TimeoutIff(second.error);
      Refused(items, 1, error, replies, at, depth);
      var last := FailedRun(items, replies(at), second.error, depth);
      if !IsPromptTimeoutError(second.error) {
        Exhausted(items, second.error, replies, at + 1, depth);
      } else if |items| > 1 {
        var run := Chain(failed, Chain(last, Halves(items, replies, at + 1, depth)));
        var both := Chain(failed, last);
        assert both.ops == failed.ops + [Asked(items, replies(at))] + [ResetClient];
        assert run.ops == both.ops + Halves(items, replies, at + 1, depth).ops;
        HalvesSplit(Chain(both, Halves(items, replies, at + 1, depth)), items, both, replies, at + 1, depth);
      }
    }
  }

  /**
    * How a batch goes on after its first reply.  Accepted: it is done.  Timed out: it is split, or given up if it
    * is a single item.  Otherwise the whole batch is asked once more, and only a timeout of that splits it.
    */
  lemma {:induction false} ReplyDecides(items: seq<Item>, replies: nat -> Reply, at: nat, depth: nat)
    ensures
      var run := Translate(items, replies, at, depth);
      var first := Accept(items, replies(at));
      var asked := [Asked(items, replies(at))];
      if first.Ok? then run.outcome == first && run.attempts == 1 && run.ops == asked
      else if exists i :: TimedOutAt(first.error, i) then
        if |items| > 1 then Splits(run, 1, asked + [ResetClient], items, replies, at + 1, depth)
        else run.outcome == first && run.attempts == 1 && run.ops == asked + [ResetClient]
      else
        var second := Accept(items, replies(at + 1));
        var again := asked + [ResetClient, Asked(items, replies(at + 1))];
        if second.Ok? then run.outcome == second && run.attempts == 2 && run.ops == again
        else if (exists i :: TimedOutAt(second.error, i)) && |items| > 1 then
          Splits(run, 2, again + [ResetClient], items, replies, at + 2, depth)
        else run.outcome == second && run.attempts == 2 && run.ops == again + [ResetClient]
  {
    hide IsPromptTimeoutError, Accept, Halves, Attempt, Splits, TimedOutAt;
    var first := Accept(items, replies(at));
    var run := Translate(items, replies, at, depth);
    if first.Ok? {
      Accepted(items, 0, FIRST_ERROR, replies, at, depth);
    } else {
      TimeoutIff(first.error);
      Refused(items, 0, FIRST_ERROR, replies, at, depth);
      var failed := FailedRun(items, replies(at), first.error, depth);
      assert failed.ops == [Asked(items, replies(at))] + [ResetClient];
      if IsPromptTimeoutError(first.error) {
        if |items| > 1 {
          HalvesSplit(run, items, failed, replies, at + 1, depth);
        }
      } else {
        var rest := Attempt(items, 1, first.error, replies, at + 1, depth);
        assert run == Chain(failed, rest);
        SecondReplyDecides(items, first.error, replies, at + 1, depth, failed);
        var again := [Asked(items, replies(at))] + [ResetClient, Asked(items, replies(at + 1))];
        assert again == failed.ops + [Asked(items, replies(at + 1))];
      }
    }
  }

  /** After a timeout of several items the next prompt is for their first half, rounded up. */
  lemma {:induction false} TimeoutAsksFirstHalf(
    items: seq<Item>, replies: nat -> Reply, at: nat, depth: nat, message: string, i: int)
    requires |items| > 1 && replies(at) == Failed(message) && TimedOutAt(message, i)
    ensures var ops := Translate(items, replies, at, depth).ops;
            && |ops| > 2 && ops[0] == Asked(items, replies(at)) && ops[1] == ResetClient
            && ops[2] == Asked(items[..(|items| + 1) / 2], replies(at + 1))
  {
    ReplyDecides(items, replies, at, depth);
    FirstPrompt(items[..(|items| + 1) / 2], replies, at + 1, depth + 1);
    hide Attempt, TimedOutAt;
  }

  /** The replies to the prompts among the operations. */
  function RepliesIn(ops: seq<Op>): seq<Reply> {
    if ops == [] then []
    else (if ops[0].Asked? then [ops[0].reply] else []) + RepliesIn(ops[1..])
  }

  lemma {:induction false} RepliesInChain(a: seq<Op>, b: seq<Op>)
    ensures RepliesIn(a + b) == RepliesIn(a) + RepliesIn(b)
  {
    if a == [] {
      assert a + b == b;
    } else {
      assert (a + b)[1..] == a[1..] + b;
      RepliesInChain(a[1..], b);
    }
  }

  ghost predicate InTurn(ops: seq<Op>, attempts: nat, replies: nat -> Reply, at: nat) {
    |RepliesIn(ops)| == attempts && forall j :: 0 <= j < attempts ==> RepliesIn(ops)[j] == replies(at + j)
  }

  lemma InTurnChain(a: seq<Op>, m: nat, b: seq<Op>, n: nat, replies: nat -> Reply, at: nat)
    requires InTurn(a, m, replies, at) && InTurn(b, n, replies, at + m)
    ensures InTurn(a + b, m + n, replies, at)
  {
    RepliesInChain(a, b);
    forall j | m <= j < m + n ensures RepliesIn(a + b)[j] == replies(at + j) {
      assert RepliesIn(b)[j - m] == replies(at + m + (j - m));
    }
  }

  lemma FailedInTurn(items: seq<Item>, replies: nat -> Reply, at: nat)
    ensures InTurn([Asked(items, replies(at))], 1, replies, at)
    ensures InTurn([Asked(items, replies(at)), ResetClient], 1, replies, at)
  {
    var ops := [Asked(items, replies(at)), ResetClient];
    assert ops[1..] == [ResetClient] && [ResetClient][1..] == [] && [Asked(items, replies(at))][1..] == [];
    assert RepliesIn([ResetClient]) == RepliesIn([]) == [];
  }

  lemma NoneInTurn(replies: nat -> Reply, at: nat)
    ensures InTurn([], 0, replies, at)
  {
  }

  /** Every reply is used once, for the prompt whose turn it is. */
  lemma {:induction false} RepliesComeInTurn(
    items: seq<Item>, tried: nat, lastError: string, replies: nat -> Reply, at: nat, depth: nat)
    requires tried <= TRANSLATE_MAX_ATTEMPTS
    ensures var run := Attempt(items, tried, lastError, replies, at, depth);
            InTurn(run.ops, run.attempts, replies, at)
    decreases |items|, TRANSLATE_MAX_ATTEMPTS - tried
  {
    hide IsPromptTimeoutError, Accept, Halves, InTurn;
    if tried == TRANSLATE_MAX_ATTEMPTS {
      Exhausted(items, lastError, replies, at, depth);
      NoneInTurn(replies, at);
    } else {
      FailedInTurn(items, replies, at);
      var r := Accept(items, replies(at));
      if r.Ok? {
        Accepted(items, tried, lastError, replies, at, depth);
      } else {
        Refused(items, tried, lastError, replies, at, depth);
        var failed := [Asked(items, replies(at)), ResetClient];
        if !IsPromptTimeoutError(r.error) {
          var rest := Attempt(items, tried + 1, r.error, replies, at + 1, depth);
          RepliesComeInTurn(items, tried + 1, r.error, replies, at + 1, depth);
          InTurnChain(failed, 1, rest.ops, rest.attempts, replies, at);
        } else if |items| > 1 {
          var mid := Midpoint(|items|);
          var left := Attempt(items[..mid], 0, FIRST_ERROR, replies, at + 1, depth + 1);
          RepliesComeInTurn(items[..mid], 0, FIRST_ERROR, replies, at + 1, depth + 1);
          var right := Attempt(items[mid..], 0, FIRST_ERROR, replies, at + 1 + left.attempts, depth + 1);
          RepliesComeInTurn(items[mid..], 0, FIRST_ERROR, replies, at + 1 + left.attempts, depth + 1);
          InTurnChain(left.ops, left.attempts, right.ops, right.attempts, replies, at + 1);
          Halved(items, replies, at + 1, depth);
          var halves := Halves(items, replies, at + 1, depth);
          InTurnChain(failed, 1, halves.ops, halves.attempts, replies, at);
        }
      }
    }
  }

  // ---- The discipline that keeps answers apart ----

  /** The driver's state after an operation, or None if the session would not allow it. */
  function Drive(driver: Session.Driver, op: Op): Option<Session.Driver> {
    match op
    case ResetClient => Some(Session.Fresh)
    case Asked(items, reply) =>
      if !Session.MayAsk(driver) then None
      else if Accept(items, reply).Ok? then Some(Session.Live)
      else Some(Session.Broken)
  }

  function DriveAll(driver: Session.Driver, ops: seq<Op>): Option<Session.Driver>
    decreases |ops|
  {
    if ops == [] then Some(driver)
    else match Drive(driver, ops[0])
      case None => None
      case Some(next) => DriveAll(next, ops[1..])
  }

  lemma {:induction false} DriveChain(driver: Session.Driver, a: seq<Op>, b: seq<Op>)
    requires DriveAll(driver, a).Some?
    ensures DriveAll(driver, a + b) == DriveAll(DriveAll(driver, a).value, b)
    decreases |a|
  {
    if a == [] {
      assert a + b == b;
    } else {
      assert (a + b)[1..] == a[1..] + b;
      DriveChain(Drive(driver, a[0]).value, a[1..], b);
    }
  }

  /** Resetting is always allowed. */
  lemma {:induction false} DriveReset(driver: Session.Driver, ops: seq<Op>)
    ensures DriveAll(Session.Fresh, []) == Some(Session.Fresh)
    ensures DriveAll(Session.Fresh, ops) == Some(driver) ==>
      DriveAll(Session.Fresh, ops + [ResetClient]) == Some(Session.Fresh)
  {
    assert [ResetClient][1..] == [];
    if DriveAll(Session.Fresh, ops).Some? {
      DriveChain(Session.Fresh, ops, [ResetClient]);
    }
  }

  lemma {:induction false} FailedAskIsDriven(driver: Session.Driver, items: seq<Item>, reply: Reply)
    requires Session.MayAsk(driver)
    ensures Accept(items, reply).Err? ==> DriveAll(driver, [Asked(items, reply), ResetClient]) == Some(Session.Fresh)
    ensures Accept(items, reply).Ok? ==> DriveAll(driver, [Asked(items, reply)]) == Some(Session.Live)
  {
    hide Accept;
    var ops := [Asked(items, reply), ResetClient];
    assert ops[1..] == [ResetClient] && [ResetClient][1..] == [] && [Asked(items, reply)][1..] == [];
    assert DriveAll(Session.Broken, [ResetClient]) == DriveAll(Session.Fresh, []) == Some(Session.Fresh);
  }

  /**
    * A batch never asks a client that failed it: every operation is one the
    * session allows, and the driver ends up live after a success and with no
    * client after a failure.
    */
  lemma {:induction false} BatchIsDisciplined(
    items: seq<Item>, tried: nat, lastError: string,
    replies: nat -> Reply, at: nat, depth: nat, driver: Session.Driver)
    requires tried < TRANSLATE_MAX_ATTEMPTS && Session.MayAsk(driver)
    ensures var run := Attempt(items, tried, lastError, replies, at, depth);
            DriveAll(driver, run.ops) == Some(if run.outcome.Ok? then Session.Live else Session.Fresh)
    decreases |items|, TRANSLATE_MAX_ATTEMPTS - tried
  {
    hide IsPromptTimeoutError, Accept, Halves, Drive, DriveAll, Joined;
    var reply := replies(at);
    var r := Accept(items, reply);
    FailedAskIsDriven(driver, items, reply);
    if r.Ok? {
      Accepted(items, tried, lastError, replies, at, depth);
    } else {
      Refused(items, tried, lastError, replies, at, depth);
      var prefix := [Asked(items, reply), ResetClient];
      if !IsPromptTimeoutError(r.error) {
        var rest := Attempt(items, tried + 1, r.error, replies, at + 1, depth);
        if tried + 1 < TRANSLATE_MAX_ATTEMPTS {
          BatchIsDisciplined(items, tried + 1, r.error, replies, at + 1, depth, Session.Fresh);
          DriveChain(driver, prefix, rest.ops);
        } else {
          assert prefix + rest.ops == prefix;
        }
      } else if |items| > 1 {
        HalvesAreDisciplined(items, replies, at + 1, depth);
        DriveChain(driver, prefix, Halves(items, replies, at + 1, depth).ops);
      }
    }
  }

  lemma {:induction false} HalvesAreDisciplined(items: seq<Item>, replies: nat -> Reply, at: nat, depth: nat)
    requires |items| > 1
    ensures var run := Halves(items, replies, at, depth);
            DriveAll(Session.Fresh, run.ops) == Some(if run.outcome.Ok? then Session.Live else Session.Fresh)
    decreases |items|, 0
  {
    hide IsPromptTimeoutError, Accept, Halves, Attempt, Drive, DriveAll;
    Halved(items, replies, at, depth);
    var mid := Midpoint(|items|);
    var left := Attempt(items[..mid], 0, FIRST_ERROR, replies, at, depth + 1);
    BatchIsDisciplined(items[..mid], 0, FIRST_ERROR, replies, at, depth + 1, Session.Fresh);
    if left.outcome.Ok? {
      var right := Attempt(items[mid..], 0, FIRST_ERROR, replies, at + left.attempts, depth + 1);
      BatchIsDisciplined(items[mid..], 0, FIRST_ERROR, replies, at + left.attempts, depth + 1, Session.Live);
      DriveChain(Session.Fresh, left.ops, right.ops);
    }
  }

  /** A batch continues a disciplined run, whatever came before it. */
  lemma {:induction false} TranslateDrives(
    ops: seq<Op>, driver: Session.Driver, items: seq<Item>, replies: nat -> Reply, at: nat)
    requires DriveAll(Session.Fresh, ops) == Some(driver) && Session.MayAsk(driver)
    ensures var run := Translate(items, replies, at, 0);
            DriveAll(Session.Fresh, ops + run.ops) == Some(if run.outcome.Ok? then Session.Live else Session.Fresh)
  {
    hide Attempt, DriveAll;
    BatchIsDisciplined(items, 0, FIRST_ERROR, replies, at, 0, driver);
    DriveChain(Session.Fresh, ops, Translate(items, replies, at, 0).ops);
  }

  // ---- The bound is reached ----

  /** Every attempt fails once more than it must: a plain failure, then a timeout, down to single keys. */
  function WorstReplies(n: nat, good: map<string, Value>): (r: seq<Reply>)
    ensures n >= 1 ==> |r| == 4 * n - 2
  {
    if n == 0 then []
    else if n == 1 then [Failed("refused"), Parsed(good)]
    else
      var mid := Midpoint(n);
      [Failed("refused"), Failed("timed out")] + WorstReplies(mid, good) + WorstReplies(n - mid, good)
  }

  ghost predicate Serves(replies: nat -> Reply, at: nat, script: seq<Reply>) {
    forall i :: 0 <= i < |script| ==> replies(at + i) == script[i]
  }

  lemma TimeoutTexts()
    ensures IsPromptTimeoutError("timed out") && !IsPromptTimeoutError("refused")
  {
    TimeoutAnywhere("", "timed out", "");
    assert "" + "timed out" + "" == "timed out";
    TimeoutIff("refused");
  }

  lemma {:induction false} CollectSucceeds(items: seq<Item>, values: map<string, Value>)
    requires forall item <- items :: Usable(values, item.key)
    ensures Collect(items, values).Ok?
  {
    if items != [] {
      CollectSucceeds(items[..|items| - 1], values);
    }
  }

  lemma ServesParts(replies: nat -> Reply, at: nat, a: seq<Reply>, b: seq<Reply>)
    requires Serves(replies, at, a + b)
    ensures Serves(replies, at, a) && Serves(replies, at + |a|, b)
  {
    forall i | 0 <= i < |a| ensures replies(at + i) == a[i] {
      assert (a + b)[i] == a[i];
    }
    forall i | 0 <= i < |b| ensures replies(at + |a| + i) == b[i] {
      assert replies(at + (|a| + i)) == (a + b)[|a| + i];
    }
  }

  /** A plain failure at the first attempt; the second attempt decides. */
  lemma {:induction false} FirstFails(items: seq<Item>, replies: nat -> Reply, at: nat, depth: nat)
    requires replies(at) == Failed("refused")
    ensures Attempt(items, 0, FIRST_ERROR, replies, at, depth)
            == Chain(FailedRun(items, replies(at), "refused", depth),
                     Attempt(items, 1, "refused", replies, at + 1, depth))
  {
    TimeoutTexts();
    hide IsPromptTimeoutError;
    Refused(items, 0, FIRST_ERROR, replies, at, depth);
  }

  /** Both attempts of an opening that ends in a timeout fail, and the halves decide. */
  lemma {:induction false} OpeningSplits(items: seq<Item>, replies: nat -> Reply, at: nat, depth: nat)
    requires |items| > 1 && Serves(replies, at, [Failed("refused"), Failed("timed out")])
    ensures var run := Attempt(items, 0, FIRST_ERROR, replies, at, depth);
            var rest := Halves(items, replies, at + 2, depth);
            run.outcome == rest.outcome && run.attempts == 2 + rest.attempts
  {
    TimeoutTexts();
    hide IsPromptTimeoutError, Attempt, Halves;
    var opening := [Failed("refused"), Failed("timed out")];
    assert replies(at + 0) == opening[0] && replies(at + 1) == opening[1];
    FirstFails(items, replies, at, depth);
    Refused(items, 1, "refused", replies, at + 1, depth);
  }

  lemma {:induction false} WorstSingle(
    items: seq<Item>, good: map<string, Value>, replies: nat -> Reply, at: nat, depth: nat)
    requires |items| == 1 && forall item <- items :: Usable(good, item.key)
    requires Serves(replies, at, [Failed("refused"), Parsed(good)])
    ensures var run := Attempt(items, 0, FIRST_ERROR, replies, at, depth);
            run.outcome.Ok? && run.attempts == 2
  {
    hide IsPromptTimeoutError, Attempt, Halves, Usable, Collect;
    var script := [Failed("refused"), Parsed(good)];
    assert replies(at + 0) == script[0] && replies(at + 1) == script[1];
    FirstFails(items, replies, at, depth);
    CollectSucceeds(items, good);
    Accepted(items, 1, "refused", replies, at + 1, depth);
  }

  lemma {:induction false} WorstCase(
    items: seq<Item>, good: map<string, Value>, replies: nat -> Reply, at: nat, depth: nat)
    requires items != [] && forall item <- items :: Usable(good, item.key)
    requires Serves(replies, at, WorstReplies(|items|, good))
    ensures var run := Attempt(items, 0, FIRST_ERROR, replies, at, depth);
            run.outcome.Ok? && run.attempts == 4 * |items| - 2
    decreases |items|
  {
    hide IsPromptTimeoutError, Attempt, Halves, Usable, Merge;
    var script := WorstReplies(|items|, good);
    if |items| == 1 {
      assert script == [Failed("refused"), Parsed(good)];
      WorstSingle(items, good, replies, at, depth);
    } else {
      var opening := [Failed("refused"), Failed("timed out")];
      var rest := WorstReplies(Midpoint(|items|), good) + WorstReplies(|items| - Midpoint(|items|), good);
      assert script == opening + rest;
      hide WorstReplies, Serves;
      ServesParts(replies, at, opening, rest);
      WorstHalves(items, good, replies, at + 2, depth);
      OpeningSplits(items, replies, at, depth);
    }
  }

  lemma {:induction false} WorstHalves(
    items: seq<Item>, good: map<string, Value>, replies: nat -> Reply, at: nat, depth: nat)
    requires |items| > 1 && forall item <- items :: Usable(good, item.key)
    requires var mid := Midpoint(|items|);
             Serves(replies, at, WorstReplies(mid, good) + WorstReplies(|items| - mid, good))
    ensures var run := Halves(items, replies, at, depth);
            run.outcome.Ok? && run.attempts == 4 * |items| - 4
    decreases |items|, 0
  {
    hide IsPromptTimeoutError, Attempt, Halves, Usable, Merge, WorstReplies, Serves;
    var mid := Midpoint(|items|);
    var first, second := WorstReplies(mid, good), WorstReplies(|items| - mid, good);
    ServesParts(replies, at, first, second);
    WorstCase(items[..mid], good, replies, at, depth + 1);
    WorstCase(items[mid..], good, replies, at + |first|, depth + 1);
    Halved(items, replies, at, depth);
  }

  lemma AnyTextIsUsable(items: seq<Item>, good: map<string, Value>)
    requires good == map item <- items :: item.key := Str("x")
    ensures forall item <- items :: Usable(good, item.key)
  {
    Text.TrimFixes("x");
    hide Text.Trim;
  }

  /** For every batch some run of replies makes it succeed only after exactly 4n - 2 attempts. */
  lemma BoundIsTight(items: seq<Item>) returns (replies: nat -> Reply)
    requires items != []
    ensures var run := Translate(items, replies, 0, 0);
            run.outcome.Ok? && run.attempts == 4 * |items| - 2
  {
    hide IsPromptTimeoutError, Attempt, WorstReplies, Usable;
    var good := map item <- items :: item.key := Str("x");
    AnyTextIsUsable(items, good);
    var script := WorstReplies(|items|, good);
    replies := (i: nat) => if i < |script| then script[i] else Failed("");
    WorstCase(items, good, replies, 0, 0);
  }

  // ---- The code ----

  /** The lazily created client, seen as a source of replies. */
  class ClientAccess {
    const replies: nat -> Reply
    var next: nat
    var ops: seq<Op>

    constructor (replies: nat -> Reply)
      ensures this.replies == replies && next == 0 && ops == []
    {
      this.replies := replies;
      next, ops := 0, [];
    }

    method Prompt(items: seq<Item>) returns (reply: Reply)
      modifies this
      ensures reply == replies(old(next)) && next == old(next) + 1 && ops == old(ops) + [Asked(items, reply)]
    {
      reply := replies(next);
      next := next + 1;
      ops := ops + [Asked(items, reply)];
    }

    method Reset()
      modifies this`ops
      ensures ops == old(ops) + [ResetClient]
    {
      ops := ops + [ResetClient];
    }
  }

  lemma {:induction false} CollectStopsAt(items: seq<Item>, values: map<string, Value>, i: nat)
    requires i < |items| && Collect(items[..i], values).Ok? && !Usable(values, items[i].key)
    ensures Collect(items, values) == Err("missing translation for " + items[i].key)
    decreases |items|
  {
    hide Usable, Put;
    var before := items[..|items| - 1];
    if i < |before| {
      assert before[..i] == items[..i];
      CollectStopsAt(before, values, i);
    }
  }

  /** The reply has a text with more than white space for the key. */
  predicate HasText(values: map<string, Value>, key: string) {
    key in values && values[key] != NotAString && Text.Trim(values[key].text) != ""
  }

  lemma {:induction false} FirstUnusable(items: seq<Item>, values: map<string, Value>) returns (i: nat)
    requires exists item <- items :: !HasText(values, item.key)
    ensures i < |items| && !HasText(values, items[i].key) && forall item <- items[..i] :: HasText(values, item.key)
  {
    hide HasText;
    if HasText(values, items[0].key) {
      assert items == [items[0]] + items[1..];
      var later := FirstUnusable(items[1..], values);
      i := later + 1;
      assert items[..i] == [items[0]] + items[1..][..later];
    } else {
      i := 0;
    }
  }

  /** A reply is accepted exactly when it has a text for every item; otherwise the first item without one is named. */
  lemma {:induction false} AcceptIff(items: seq<Item>, reply: Reply)
    ensures reply.Failed? ==> Accept(items, reply) == Err(reply.message)
    ensures reply.Parsed? && (forall item <- items :: HasText(reply.values, item.key)) ==>
              && Accept(items, reply).Ok?
              && forall item <- items :: Accept(items, reply).value.Get(item.key) == Some(reply.values[item.key].text)
    ensures reply.Parsed? && !(forall item <- items :: HasText(reply.values, item.key)) ==>
      exists i :: 0 <= i < |items| && !HasText(reply.values, items[i].key)
                  && (forall item <- items[..i] :: HasText(reply.values, item.key))
                  && Accept(items, reply) == Err("missing translation for " + items[i].key)
  {
    hide Text.Trim;
    if reply.Parsed? {
      if forall item <- items :: HasText(reply.values, item.key) {
        CollectSucceeds(items, reply.values);
        CollectKeys(items, reply.values);
        forall item | item in items ensures item.key in KeysOf(items) {
          var i :| 0 <= i < |items| && items[i] == item;
          assert KeysOf(items)[i] == item.key;
        }
      } else {
        var i := FirstUnusable(items, reply.values);
        CollectSucceeds(items[..i], reply.values);
        CollectStopsAt(items, reply.values, i);
      }
    }
  }

  method AcceptReply(items: seq<Item>, reply: Reply) returns (r: Outcome)
    ensures r == Accept(items, reply)
  {
    if reply.Failed? {
      return Err(reply.message);
    }
    var translated := Empty();
    assert items[..0] == [];
    for i := 0 to |items|
      invariant Collect(items[..i], reply.values) == Ok(translated)
    {
      var key := items[i].key;
      assert items[..i + 1][..i] == items[..i];
      if !Usable(reply.values, key) {
        CollectStopsAt(items, reply.values, i);
        return Err("missing translation for " + key);
      }
      translated := Put(translated, key, reply.values[key].text);
    }
    assert items[..|items|] == items;
    r := Ok(translated);
  }

  /** `rest` is what remains of `whole`, some prompts and operations later. */
  ghost predicate Continues(whole: Run, rest: Run, next0: nat, ops0: seq<Op>, next: nat, ops: seq<Op>) {
    && rest.outcome == whole.outcome && rest.deepest == whole.deepest
    && next + rest.attempts == next0 + whole.attempts
    && ops + rest.ops == ops0 + whole.ops
  }

  lemma Continuing(whole: Run, next: nat, ops: seq<Op>)
    ensures Continues(whole, whole, next, ops, next, ops)
  {
  }

  lemma Concluded(whole: Run, rest: Run, next0: nat, ops0: seq<Op>, next: nat, ops: seq<Op>)
    requires Continues(whole, rest, next0, ops0, next, ops)
    ensures rest.outcome == whole.outcome && rest.deepest == whole.deepest
    ensures next + rest.attempts == next0 + whole.attempts
    ensures ops + rest.ops == ops0 + whole.ops
  {
  }

  lemma ContinueAfter(whole: Run, failed: Run, rest: Run, next0: nat, ops0: seq<Op>, next: nat, ops: seq<Op>)
    requires Continues(whole, Chain(failed, rest), next0, ops0, next, ops) && failed.deepest <= rest.deepest
    ensures Continues(whole, rest, next0, ops0, next + failed.attempts, ops + failed.ops)
  {
    assert (ops + failed.ops) + rest.ops == ops + (failed.ops + rest.ops);
  }

  method TranslateBatch(
    access: ClientAccess, items: seq<Item>, splitDepth: nat) returns (outcome: Outcome, ghost deepest: nat)
    modifies access
    ensures var run := Translate(items, access.replies, old(access.next), splitDepth);
            && outcome == run.outcome && deepest == run.deepest
            && access.next == old(access.next) + run.attempts
            && access.ops == old(access.ops) + run.ops
    decreases |items|
  {
    hide IsPromptTimeoutError, Accept, Attempt, Halves, Continues;
    ghost var next0, ops0 := access.next, access.ops;
    ghost var whole := Translate(items, access.replies, next0, splitDepth);
    ghost var rest := whole;
    var lastError := FIRST_ERROR;
    Continuing(whole, next0, ops0);
    for attempt := 0 to TRANSLATE_MAX_ATTEMPTS
      invariant rest == Attempt(items, attempt, lastError, access.replies, access.next, splitDepth)
      invariant Continues(whole, rest, next0, ops0, access.next, access.ops)
    {
      ghost var at, ops, error := access.next, access.ops, lastError;
      var reply := access.Prompt(items);
      var r := AcceptReply(items, reply);
      if r.Ok? {
        Accepted(items, attempt, error, access.replies, at, splitDepth);
        Concluded(whole, rest, next0, ops0, at, ops);
        return r, splitDepth;
      }
      lastError := r.error;
      access.Reset();
      Refused(items, attempt, error, access.replies, at, splitDepth);
      ghost var failed := FailedRun(items, reply, lastError, splitDepth);
      assert access.ops == ops + failed.ops;
      if IsPromptTimeoutError(lastError) && |items| > 1 {
        rest := Halves(items, access.replies, access.next, splitDepth);
        ContinueAfter(whole, failed, rest, next0, ops0, at, ops);
        Concluded(whole, rest, next0, ops0, access.next, access.ops);
        Halved(items, access.replies, access.next, splitDepth);
        var midpoint := Midpoint(|items|);
        var left, leftDepth := TranslateBatch(access, items[..midpoint], splitDepth + 1);
        if left.Err? {
          return left, leftDepth;
        }
        var right, rightDepth := TranslateBatch(access, items[midpoint..], splitDepth + 1);
        return Joined(left, right), if leftDepth < rightDepth then rightDepth else leftDepth;
      }
      if IsPromptTimeoutError(lastError) {
        Concluded(whole, rest, next0, ops0, at, ops);
        return Err(lastError), splitDepth;
      }
      rest := Attempt(items, attempt + 1, lastError, access.replies, access.next, splitDepth);
      ContinueAfter(whole, failed, rest, next0, ops0, at, ops);
    }
    Exhausted(items, lastError, access.replies, access.next, splitDepth);
    Concluded(whole, rest, next0, ops0, access.next, access.ops);
    return Err(lastError), splitDepth;
  }
}
