/**
 The bad-word filter (vllm/logits_process.py): before each step it masks every token
 that would complete a forbidden word.
 */
module BadWords {

  type Word = seq<int>

  // ----- logits -----

  datatype Logit = NegInf | Fin(value: real) | PosInf | NaN

  function Plus(a: Logit, b: Logit): Logit {
    if a.NaN? || b.NaN? || (a.PosInf? && b.NegInf?) || (a.NegInf? && b.PosInf?) then NaN
    else if a.Fin? && b.Fin? then Fin(a.value + b.value)
    else if a.Fin? then b else a
  }

  /** The sum with a bias: zero changes nothing, minus infinity turns a finite logit into minus infinity. */
  lemma PlusBias(a: Logit)
    ensures Plus(a, Fin(0.0)) == a
    ensures a.Fin? || a.NegInf? ==> Plus(a, NegInf) == NegInf
    ensures Plus(Plus(a, Fin(0.0)), NegInf) == Plus(a, NegInf)
    ensures Plus(Plus(a, NegInf), NegInf) == Plus(a, NegInf)
  {
  }

  // ----- words in a text -----

  predicate EndsWith(text: seq<int>, w: Word) {
    |w| <= |text| && text[|text| - |w|..] == w
  }

  /** Token t after this past would complete one of the words. */
  ghost predicate Banned(words: seq<Word>, past: seq<int>, t: int) {
    exists k :: 0 <= k < |words| && EndsWith(past + [t], words[k])
  }

  predicate OccursAt(text: seq<int>, w: Word, i: nat) {
    i + |w| <= |text| && text[i..i + |w|] == w
  }

  /** The word occurs somewhere as a contiguous block. */
  ghost predicate Contains(text: seq<int>, w: Word) {
    exists i: nat :: OccursAt(text, w, i)
  }

  ghost predicate Clean(words: seq<Word>, text: seq<int>) {
    forall k :: 0 <= k < |words| ==> !Contains(text, words[k])
  }

  /** No step of the text completed a word. */
  ghost predicate NeverBanned(words: seq<Word>, text: seq<int>) {
    forall i :: 0 <= i < |text| ==> !Banned(words, text[..i], text[i])
  }

  predicate NonEmpty(words: seq<Word>) {
    forall k :: 0 <= k < |words| ==> words[k] != []
  }

  /** A text can be produced without ever completing a word exactly when no word occurs in it. */
  lemma NeverBannedIff(words: seq<Word>, text: seq<int>)
    requires NonEmpty(words)
    ensures NeverBanned(words, text) <==> Clean(words, text)
  {
    if NeverBanned(words, text) {
      forall k | 0 <= k < |words| ensures !Contains(text, words[k]) {
        forall i: nat | i + |words[k]| <= |text| ensures !OccursAt(text, words[k], i) {
          var e := i + |words[k]|;
          assert !Banned(words, text[..e - 1], text[e - 1]);
          EndsInside(text, words[k], e);
        }
      }
    } else {
      var i :| 0 <= i < |text| && Banned(words, text[..i], text[i]);
      var k :| 0 <= k < |words| && EndsWith(text[..i] + [text[i]], words[k]);
      EndsInside(text, words[k], i + 1);
      assert OccursAt(text, words[k], i + 1 - |words[k]|);
    }
  }

  lemma EndsInside(text: seq<int>, w: Word, e: nat)
    requires 0 < e <= |text|
    ensures EndsWith(text[..e - 1] + [text[e - 1]], w) <==> |w| <= e && OccursAt(text, w, e - |w|)
  {
    assert text[..e - 1] + [text[e - 1]] == text[..e];
    if |w| <= e {
      assert text[..e][e - |w|..] == text[e - |w|..e];
    }
  }

  // ----- the two biases -----

  predicate IdsInRange(words: seq<Word>, vocab: nat) {
    forall k, j :: 0 <= k < |words| && 0 <= j < |words[k]| ==> 0 <= words[k][j] < vocab
  }

  function Zeros(vocab: nat): (r: seq<Logit>)
    ensures |r| == vocab && forall t :: 0 <= t < vocab ==> r[t] == Fin(0.0)
  {
    seq(vocab, _ => Fin(0.0))
  }

  ghost predicate SingleTo(words: seq<Word>, n: nat, t: int)
    requires n <= |words|
  {
    exists k :: 0 <= k < n && words[k] == [t]
  }

  ghost predicate LongTo(words: seq<Word>, n: nat, past: seq<int>, t: int)
    requires n <= |words|
  {
    exists k :: 0 <= k < n && |words[k]| > 1 && EndsWith(past + [t], words[k])
  }

  function Bias(masked: bool): Logit {
    if masked then NegInf else Fin(0.0)
  }

  /** Minus infinity exactly at the one-token words among the first n. */
  ghost predicate MasksSingle(bias: seq<Logit>, words: seq<Word>, n: nat)
    requires n <= |words|
  {
    forall t :: 0 <= t < |bias| ==> bias[t] == Bias(SingleTo(words, n, t))
  }

  /** Minus infinity exactly at the tokens that complete a longer word among the first n. */
  ghost predicate MasksLong(bias: seq<Logit>, words: seq<Word>, n: nat, past: seq<int>)
    requires n <= |words|
  {
    forall t :: 0 <= t < |bias| ==> bias[t] == Bias(LongTo(words, n, past, t))
  }

  lemma BannedSplit(words: seq<Word>, past: seq<int>, t: int)
    requires NonEmpty(words)
    ensures Banned(words, past, t) <==> SingleTo(words, |words|, t) || LongTo(words, |words|, past, t)
  {
    forall k | 0 <= k < |words| && |words[k]| == 1 ensures EndsWith(past + [t], words[k]) <==> words[k] == [t] {
      assert (past + [t])[|past|..] == [t];
    }
  }

  /** The past ends with all of the word but its last token. */
  predicate PrefixMatches(past: seq<int>, w: Word)
    requires 1 < |w| <= |past| + 1
  {
    past[|past| - (|w| - 1)..] == w[..|w| - 1]
  }

  lemma MatchIff(past: seq<int>, w: Word, t: int)
    requires 1 < |w| <= |past| + 1
    ensures EndsWith(past + [t], w) <==> PrefixMatches(past, w) && t == w[|w| - 1]
  {
    var p := past[|past| - (|w| - 1)..];
    assert (past + [t])[|past| + 1 - |w|..] == p + [t];
    assert w == w[..|w| - 1] + [w[|w| - 1]];
    if p + [t] == w {
      assert (p + [t])[..|w| - 1] == p && (p + [t])[|w| - 1] == t;
    }
  }

  // ----- the filter -----

  datatype Result = BadTokenIds | EmptyWord | Ok(logits: seq<Logit>)

  ghost predicate Masked(words: seq<Word>, past: seq<int>, before: seq<Logit>, after: seq<Logit>) {
    && |after| == |before|
    && forall t :: 0 <= t < |before| ==>
                     after[t] == if Banned(words, past, t) then Plus(before[t], NegInf) else before[t]
  }

  class NoBadWords {
    const words: seq<Word>
    var bias: seq<Logit>
    var ready: bool

    constructor (words: seq<Word>)
      ensures this.words == words && !ready && Valid()
    {
      this.words := words;
      bias, ready := [], false;
    }

    /** The cached bias masks the one-token words. */
    ghost predicate Valid()
      reads this
    {
      ready ==> IdsInRange(words, |bias|) && MasksSingle(bias, words, |words|)
    }

    method CheckIds(vocab: nat) returns (ok: bool)
      ensures ok <==> IdsInRange(words, vocab)
    {
      for k := 0 to |words|
        invariant forall i, j :: 0 <= i < k && 0 <= j < |words[i]| ==> 0 <= words[i][j] < vocab
      {
        for j := 0 to |words[k]|
          invariant forall i :: 0 <= i < j ==> 0 <= words[k][i] < vocab
        {
          if words[k][j] < 0 || words[k][j] >= vocab {
            return false;
          }
        }
      }
      return true;
    }

    /** Build the cached bias; false is the error about token ids out of range. */
    method InitBias(vocab: nat) returns (ok: bool)
      requires !ready
      modifies `bias, `ready
      ensures ok <==> IdsInRange(words, vocab)
      ensures ok ==> ready && |bias| == vocab && Valid()
      ensures !ok ==> !ready
    {
      ok := CheckIds(vocab);
      if !ok {
        return;
      }
      var built := Zeros(vocab);
      for k := 0 to |words|
        invariant |built| == vocab && MasksSingle(built, words, k)
      {
        if |words[k]| == 1 {
          assert words[k] == [words[k][0]];
          built := built[words[k][0] := NegInf];
        }
      }
      bias, ready := built, true;
    }

    /** The bias of the longer words after this past; an empty word is an error. */
    method LastTokenBias(past: seq<int>, vocab: nat) returns (ok: bool, last: seq<Logit>)
      requires IdsInRange(words, vocab)
      ensures ok <==> NonEmpty(words)
      ensures ok ==> |last| == vocab && MasksLong(last, words, |words|, past)
    {
      last := Zeros(vocab);
      for k := 0 to |words|
        invariant |last| == vocab && MasksLong(last, words, k, past)
        invariant forall i :: 0 <= i < k ==> words[i] != []
      {
        var w := words[k];
        if |w| == 0 {
          return false, last;
        }
        if 1 < |w| <= |past| + 1 {
          var n := |w| - 1;
          ghost var before := last;
          last := last[w[n] := Plus(last[w[n]], Bias(PrefixMatches(past, w)))];
          forall t | 0 <= t < vocab ensures last[t] == Bias(LongTo(words, k + 1, past, t)) {
            assert before[t] == Bias(LongTo(words, k, past, t));
            LongNextAt(words, k, past, t);
            BiasPlus(LongTo(words, k, past, t), PrefixMatches(past, w), t == w[n]);
          }
        } else {
          LongSkip(words, k, past, last);
        }
      }
      return true, last;
    }

    /** One call: the first one also builds the cache. */
    method Call(past: seq<int>, logits: seq<Logit>) returns (r: Result)
      requires Valid() && (ready ==> |bias| == |logits|)
      modifies this
      ensures Valid() && (ready ==> |bias| == |logits|)
      ensures r.BadTokenIds? <==> !IdsInRange(words, |logits|)
      ensures r.EmptyWord? <==> IdsInRange(words, |logits|) && !NonEmpty(words)
      ensures r.Ok? ==> Masked(words, past, logits, r.logits)
    {
      if !ready {
        var ok := InitBias(|logits|);
        if !ok {
          return BadTokenIds;
        }
      }
      var ok, last := LastTokenBias(past, |logits|);
      if !ok {
        return EmptyWord;
      }
      var after := seq(|logits|,
                       t requires 0 <= t < |logits| && |bias| == |last| == |logits| reads this =>
                         Plus(Plus(logits[t], bias[t]), last[t]));
      forall t | 0 <= t < |logits|
        ensures after[t] == if Banned(words, past, t) then Plus(logits[t], NegInf) else logits[t]
      {
        BannedSplit(words, past, t);
        PlusBias(logits[t]);
      }
      return Ok(after);
    }
  }

  lemma LongToNext(words: seq<Word>, k: nat, past: seq<int>, t: int)
    requires k < |words|
    ensures LongTo(words, k + 1, past, t) <==>
              LongTo(words, k, past, t) || (|words[k]| > 1 && EndsWith(past + [t], words[k]))
  {
  }

  lemma BiasPlus(masked: bool, hit: bool, here: bool)
    ensures (if here then Plus(Bias(masked), Bias(hit)) else Bias(masked)) == Bias(masked || (hit && here))
  {
  }

  lemma LongNextAt(words: seq<Word>, k: nat, past: seq<int>, t: int)
    requires k < |words| && 1 < |words[k]| <= |past| + 1
    ensures LongTo(words, k + 1, past, t) <==>
              LongTo(words, k, past, t) || (PrefixMatches(past, words[k]) && t == words[k][|words[k]| - 1])
  {
    LongToNext(words, k, past, t);
    MatchIff(past, words[k], t);
  }

  lemma LongSkip(words: seq<Word>, k: nat, past: seq<int>, last: seq<Logit>)
    requires k < |words| && !(1 < |words[k]| <= |past| + 1) && MasksLong(last, words, k, past)
    ensures MasksLong(last, words, k + 1, past)
  {
    forall t | 0 <= t < |last| ensures last[t] == Bias(LongTo(words, k + 1, past, t)) {
      LongToNext(words, k, past, t);
      assert last[t] == Bias(LongTo(words, k, past, t));
    }
  }

  // ----- whole generations -----

  /** Every step had finite logits for its token, and the filtered logit of the token was not minus infinity. */
  ghost predicate Emitted(words: seq<Word>, text: seq<int>, raw: seq<seq<Logit>>, filtered: seq<seq<Logit>>) {
    && |raw| == |filtered| == |text|
    && forall i :: 0 <= i < |text| ==>
                     && Masked(words, text[..i], raw[i], filtered[i])
                     && 0 <= text[i] < |raw[i]| && raw[i][text[i]].Fin? && filtered[i][text[i]] != NegInf
  }

  /** Whatever the logits, a generation that never picks a masked token contains no bad word. */
  lemma GenerationIsClean(words: seq<Word>, text: seq<int>, raw: seq<seq<Logit>>, filtered: seq<seq<Logit>>)
    requires NonEmpty(words) && Emitted(words, text, raw, filtered)
    ensures Clean(words, text)
  {
    forall i | 0 <= i < |text| ensures !Banned(words, text[..i], text[i]) {
      PlusBias(raw[i][text[i]]);
    }
    NeverBannedIff(words, text);
  }

  /** And the filter forbids nothing else: a clean text is never masked, with any finite logits. */
  lemma CleanIsPossible(words: seq<Word>, text: seq<int>, raw: seq<seq<Logit>>, filtered: seq<seq<Logit>>)
    requires NonEmpty(words) && Clean(words, text) && |raw| == |filtered| == |text|
    requires forall i :: 0 <= i < |text| ==>
                           && Masked(words, text[..i], raw[i], filtered[i])
                           && 0 <= text[i] < |raw[i]| && raw[i][text[i]].Fin?
    ensures Emitted(words, text, raw, filtered)
  {
    NeverBannedIff(words, text);
    forall i | 0 <= i < |text| ensures filtered[i][text[i]] != NegInf {
      assert !Banned(words, text[..i], text[i]);
    }
  }

  /** One filter object used for a whole generation: it accepts the tokens exactly when no bad word occurs. */
  method Generate(filter: NoBadWords, text: seq<int>, raw: seq<seq<Logit>>, vocab: nat) returns (accepted: bool)
    requires filter.Valid() && !filter.ready && IdsInRange(filter.words, vocab) && NonEmpty(filter.words)
    requires |raw| == |text| && forall i :: 0 <= i < |text| ==> |raw[i]| == vocab
    requires forall i :: 0 <= i < |text| ==> 0 <= text[i] < vocab && raw[i][text[i]].Fin?
    modifies filter
    ensures accepted <==> Clean(filter.words, text)
  {
    for i := 0 to |text|
      invariant filter.Valid() && (filter.ready ==> |filter.bias| == vocab)
      invariant forall j :: 0 <= j < i ==> !Banned(filter.words, text[..j], text[j])
    {
      var r := filter.Call(text[..i], raw[i]);
      PlusBias(raw[i][text[i]]);
      if r.logits[text[i]] == NegInf {
        NeverBannedIff(filter.words, text);
        return false;
      }
    }
    NeverBannedIff(filter.words, text);
    return true;
  }
}
