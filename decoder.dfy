/**
 * Greedy left-to-right sequence labelling.  The linear model's scorer and the
 * feature extractor are not part of this model: they are the two functions of
 * a `Tagger`, about which nothing is assumed.  The sentence is a sequence of
 * tokens, read through the total `GetWord`, which yields the distinct
 * `NoWord` outside the sentence.
 */
module Decoder {

  type Label = string

  /** A position of the sentence: a word, or the boundary sentinel. */
  datatype Token = NoWord | Word(text: string)

  /** The unseen collaborators: feature extraction and the model's argmax. */
  datatype Tagger<!F> = Tagger(features: (Token, Token, Token, Label) -> F, predict: F -> Label)

  /** The token at position `i`, `NoWord` at every index outside the sentence. */
  function GetWord(words: seq<string>, i: int): (t: Token)
    ensures t.Word? <==> 0 <= i < |words|
    ensures t.Word? ==> t.text == words[i]
  {
    if 0 <= i < |words| then Word(words[i]) else NoWord
  }

  /** The label chosen at position `i` given the previous label. */
  function Step<F>(t: Tagger<F>, words: seq<string>, i: int, prev: Label): Label
  {
    t.predict(t.features(GetWord(words, i - 1), GetWord(words, i), GetWord(words, i + 1), prev))
  }

  /** The previous label seen at position `i`: the empty label at the start. */
  function Prev(labels: seq<Label>, i: nat): Label
    requires i <= |labels|
  {
    if i == 0 then "" else labels[i - 1]
  }

  /** The labels of the first `k` positions, each fixed before the next is chosen. */
  function Greedy<F>(t: Tagger<F>, words: seq<string>, k: nat): (labels: seq<Label>)
    requires k <= |words|
    ensures |labels| == k
  {
    if k == 0 then []
    else
      var done := Greedy(t, words, k - 1);
      done + [Step(t, words, k - 1, Prev(done, k - 1))]
  }

  /** The label sequence of a whole sentence. */
  function Decode<F>(t: Tagger<F>, words: seq<string>): (labels: seq<Label>)
    ensures |labels| == |words|
  {
    Greedy(t, words, |words|)
  }

  /**
   * The declarative description of greedy decoding: one label per token, and
   * each label is the model's choice for its own window and the label before it.
   */
  ghost predicate IsGreedyLabelling<F>(t: Tagger<F>, words: seq<string>, labels: seq<Label>)
  {
    && |labels| == |words|
    && forall i :: 0 <= i < |labels| ==> ChosenAt(t, words, labels, i)
  }

  /** The label at position `i` is the model's choice after the label at `i - 1`. */
  ghost predicate ChosenAt<F>(t: Tagger<F>, words: seq<string>, labels: seq<Label>, i: nat)
    requires i < |labels|
  {
    labels[i] == Step(t, words, i, Prev(labels, i))
  }

  /** Every prefix computed by `Greedy` obeys the chaining rule. */
  lemma {:induction false} GreedyChained<F>(t: Tagger<F>, words: seq<string>, k: nat)
    requires k <= |words|
    ensures forall i :: 0 <= i < k ==> Greedy(t, words, k)[i] == Step(t, words, i, Prev(Greedy(t, words, k), i))
  {
    if k > 0 {
      GreedyChained(t, words, k - 1);
      var done := Greedy(t, words, k - 1);
      var all := Greedy(t, words, k);
      assert all == done + [Step(t, words, k - 1, Prev(done, k - 1))];
      forall i | 0 <= i < k
        ensures all[i] == Step(t, words, i, Prev(all, i))
      {
        if i < k - 1 {
          assert all[i] == done[i];
          assert Prev(all, i) == Prev(done, i);
        } else {
          assert Prev(all, i) == Prev(done, i);
        }
      }
    }
  }

  /** A labelling that obeys the chaining rule agrees with `Greedy` on every prefix. */
  lemma {:induction false} ChainedIsGreedy<F>(t: Tagger<F>, words: seq<string>, labels: seq<Label>, k: nat)
    requires IsGreedyLabelling(t, words, labels)
    requires k <= |words|
    ensures labels[..k] == Greedy(t, words, k)
  {
    if k > 0 {
      ChainedIsGreedy(t, words, labels, k - 1);
      var done := Greedy(t, words, k - 1);
      var p := Prev(labels, k - 1);
      assert p == Prev(done, k - 1) by {
        if k > 1 { assert labels[..k - 1][k - 2] == labels[k - 2]; }
      }
      assert ChosenAt(t, words, labels, k - 1);
      assert labels[..k] == done + [labels[k - 1]];
    }
  }

  /** `Decode` is exactly the greedy labelling: it obeys the rule, and nothing else does. */
  lemma DecodeCharacterised<F>(t: Tagger<F>, words: seq<string>, labels: seq<Label>)
    ensures IsGreedyLabelling(t, words, labels) <==> labels == Decode(t, words)
  {
    GreedyChained(t, words, |words|);
    if IsGreedyLabelling(t, words, labels) {
      ChainedIsGreedy(t, words, labels, |words|);
      assert labels[..|words|] == labels;
    }
  }

  /** One label per token; the empty sentence yields no labels; the first label sees the empty previous label. */
  lemma DecodeShape<F>(t: Tagger<F>, words: seq<string>)
    ensures |Decode(t, words)| == |words|
    ensures words == [] ==> Decode(t, words) == []
    ensures |words| > 0 ==> Decode(t, words)[0] == Step(t, words, 0, "")
    ensures forall i :: 0 < i < |words| ==> Decode(t, words)[i] == Step(t, words, i, Decode(t, words)[i - 1])
  {
    GreedyChained(t, words, |words|);
  }

  /** Earlier labels are never revised: a shorter run is a prefix of a longer one. */
  lemma {:induction false} GreedyPrefix<F>(t: Tagger<F>, words: seq<string>, j: nat, k: nat)
    requires j <= k <= |words|
    ensures Greedy(t, words, j) == Greedy(t, words, k)[..j]
  {
    if j < k {
      GreedyPrefix(t, words, j, k - 1);
      var done := Greedy(t, words, k - 1);
      assert Greedy(t, words, k)[..k - 1] == done;
      assert Greedy(t, words, k)[..j] == done[..j];
    }
  }

  /**
   * No lookahead beyond one token: the first `k` labels depend only on the
   * tokens at positions up to `k` (position `k` is the right context of the last one).
   */
  lemma {:induction false} GreedyLocal<F>(t: Tagger<F>, w1: seq<string>, w2: seq<string>, k: nat)
    requires k <= |w1| && k <= |w2|
    requires forall j :: 0 <= j <= k ==> GetWord(w1, j) == GetWord(w2, j)
    ensures Greedy(t, w1, k) == Greedy(t, w2, k)
  {
    if k > 0 {
      GreedyLocal(t, w1, w2, k - 1);
      var i := k - 1;
      assert GetWord(w1, i - 1) == GetWord(w2, i - 1) by {
        if i > 0 { assert GetWord(w1, i - 1) == GetWord(w2, i - 1); }
      }
      assert GetWord(w1, i) == GetWord(w2, i);
      assert GetWord(w1, i + 1) == GetWord(w2, i + 1);
    }
  }

  /** At both ends of the sentence the missing neighbour is the boundary sentinel, never a word. */
  lemma DecodeBoundaries<F>(t: Tagger<F>, words: seq<string>)
    requires |words| > 0
    ensures Decode(t, words)[0] == t.predict(t.features(NoWord, Word(words[0]), GetWord(words, 1), ""))
    ensures var n := |words|;
      Decode(t, words)[n - 1]
      == t.predict(t.features(GetWord(words, n - 2), Word(words[n - 1]), NoWord, Prev(Decode(t, words), n - 1)))
  {
    GreedyChained(t, words, |words|);
  }
}
