/**
 * The map stage: one input line in, one record out, keyed by the line itself
 * and valued by the rendered greedy labelling of its tokens.  Tokenisation is
 * the unseen `Sentence` constructor, passed in as `tokenize`.
 */
module Worker {
  import opened Decoder
  import opened Rendering
  import opened Options

  /** An emitted (key, value) pair. */
  datatype Record = Record(key: string, value: string)

  /** The record the mapper emits for `line`. */
  function Emit<F>(t: Tagger<F>, tokenize: string -> seq<string>, line: string): (rec: Record)
    ensures rec.key == line
    ensures |rec.value| >= |Marker| && rec.value[..|Marker|] == Marker
  {
    Record(line, Render(Decode(t, tokenize(line))))
  }

  /**
   * The mapper's body: a loop over the token positions that reassigns the
   * previous label and appends to the output buffer.
   */
  method Map<F>(t: Tagger<F>, tokenize: string -> seq<string>, line: string) returns (rec: Record)
    ensures rec.key == line
    ensures rec.value == Render(Decode(t, tokenize(line)))
    ensures rec == Emit(t, tokenize, line)
  {
    var out := "|||\t";
    var sentence := tokenize(line);
    var predLabel := "";
    for i := 0 to |sentence|
      invariant out == Marker + Join(Greedy(t, sentence, i))
      invariant predLabel == Prev(Greedy(t, sentence, i), i)
    {
      ghost var done := Greedy(t, sentence, i);
      predLabel := t.predict(t.features(GetWord(sentence, i - 1), GetWord(sentence, i), GetWord(sentence, i + 1), predLabel));
      if i != 0 {
        out := out + " ";
      }
      out := out + predLabel;
      assert Greedy(t, sentence, i + 1) == done + [predLabel];
      JoinSnoc(done, predLabel);
    }
    rec := Record(line, out);
  }

  /** The records of a partition, one per line and in line order. */
  function MapAll<F>(t: Tagger<F>, tokenize: string -> seq<string>, lines: seq<string>): (records: seq<Record>)
    ensures |records| == |lines|
    ensures forall i :: 0 <= i < |lines| ==> records[i] == Emit(t, tokenize, lines[i])
  {
    if lines == [] then [] else MapAll(t, tokenize, lines[..|lines| - 1]) + [Emit(t, tokenize, lines[|lines| - 1])]
  }

  /** The emitted value always reads back as the decoded labels when those are plain. */
  lemma EmitReadsBack<F>(t: Tagger<F>, tokenize: string -> seq<string>, line: string)
    requires PlainLabels(Decode(t, tokenize(line)))
    ensures Emit(t, tokenize, line).key == line
    ensures ParseValue(Emit(t, tokenize, line).value) == Some(Decode(t, tokenize(line)))
    ensures |Decode(t, tokenize(line))| == |tokenize(line)|
  {
    RenderRoundTrip(Decode(t, tokenize(line)));
  }
}
