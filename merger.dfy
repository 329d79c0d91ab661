/**
 * The reduce stage, also installed as the combiner: one record per key, the
 * first value handed over for that key, every later value dropped.  `Merge`
 * applies it to every key of a sequence of records, the values of a key taken
 * in the order the records arrive.
 */
module Merger {
  import opened Decoder
  import opened Worker

  /** The reducer: the key unchanged and the first of its values. */
  function Reduce(key: string, values: seq<string>): (r: Record)
    requires |values| > 0
    ensures r.key == key
    ensures r.value == values[0]
  {
    Record(key, values[0])
  }

  /** The keys that occur among `records`. */
  function Keys(records: seq<Record>): set<string>
  {
    set r | r in records :: r.key
  }

  /** The values emitted under `key`, in arrival order: what one reduce call is given. */
  function ValuesOf(records: seq<Record>, key: string): (vs: seq<string>)
    ensures |vs| > 0 <==> key in Keys(records)
  {
    if records == [] then []
    else
      assert Keys(records) == {records[0].key} + Keys(records[1..]) by {
        assert records == [records[0]] + records[1..];
      }
      (if records[0].key == key then [records[0].value] else []) + ValuesOf(records[1..], key)
  }

  /** The merged output: one value per key, chosen by `Reduce`. */
  function Merge(records: seq<Record>): (out: map<string, string>)
    ensures out.Keys == Keys(records)
  {
    map k | k in Keys(records) :: Reduce(k, ValuesOf(records, k)).value
  }

  /** The value kept for a key is the one of the first record carrying that key. */
  lemma {:induction false} FirstValue(records: seq<Record>, i: nat)
    requires i < |records|
    requires forall j :: 0 <= j < i ==> records[j].key != records[i].key
    ensures ValuesOf(records, records[i].key)[0] == records[i].value
  {
    if i > 0 {
      var key := records[i].key;
      assert records[1..][i - 1] == records[i];
      FirstValue(records[1..], i - 1);
      assert records[0].key != key;
    }
  }

  /** Keep-first: the first record of each key survives the merge, later ones with that key are dropped. */
  lemma MergeKeepsFirst(records: seq<Record>, i: nat)
    requires i < |records|
    requires forall j :: 0 <= j < i ==> records[j].key != records[i].key
    ensures records[i].key in Merge(records)
    ensures Merge(records)[records[i].key] == records[i].value
    ensures forall j :: i < j < |records| && records[j].key == records[i].key && records[j].value != records[i].value ==>
              Merge(records)[records[j].key] != records[j].value
  {
    assert records[i] in records;
    FirstValue(records, i);
  }

  /** Every value listed under `key` is the value of some record with that key. */
  lemma {:induction false} ValuesOfAgree(records: seq<Record>, key: string, v: string)
    requires forall i :: 0 <= i < |records| && records[i].key == key ==> records[i].value == v
    ensures forall x :: x in ValuesOf(records, key) ==> x == v
  {
    if records != [] {
      ValuesOfAgree(records[1..], key, v);
    }
  }

  /** When all records of a key carry the same value, the merge keeps that value whatever the order. */
  lemma MergeAgreeing(records: seq<Record>, key: string, v: string)
    requires key in Keys(records)
    requires forall i :: 0 <= i < |records| && records[i].key == key ==> records[i].value == v
    ensures Merge(records)[key] == v
  {
    ValuesOfAgree(records, key, v);
    assert ValuesOf(records, key)[0] in ValuesOf(records, key);
  }

  /** All values of a sequence of chunks, in order. */
  function Flatten(chunks: seq<seq<string>>): seq<string>
  {
    if chunks == [] then [] else chunks[0] + Flatten(chunks[1..])
  }

  /** The values the combiner keeps, one per chunk it was run on. */
  function Kept(key: string, chunks: seq<seq<string>>): (kept: seq<string>)
    requires forall i :: 0 <= i < |chunks| ==> |chunks[i]| > 0
    ensures |kept| == |chunks|
    ensures forall i :: 0 <= i < |chunks| ==> kept[i] == chunks[i][0]
  {
    if chunks == [] then [] else [Reduce(key, chunks[0]).value] + Kept(key, chunks[1..])
  }

  /**
   * The combiner may run on any number of non-empty chunks of a key's values;
   * reducing what it kept gives the same record as reducing all values at once,
   * and running the reducer again on its own output changes nothing.
   */
  lemma CombineThenReduce(key: string, chunks: seq<seq<string>>)
    requires |chunks| > 0
    requires forall i :: 0 <= i < |chunks| ==> |chunks[i]| > 0
    ensures |Flatten(chunks)| > 0
    ensures Reduce(key, Kept(key, chunks)) == Reduce(key, Flatten(chunks))
    ensures Reduce(key, [Reduce(key, Flatten(chunks)).value]) == Reduce(key, Flatten(chunks))
  {
    assert Flatten(chunks) == chunks[0] + Flatten(chunks[1..]);
  }

  /**
   * End to end: for every input line, the merged output holds exactly the
   * rendered decoding of that line, duplicated lines included, because the
   * mapper gives equal lines equal values.
   */
  lemma PipelineOutput<F>(t: Tagger<F>, tokenize: string -> seq<string>, lines: seq<string>, i: nat)
    requires i < |lines|
    ensures lines[i] in Merge(MapAll(t, tokenize, lines))
    ensures Merge(MapAll(t, tokenize, lines))[lines[i]] == Emit(t, tokenize, lines[i]).value
  {
    var records := MapAll(t, tokenize, lines);
    assert records[i] in records;
    assert lines[i] in Keys(records);
    MergeAgreeing(records, lines[i], Emit(t, tokenize, lines[i]).value);
  }
}
