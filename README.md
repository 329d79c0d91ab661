# Predict: greedy sequence-labelling inference, modelled in Dafny

This project models the inference job of HadoopPerceptron's `Predict`, which
labels every token of every input line. What is modelled:

- **The mapper** (`Map.map`). It reads a line, splits it into tokens and
  labels them from left to right. Each label is the linear model's choice
  for a window of features: the previous word, the current word, the next
  word and the label just chosen. The first token sees the empty label as
  the previous one. Each label goes into a buffer that starts with `|||`
  and a tab: the first label goes in as it is, and every later one after a
  single space. The mapper emits one record per line: the line itself as
  key, the buffer as value.
- **The reducer** (`Reduce.reduce`). The job installs it both as combiner
  and as reducer. For each key it emits the key unchanged with the first
  value it is given.
- **The driver** (`run`). It applies the map and reduce task-count hints only
  when they are positive (an unset key reads as -1). It then loads the model
  parameters. It returns 1 without submitting the job when the load returns
  1. Otherwise it submits the job and returns 0.

Three collaborators are not part of this model: feature extraction
(`Features.getFeatures`), the model's argmax (`LinearModel.predict`) and
tokenisation (`Sentence`). The first two are the two function fields of
`Decoder.Tagger`. Tokenisation is the `tokenize` parameter. As Dafny
functions, all three are total and deterministic; nothing else is assumed
about them. `Sentence.getWord` is the total `Decoder.GetWord`, which returns
`NoWord` at index -1 and at the sentence length. In the model `NoWord` is a
constructor distinct from every `Word(text)`. The code of `Sentence.getWord`
is not part of this model, so whether the Java sentinel can equal a real
token is not established here. The parameter load and the job's execution
enter the driver only as results: the `load` function, applied to the
parameters folder, and the `jobSucceeds` flag.

Files: `options.dfy` (an `Option` type), `rendering.dfy` (the output value
and its inverse), `decoder.dfy` (greedy decoding and its declarative
characterisation), `worker.dfy` (module `Worker`: the mapper, class
`Predict.Map`), `merger.dfy` (module `Merger`: the reducer, class
`Predict.Reduce`, with per-key merging and the end-to-end lemma),
`driver.dfy` (module `Driver`: the method `Predict.run`). `Split` and
`ParseValue` in `rendering.dfy` read a rendered value back. The Java never
does this; they are the inverse against which `Render` is proved.

Three behaviours of the code the model keeps:

- The code emits a record for every line, the empty line included.
- The driver does not check that the folders are set: the command line
  parser requires them.
- A failed job is not a non-zero return value: `JobClient.runJob` throws, and
  the exception leaves `run`. This is `Driver.Status.JobFailed`.

## Model

| member | source | states |
|---|---|---|
| `Worker.Map` | src/Predict.java:81-103 | the loop builds a record whose key is the input line unchanged and whose value is `"|||\t"` followed by the greedy labels of the line's tokens joined by single spaces (loop invariants: buffer is marker plus labels so far, previous label is the last one chosen or `""`) |
| `Worker.Emit` | src/Predict.java:81-102 | the record for a line has the line itself as key and a value starting with `"|||\t"` |
| `Worker.MapAll` | src/Predict.java:81-102 | a partition yields exactly one record per input line, in order, each equal to the mapper's record for that line |
| `Worker.EmitReadsBack` | src/Predict.java:85-102 | the emitted record's key is the line; when the labels are non-empty and space-free, its value reads back as exactly the decoded labels, one per token |
| `Decoder.GetWord` | src/Predict.java:93-95 | word access is total: a `Word` exactly at positions inside the sentence, carrying the token there, and the boundary sentinel everywhere else |
| `Decoder.Step` | src/Predict.java:93-95 | the label at position i is `predict` of the features of the words at i-1, i, i+1 and the previous label |
| `Decoder.Prev` | src/Predict.java:89-95 | the previous label is `""` at position 0 and the label chosen at i-1 afterwards |
| `Decoder.Decode` | src/Predict.java:89-95 | the decoder yields exactly one label per token |
| `Decoder.Greedy` | src/Predict.java:91-95 | running the loop for k positions produces exactly k labels |
| `Decoder.DecodeCharacterised` | src/Predict.java:89-95 | a label sequence is the decoder's output if and only if it has one label per token and each label is the model's choice for its window after the label before it |
| `Decoder.DecodeShape` | src/Predict.java:89-95 | the label count equals the sentence length, an empty sentence gives no labels, the first label is chosen with previous label `""`, and each later label with the label at the position before |
| `Decoder.GreedyPrefix` | src/Predict.java:91-95 | labels are fixed left to right and never revised: the labels of a shorter run are a prefix of those of a longer run |
| `Decoder.GreedyLocal` | src/Predict.java:93-95 | no lookahead beyond the next word: two sentences that agree on positions 0..k get the same first k labels |
| `Decoder.DecodeBoundaries` | src/Predict.java:93-95 | at position 0 the left context and at the last position the right context are the boundary sentinel, not a word |
| `Rendering.Join` | src/Predict.java:97-98 | the labels in order, a single space before every label but the first |
| `Rendering.Render` | src/Predict.java:85-98 | the emitted value always starts with the marker `"|||\t"` |
| `Rendering.JoinSnoc` | src/Predict.java:97-98 | appending a label appends a single space (except before the first label) and then the label |
| `Rendering.RenderShape` | src/Predict.java:85-86 | every value starts with `"|||\t"`; an empty sentence renders as exactly `"|||\t"` |
| `Rendering.JoinSpaceCount` | src/Predict.java:91-98 | n space-free labels are separated by exactly n - 1 spaces |
| `Rendering.SplitJoin` | src/Predict.java:97-98 | splitting the joined labels at spaces gives back the labels, for a non-empty sequence of space-free labels |
| `Rendering.RenderRoundTrip` | src/Predict.java:85-98 | reading a rendered value back gives the labels exactly, for non-empty space-free labels, the empty sequence included |
| `Merger.Reduce` | src/Predict.java:108-112 | the reducer emits one record: the key unchanged and the first of its values |
| `Merger.ValuesOf` | src/Predict.java:108-111 | a reduce call for a key gets a non-empty list of values exactly when some record carries that key |
| `Merger.Merge` | src/Predict.java:108-111 | the merged output has exactly one entry per key that occurs, and no other |
| `Merger.FirstValue` | src/Predict.java:108-111 | the value kept for a key is that of the first record carrying the key |
| `Merger.MergeKeepsFirst` | src/Predict.java:108-111 | keep-first: the first record of a key survives, and a later record of the same key with a different value is dropped |
| `Merger.ValuesOfAgree` | src/Predict.java:108-111 | when every record of a key has value v, every value handed to the reducer for that key is v |
| `Merger.MergeAgreeing` | src/Predict.java:108-111 | when all records of a key agree on a value, the merge keeps that value, whichever comes first |
| `Merger.Kept` | src/Predict.java:108-111 | run as the combiner on a sequence of non-empty chunks, the reducer keeps exactly one value per chunk, that chunk's first |
| `Merger.CombineThenReduce` | src/Predict.java:123-124 | using the reducer as a combiner changes nothing: for any number of non-empty chunks of a key's values, reducing the values the combiner kept equals reducing all the values at once, and reducing the reducer's output again gives the same record |
| `Merger.PipelineOutput` | src/Predict.java:81-112 | end to end, when every map task uses the same loaded model and the collaborators are deterministic: every input line, duplicated or not, appears in the output with exactly the rendered decoding of its tokens, so dropping duplicates loses no prediction |
| `Driver.GetInt` | src/Predict.java:132-136 | a configuration integer is its set value, or the default (-1 here) when unset |
| `Driver.ApplyHint` | src/Predict.java:132-139 | a positive hint replaces the task count; zero or negative leaves it unchanged |
| `Driver.Run` | src/Predict.java:132-145 | the job is submitted if and only if the load result is not 1; an unsubmitted run returns 1; the run returns 0 exactly when the job was submitted and succeeded, fails exactly when submitted and the job failed; task counts follow the hints (unset reads as -1) |
| `Driver.HintsAppliedOnlyWhenPositive` | src/Predict.java:132-139 | an unset or non-positive hint leaves the default task count, and a positive one sets it to the hint |
| `Driver.HintsIndependentOfLoad` | src/Predict.java:132-141 | the hints are applied before the load, so the task counts do not depend on the load result or on the job's outcome |

## Left out

- Hadoop plumbing is not modelled. This covers the `JobConf` setup, the input and output formats and paths, `OutputCollector`, `Reporter` and `JobClient.runJob`. The job's execution enters only as the `jobSucceeds` flag.
- `Map.configure` and `LinearModel.readWeights` (weights loaded once per worker) are left out. They do file I/O in code that is not part of this model.
- `DistributedCacheUtils.loadParametersFolder` is left out for the same reason. Only its return value is modelled.
- The internals of `LinearModel.predict` are left out: floating-point weights and an argmax. They are an uninterpreted function of the features. So the claim that greedy decoding is not globally optimal cannot be stated.
- The internals of `Features.getFeatures` and of `Sentence` tokenisation are left out; they are abstract functions.
- `Configuration.getInt` parsing a text value is left out. A hint is modelled as an optional integer that is already parsed, so a malformed value's exception is not modelled.
- `main` and `initOptions` are left out: command line parsing, usage text and `System.exit`.
- MapReduce parallelism, partitioning, shuffling, sorting, retries and when the combiner runs are left out. `Merger.Merge` hands each key's values to the reducer in arrival order. Hadoop does not guarantee that order, and `Merger.MergeAgreeing` covers every order.
- `Worker.MapAll` and `Merger.PipelineOutput` give every line the same `Tagger`. This assumes that every map task loads identical weights in `Map.configure`, and that `predict` and `getFeatures` are deterministic. Weights that differ between tasks, or a non-deterministic collaborator, could give duplicate lines different values; `Merger.MergeKeepsFirst` then says which one survives.
- Exceptions from the collaborators are not modelled. `tokenize`, `features` and `predict` are total functions, so a line on which `Sentence` or `predict` throws, and which then emits nothing, is not represented.
- Whether the boundary value of `Sentence.getWord` is distinct from every real token is not established: `Sentence` is not part of this model, and `Decoder.Token` makes the two distinct by construction.
- The combiner running again on its own earlier output (nested spills) is not modelled; `Merger.CombineThenReduce` covers one round of combining over any number of chunks.
- Java strings are UTF-16 `String`s and are modelled as Dafny `string`; nothing depends on the encoding.
