/**
 * The textual form of a predicted label sequence: the marker "|||", a tab,
 * then the labels joined by single spaces, built left to right as the
 * mapper's `StringBuilder` does.  `Split` and `ParseValue` read such a value
 * back and serve as the inverse against which the rendering is checked.
 */
module Rendering {
  import opened Options

  /** The literal that every rendered value starts with. */
  const Marker: string := "|||\t"

  /** Labels joined by one space each, the last label appended last. */
  function Join(labels: seq<string>): string
  {
    if |labels| == 0 then ""
    else if |labels| == 1 then labels[0]
    else Join(labels[..|labels| - 1]) + " " + labels[|labels| - 1]
  }

  /** The value the mapper emits for a label sequence. */
  function Render(labels: seq<string>): (value: string)
    ensures |value| >= |Marker| && value[..|Marker|] == Marker
  {
    Marker + Join(labels)
  }

  /** A label that survives the round trip: non-empty and free of spaces. */
  predicate PlainLabel(tag: string)
  {
    tag != [] && ' ' !in tag
  }

  predicate PlainLabels(labels: seq<string>)
  {
    forall i :: 0 <= i < |labels| ==> PlainLabel(labels[i])
  }

  /** Appending one label extends the joined text by a space (unless it is the first) and the label. */
  lemma JoinSnoc(labels: seq<string>, tag: string)
    ensures Join(labels + [tag]) == if labels == [] then tag else Join(labels) + " " + tag
  {
    assert (labels + [tag])[..|labels|] == labels;
  }

  /** Position of the last space in `s`, or -1 when there is none. */
  function LastSpace(s: string): (k: int)
    ensures -1 <= k < |s|
    ensures k >= 0 ==> s[k] == ' '
    ensures forall j :: k < j < |s| ==> s[j] != ' '
  {
    if |s| == 0 then -1
    else if s[|s| - 1] == ' ' then |s| - 1
    else LastSpace(s[..|s| - 1])
  }

  /** Splits `s` at every space; the reading a consumer of the output applies. */
  function Split(s: string): (parts: seq<string>)
    ensures |parts| >= 1
    decreases |s|
  {
    var k := LastSpace(s);
    if k < 0 then [s] else Split(s[..k]) + [s[k + 1..]]
  }

  /** Reads a rendered value back into its labels; `None` when the marker is missing. */
  function ParseValue(value: string): (r: Option<seq<string>>)
    ensures r.Some? <==> |value| >= |Marker| && value[..|Marker|] == Marker
  {
    if |value| >= |Marker| && value[..|Marker|] == Marker then
      var rest := value[|Marker|..];
      if rest == "" then Some([]) else Some(Split(rest))
    else None
  }

  /** Every rendered value starts with the marker, and the empty sequence renders as the marker alone. */
  lemma RenderShape(labels: seq<string>)
    ensures |Render(labels)| >= |Marker| && Render(labels)[..|Marker|] == Marker
    ensures labels == [] ==> Render(labels) == Marker
  {
  }

  /** Joined labels that contain no spaces are separated by exactly |labels| - 1 spaces. */
  lemma {:induction false} JoinSpaceCount(labels: seq<string>)
    requires |labels| > 0
    requires forall i :: 0 <= i < |labels| ==> ' ' !in labels[i]
    ensures multiset(Join(labels))[' '] == |labels| - 1
  {
    var n := |labels|;
    if n == 1 {
      assert ' ' !in labels[0];
    } else {
      var init := labels[..n - 1];
      JoinSpaceCount(init);
      assert ' ' !in labels[n - 1];
      assert Join(labels) == Join(init) + " " + labels[n - 1];
      assert multiset(Join(labels)) == multiset(Join(init)) + multiset(" ") + multiset(labels[n - 1]);
    }
  }

  /** A string without spaces is not split. */
  lemma NoSpaceNoSplit(s: string)
    requires ' ' !in s
    ensures Split(s) == [s]
  {
    var k := LastSpace(s);
    assert forall j :: 0 <= j < |s| ==> s[j] != ' ';
  }

  /** `Split` undoes `Join` for non-empty sequences of space-free labels. */
  lemma {:induction false} SplitJoin(labels: seq<string>)
    requires |labels| > 0
    requires forall i :: 0 <= i < |labels| ==> ' ' !in labels[i]
    ensures Split(Join(labels)) == labels
  {
    var n := |labels|;
    if n == 1 {
      NoSpaceNoSplit(labels[0]);
    } else {
      var init, last := labels[..n - 1], labels[n - 1];
      var left := Join(init);
      var s := Join(labels);
      assert s == left + " " + last;
      var p := |left|;
      assert s[p] == ' ';
      assert ' ' !in last;
      assert forall j :: p < j < |s| ==> s[j] == last[j - p - 1] && s[j] != ' ';
      var k := LastSpace(s);
      assert k == p;
      assert s[..k] == left;
      assert s[k + 1..] == last;
      SplitJoin(init);
      assert init + [last] == labels;
    }
  }

  /** Rendering is invertible for plain labels, the empty sequence included. */
  lemma RenderRoundTrip(labels: seq<string>)
    requires PlainLabels(labels)
    ensures ParseValue(Render(labels)) == Some(labels)
  {
    var v := Render(labels);
    assert v[..|Marker|] == Marker;
    assert v[|Marker|..] == Join(labels);
    if labels != [] {
      assert forall i :: 0 <= i < |labels| ==> ' ' !in labels[i] by {
        forall i | 0 <= i < |labels| ensures ' ' !in labels[i] {
          assert PlainLabel(labels[i]);
        }
      }
      SplitJoin(labels);
      if |labels| == 1 {
        assert PlainLabel(labels[0]);
        assert Join(labels) != "";
      } else {
        JoinSnoc(labels[..|labels| - 1], labels[|labels| - 1]);
        assert labels[..|labels| - 1] + [labels[|labels| - 1]] == labels;
        assert Join(labels) != "";
      }
    }
  }
}
