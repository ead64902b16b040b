/** The corpus writer: the labeled holds of a source recording, laid out with silence between them. */
module StringCorpus {
  import opened Results

  datatype Label = Label(start: nat, end: nat, stringMask: nat)

  /** What the label reader admits. */
  predicate Readable(labels: seq<Label>) {
    forall k :: 0 <= k < |labels| ==> labels[k].start < labels[k].end
  }

  datatype Refusal =
    | BadStringIndex | LabelExceedsSource | MaskMismatch | NegativeSilence | WaveTooLarge | NoPitch | Incomplete

  const MAX_DATA := 0xFFFFFFFF - 36

  function Length(l: Label): nat {
    if l.start < l.end then l.end - l.start else 0
  }

  function Silence(frames: nat): seq<real> {
    seq(frames, i => 0.0)
  }

  /** The samples of all holds and of a silence around each of them. */
  function Declared(labels: seq<Label>, silence: nat): nat {
    if labels == [] then silence
    else Declared(labels[..|labels| - 1], silence) + Length(labels[|labels| - 1]) + silence
  }

  /** The slice that Python takes, cut off at the end of the source. */
  function Segment(source: seq<real>, l: Label): (s: seq<real>)
    ensures |s| <= Length(l) && (l.start < l.end ==> (|s| == Length(l) <==> l.end <= |source|))
  {
    if l.start >= |source| || l.start >= l.end then []
    else source[l.start..if l.end <= |source| then l.end else |source|]
  }

  /** The samples written so far; never more than declared. */
  class FloatWaveWriter {
    const sampleCount: nat
    var written: nat
    var data: seq<real>

    predicate Valid()
      reads this
    {
      written == |data| <= sampleCount
    }

    constructor (sampleCount: nat)
      requires sampleCount * 4 <= MAX_DATA
      ensures Valid() && data == [] && this.sampleCount == sampleCount
    {
      this.sampleCount, written, data := sampleCount, 0, [];
    }

    method Write(samples: seq<real>) returns (ok: bool)
      requires Valid()
      modifies this
      ensures Valid() && ok == (|old(data)| + |samples| <= sampleCount)
      ensures data == if ok then old(data) + samples else old(data)
    {
      ok := written + |samples| <= sampleCount;
      if ok {
        data := data + samples;
        written := written + |samples|;
      }
    }

    method Close() returns (ok: bool)
      requires Valid()
      ensures ok == (|data| == sampleCount)
    {
      ok := written == sampleCount;
    }
  }

  function LastEnd(out: seq<Label>): nat {
    if out == [] then 0 else out[|out| - 1].end
  }

  /** Where one hold ends up behind the earlier ones. */
  predicate PlacedBehind(out: seq<Label>, source: seq<real>, l: Label, silence: nat, placed: Label) {
    && placed.start == silence + LastEnd(out)
    && placed.end == placed.start + |Segment(source, l)|
    && placed.stringMask == l.stringMask
  }

  /** Where the holds end up: silence before the first, and between each and the next. */
  predicate Placed(out: seq<Label>, source: seq<real>, labels: seq<Label>, silence: nat)
    decreases |out|
  {
    && |out| == |labels|
    && (out == []
        || (var last := |out| - 1;
            && Placed(out[..last], source, labels[..last], silence)
            && PlacedBehind(out[..last], source, labels[last], silence, out[last])))
  }

  /** The sample lies in some label. */
  predicate Covered(labels: seq<Label>, i: nat) {
    exists k :: 0 <= k < |labels| && labels[k].start <= i < labels[k].end
  }

  /** The data inside the labels are the source's, and zero everywhere else. */
  predicate Filled(data: seq<real>, out: seq<Label>, source: seq<real>, labels: seq<Label>) {
    && |out| == |labels|
    && (forall k :: 0 <= k < |out| ==>
          out[k].start <= out[k].end <= |data| && data[out[k].start..out[k].end] == Segment(source, labels[k]))
    && (forall i :: 0 <= i < |data| && !Covered(out, i) ==> data[i] == 0.0)
  }

  lemma PlacedNext(out: seq<Label>, source: seq<real>, labels: seq<Label>, silence: nat, l: Label, placed: Label)
    requires Placed(out, source, labels, silence) && PlacedBehind(out, source, l, silence, placed)
    ensures Placed(out + [placed], source, labels + [l], silence)
  {
    assert (out + [placed])[..|out|] == out && (labels + [l])[..|out|] == labels;
  }

  lemma {:induction false} PlacedAt(
    out: seq<Label>, source: seq<real>, labels: seq<Label>, silence: nat, k: nat)
    requires Placed(out, source, labels, silence) && k < |out|
    ensures out[k].start == silence + if k == 0 then 0 else out[k - 1].end
    ensures out[k].end == out[k].start + |Segment(source, labels[k])| && out[k].stringMask == labels[k].stringMask
    decreases |out|
  {
    if k < |out| - 1 {
      PlacedAt(out[..|out| - 1], source, labels[..|out| - 1], silence, k);
    }
  }

  /** The labels are ordered and disjoint, exactly the silence apart. */
  lemma {:induction false} LabelsAreDisjoint(
    out: seq<Label>, source: seq<real>, labels: seq<Label>, silence: nat, i: nat, k: nat)
    requires Placed(out, source, labels, silence) && i < k < |out|
    ensures out[i].start <= out[i].end && out[i].end + silence <= out[k].start
    ensures k == i + 1 ==> out[i].end + silence == out[k].start
    decreases k
  {
    hide Placed, Segment;
    PlacedAt(out, source, labels, silence, k);
    PlacedAt(out, source, labels, silence, k - 1);
    if i < k - 1 {
      LabelsAreDisjoint(out, source, labels, silence, i, k - 1);
    }
  }

  /** The first holds written, with the silence behind the last. */
  predicate LaidOut(data: seq<real>, out: seq<Label>, source: seq<real>, labels: seq<Label>, silence: nat) {
    Placed(out, source, labels, silence) && Filled(data, out, source, labels) && |data| == silence + LastEnd(out)
  }

  lemma {:induction false} CoveredNext(out: seq<Label>, placed: Label, i: nat)
    ensures Covered(out + [placed], i) <==> Covered(out, i) || placed.start <= i < placed.end
  {
    var all := out + [placed];
    if Covered(out, i) {
      var k :| 0 <= k < |out| && out[k].start <= i < out[k].end;
      assert all[k] == out[k];
    } else if placed.start <= i < placed.end {
      assert all[|out|] == placed;
    }
  }

  lemma FilledNext(
    data: seq<real>, out: seq<Label>, source: seq<real>, labels: seq<Label>, silence: nat, l: Label, placed: Label)
    requires Filled(data, out, source, labels)
    requires placed.start == |data| && placed.end == |data| + |Segment(source, l)|
    ensures Filled(data + Segment(source, l) + Silence(silence), out + [placed], source, labels + [l])
  {
    var segment := Segment(source, l);
    var all, after := out + [placed], data + segment + Silence(silence);
    forall k | 0 <= k < |all|
      ensures all[k].start <= all[k].end <= |after|
      ensures after[all[k].start..all[k].end] == Segment(source, (labels + [l])[k])
    {
      if k < |out| {
        assert after[all[k].start..all[k].end] == data[out[k].start..out[k].end];
      }
    }
    forall i | 0 <= i < |after| && !Covered(all, i)
      ensures after[i] == 0.0
    {
      CoveredNext(out, placed, i);
    }
  }

  // ---------------------------------------------------------------- the generator

  /** What the generator accepts. */
  ghost predicate Acceptable(
    source: seq<real>, labels: seq<Label>, stringIndex: int, silence: int, hasPitch: seq<real> -> bool)
  {
    && 0 <= stringIndex < 8 && labels != [] && silence >= 0
    && Declared(labels, silence) * 4 <= MAX_DATA
    && AllInside(source, labels) && AllPitched(source, labels, hasPitch)
    && forall k :: 0 <= k < |labels| ==> labels[k].stringMask == Power(stringIndex)
  }

  /** `1 << n`. */
  function Power(n: nat): nat {
    if n == 0 then 1 else 2 * Power(n - 1)
  }

  /** No hold reaches beyond the source. */
  predicate AllInside(source: seq<real>, labels: seq<Label>) {
    forall k :: 0 <= k < |labels| ==> labels[k].end <= |source|
  }

  lemma {:induction false} DeclaredIsReached(out: seq<Label>, source: seq<real>, labels: seq<Label>, silence: nat)
    requires Placed(out, source, labels, silence) && Readable(labels)
    ensures silence + LastEnd(out) <= Declared(labels, silence)
    ensures |out| == |labels|
    ensures silence + LastEnd(out) == Declared(labels, silence) <==> AllInside(source, labels)
    decreases |labels|
  {
    hide Segment;
    if labels != [] {
      var last := |labels| - 1;
      var init := labels[..last];
      DeclaredIsReached(out[..last], source, init, silence);
      assert AllInside(source, labels) <==> AllInside(source, init) && labels[last].end <= |source| by {
        assert labels == init + [labels[last]];
      }
    }
  }

  lemma {:induction false} DeclaredGrows(labels: seq<Label>, k: nat, silence: nat)
    requires k <= |labels|
    ensures Declared(labels[..k], silence) <= Declared(labels, silence)
    decreases |labels|
  {
    if k == |labels| {
      assert labels[..k] == labels;
    } else {
      var last := |labels| - 1;
      DeclaredGrows(labels[..last], k, silence);
      assert labels[..last][..k] == labels[..k];
    }
  }

  /** Every hold lies in the corpus sample for sample, in its whole length and under its own string. */
  lemma CorpusIsTheSource(
    data: seq<real>, out: seq<Label>, source: seq<real>, labels: seq<Label>, silence: nat, k: nat)
    requires LaidOut(data, out, source, labels, silence) && Readable(labels) && AllInside(source, labels)
    requires k < |labels|
    ensures |out| == |labels| && out[k].end - out[k].start == labels[k].end - labels[k].start
    ensures out[k].start <= out[k].end <= |data| && out[k].stringMask == labels[k].stringMask
    ensures data[out[k].start..out[k].end] == source[labels[k].start..labels[k].end]
  {
    hide Placed;
    PlacedAt(out, source, labels, silence, k);
  }

  /** `generate_string_corpus`; the labels are those that `read_labels` admits, at least one. */
  method GenerateStringCorpus(
    source: seq<real>, labels: seq<Label>, stringIndex: int, silence: int, hasPitch: seq<real> -> bool)
    returns (r: Result<(seq<real>, seq<Label>), Refusal>)
    requires labels != [] && Readable(labels)
    ensures r.Ok? <==> Acceptable(source, labels, stringIndex, silence, hasPitch)
    ensures r.Ok? ==>
      LaidOut(r.value.0, r.value.1, source, labels, silence) && |r.value.0| == Declared(labels, silence)
  {
    if stringIndex < 0 || stringIndex >= 8 {
      return Err(BadStringIndex);
    }
    if labels[|labels| - 1].end > |source| {
      return Err(LabelExceedsSource);
    }
    for k := 0 to |labels|
      invariant forall j :: 0 <= j < k ==> labels[j].stringMask == Power(stringIndex)
    {
      if labels[k].stringMask != Power(stringIndex) {
        return Err(MaskMismatch);
      }
    }
    if silence < 0 {
      return Err(NegativeSilence);
    }
    if Declared(labels, silence) * 4 > MAX_DATA {
      return Err(WaveTooLarge);
    }
    r := WriteCorpus(source, labels, silence, hasPitch);
  }

  method WriteCorpus(source: seq<real>, labels: seq<Label>, silence: nat, hasPitch: seq<real> -> bool)
    returns (r: Result<(seq<real>, seq<Label>), Refusal>)
    requires labels != [] && Readable(labels) && Declared(labels, silence) * 4 <= MAX_DATA
    ensures r.Ok? <==> AllInside(source, labels) && AllPitched(source, labels, hasPitch)
    ensures r.Ok? ==>
      LaidOut(r.value.0, r.value.1, source, labels, silence) && |r.value.0| == Declared(labels, silence)
  {
    var writer := new FloatWaveWriter(Declared(labels, silence));
    StartIsPlaced(source, labels, silence);
    var _ := writer.Write(Silence(silence));
    assert writer.data == Silence(silence) && labels[..0] == [];
    assert LaidOut(writer.data, [], source, labels[..0], silence) && AllPitched(source, labels[..0], hasPitch);
    hide Declared, LaidOut, Segment, AllInside, Readable, Silence;
    var out: seq<Label>, cursor, pitched, k := [], silence, true, 0;
    while k < |labels| && pitched
      invariant 0 <= k <= |labels| && writer.Valid() && fresh(writer)
      invariant writer.sampleCount == Declared(labels, silence)
      invariant pitched ==> cursor == |writer.data| && LaidOut(writer.data, out, source, labels[..k], silence)
      invariant pitched == AllPitched(source, labels[..k], hasPitch)
    {
      FirstLabels(source, labels, k, silence, hasPitch);
      pitched, out, cursor := WriteHold(writer, source, labels[k], labels[..k], out, cursor, silence, hasPitch);
      k := k + 1;
    }
    if !pitched {
      SomeUnpitched(source, labels, k, hasPitch);
      return Err(NoPitch);
    }
    assert labels[..k] == labels;
    LaidOutIsDeclared(writer.data, out, source, labels, silence);
    var closed := writer.Close();
    r := if closed then Ok((writer.data, out)) else Err(Incomplete);
  }

  predicate AllPitched(source: seq<real>, labels: seq<Label>, hasPitch: seq<real> -> bool) {
    forall k :: 0 <= k < |labels| ==> hasPitch(Segment(source, labels[k]))
  }

  lemma SomeUnpitched(source: seq<real>, labels: seq<Label>, k: nat, hasPitch: seq<real> -> bool)
    requires k <= |labels| && !AllPitched(source, labels[..k], hasPitch)
    ensures !AllPitched(source, labels, hasPitch)
  {
    assert forall j :: 0 <= j < k ==> labels[..k][j] == labels[j];
  }

  lemma LaidOutIsDeclared(data: seq<real>, out: seq<Label>, source: seq<real>, labels: seq<Label>, silence: nat)
    requires LaidOut(data, out, source, labels, silence) && Readable(labels)
    ensures |data| == Declared(labels, silence) <==> AllInside(source, labels)
  {
    DeclaredIsReached(out, source, labels, silence);
  }

  lemma StartIsPlaced(source: seq<real>, labels: seq<Label>, silence: nat)
    ensures silence <= Declared(labels, silence)
    ensures LaidOut(Silence(silence), [], source, [], silence)
  {
    DeclaredGrows(labels, 0, silence);
    assert labels[..0] == [];
  }

  lemma FirstLabels(source: seq<real>, labels: seq<Label>, k: nat, silence: nat, hasPitch: seq<real> -> bool)
    requires k < |labels| && Readable(labels)
    ensures labels[..k + 1] == labels[..k] + [labels[k]] && Readable(labels[..k + 1])
    ensures Declared(labels[..k + 1], silence) <= Declared(labels, silence)
    ensures AllPitched(source, labels[..k + 1], hasPitch) <==>
      AllPitched(source, labels[..k], hasPitch) && hasPitch(Segment(source, labels[k]))
  {
    hide Declared, Segment;
    DeclaredGrows(labels, k + 1, silence);
    var more, last := labels[..k + 1], labels[k];
    assert forall j :: 0 <= j < k ==> more[j] == labels[..k][j];
    assert more[k] == last;
  }

  /** Writes one hold and the silence behind it. */
  method WriteHold(
    writer: FloatWaveWriter, source: seq<real>, l: Label, ghost before: seq<Label>, out: seq<Label>, cursor: nat,
    silence: nat, hasPitch: seq<real> -> bool)
    returns (pitched: bool, out': seq<Label>, cursor': nat)
    requires writer.Valid() && cursor == |writer.data| && LaidOut(writer.data, out, source, before, silence)
    requires Declared(before + [l], silence) <= writer.sampleCount && Readable(before + [l])
    modifies writer
    ensures writer.Valid() && pitched == hasPitch(Segment(source, l))
    ensures pitched ==> cursor' == |writer.data| && LaidOut(writer.data, out', source, before + [l], silence)
  {
    var segment := Segment(source, l);
    pitched, out', cursor' := hasPitch(segment), out, cursor;
    if !pitched {
      return;
    }
    var placed := Label(cursor, cursor + |segment|, l.stringMask);
    out' := out + [placed];
    PlacedNext(out, source, before, silence, l, placed);
    FilledNext(writer.data, out, source, before, silence, l, placed);
    DeclaredIsReached(out', source, before + [l], silence);
    hide Declared, Placed, Filled, Segment;
    var _ := writer.Write(segment);
    cursor' := cursor' + |segment|;
    var _ := writer.Write(Silence(silence));
    cursor' := cursor' + silence;
  }
}
