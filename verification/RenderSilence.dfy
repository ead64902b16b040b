/** The silencing of a rendered wave outside its labels, in place. */
module RenderSilence {
  import opened Results
  import opened StringCorpus

  const BYTES_PER_SAMPLE := 3
  const BLOCK := 1024 * 1024

  datatype Span = Span(start: int, end: int)

  // ---------------------------------------------------------------- reading the spans

  /** A row of the label file: its fields, None where a field is not an integer; no fields for a blank line. */
  type Row = seq<Option<int>>

  predicate Fits(row: Row, columns: nat) {
    |row| == columns && columns >= 2 && row[0].Some? && row[1].Some?
  }

  function SpansOf(rows: seq<Row>, columns: nat): Option<seq<Span>> {
    if rows == [] then Some([])
    else
      var before, row := SpansOf(rows[..|rows| - 1], columns), rows[|rows| - 1];
      if before.None? then None
      else if row == [] then before
      else if !Fits(row, columns) then None
      else
        var span := Span(row[0].value, row[1].value);
        if span.start < PreviousEnd(before.value) || span.end <= span.start then None
        else Some(before.value + [span])
  }

  function PreviousEnd(spans: seq<Span>): int {
    if spans == [] then 0 else spans[|spans| - 1].end
  }

  /** Ordered, disjoint and not empty, from the first sample on. */
  predicate Ordered(spans: seq<Span>) {
    && (forall k :: 0 <= k < |spans| ==> 0 <= spans[k].start < spans[k].end)
    && forall i, k :: 0 <= i < k < |spans| ==> spans[i].end <= spans[k].start
  }

  lemma {:induction false} SpansAreOrdered(rows: seq<Row>, columns: nat)
    requires SpansOf(rows, columns).Some?
    ensures Ordered(SpansOf(rows, columns).value) && PreviousEnd(SpansOf(rows, columns).value) >= 0
    decreases |rows|
  {
    if rows != [] {
      SpansAreOrdered(rows[..|rows| - 1], columns);
    }
  }

  lemma {:induction false} NoneStaysNone(rows: seq<Row>, columns: nat, k: nat)
    requires k <= |rows| && SpansOf(rows[..k], columns).None?
    ensures SpansOf(rows, columns).None?
    decreases |rows|
  {
    if k == |rows| {
      assert rows[..k] == rows;
    } else {
      assert rows[..|rows| - 1][..k] == rows[..k];
      NoneStaysNone(rows[..|rows| - 1], columns, k);
    }
  }

  /** The rows that are not blank. */
  function Written(rows: seq<Row>): seq<Row> {
    if rows == [] then []
    else Written(rows[..|rows| - 1]) + if rows[|rows| - 1] == [] then [] else [rows[|rows| - 1]]
  }

  /** The k-th row starts where the one before it ends, or later, and ends behind its start. */
  predicate RowIsGood(written: seq<Row>, columns: nat, k: nat)
    requires k < |written| && columns >= 2
  {
    var row := written[k];
    && |row| == columns && row[0].Some? && row[1].Some? && row[0].value < row[1].value
    && if k == 0 then row[0].value >= 0
       else |written[k - 1]| == columns && written[k - 1][1].Some? && row[0].value >= written[k - 1][1].value
  }

  predicate RowsAreGood(written: seq<Row>, columns: nat)
    requires columns >= 2
  {
    forall k :: 0 <= k < |written| ==> RowIsGood(written, columns, k)
  }

  /** The spans are the first two fields of the rows. */
  predicate AreFields(spans: seq<Span>, written: seq<Row>, columns: nat)
    requires columns >= 2
  {
    && |spans| == |written|
    && forall k :: 0 <= k < |spans| ==>
         |written[k]| == columns && written[k][..2] == [Some(spans[k].start), Some(spans[k].end)]
  }

  lemma GoodRowsNext(before: seq<Row>, row: Row, columns: nat)
    requires columns >= 2
    ensures RowsAreGood(before + [row], columns) <==>
      RowsAreGood(before, columns) && RowIsGood(before + [row], columns, |before|)
  {
    var all := before + [row];
    assert forall k :: 0 <= k < |before| ==> (RowIsGood(all, columns, k) <==> RowIsGood(before, columns, k));
  }

  /** One bad row refuses the file; otherwise the spans are the fields of the rows that are not blank. */
  lemma {:induction false} SpansAreTheRows(rows: seq<Row>, columns: nat)
    requires columns >= 2
    ensures SpansOf(rows, columns).Some? <==> RowsAreGood(Written(rows), columns)
    ensures SpansOf(rows, columns).Some? ==> AreFields(SpansOf(rows, columns).value, Written(rows), columns)
    decreases |rows|
  {
    if rows != [] {
      var init, row := rows[..|rows| - 1], rows[|rows| - 1];
      SpansAreTheRows(init, columns);
      if row == [] {
        assert Written(rows) == Written(init);
      } else {
        assert Written(rows) == Written(init) + [row];
        GoodRowsNext(Written(init), row, columns);
        if SpansOf(init, columns).Some? {
          var spans := SpansOf(init, columns).value;
          assert spans != [] ==>
            Written(init)[|spans| - 1][..2][1] == Some(PreviousEnd(spans));
        }
      }
    }
  }

  /** `_read_label_spans`: the header decides the number of columns, or is not one of the two. */
  method ReadLabelSpans(columns: Option<nat>, rows: seq<Row>) returns (r: Option<seq<Span>>)
    requires columns.Some? ==> columns.value == 5 || columns.value == 6
    ensures r == if columns.None? || SpansOf(rows, columns.value) == Some([]) then None else SpansOf(rows, columns.value)
  {
    if columns.None? {
      return None;
    }
    var spans: seq<Span>, previousEnd, k := [], 0, 0;
    while k < |rows|
      invariant 0 <= k <= |rows| && previousEnd == PreviousEnd(spans)
      invariant SpansOf(rows[..k], columns.value) == Some(spans)
    {
      assert rows[..k + 1][..k] == rows[..k];
      var row := rows[k];
      k := k + 1;
      if row != [] {
        if !Fits(row, columns.value) || row[0].value < previousEnd || row[1].value <= row[0].value {
          NoneStaysNone(rows, columns.value, k);
          return None;
        }
        spans := spans + [Span(row[0].value, row[1].value)];
        previousEnd := row[1].value;
      }
    }
    assert rows[..k] == rows;
    r := if spans == [] then None else Some(spans);
  }

  // ---------------------------------------------------------------- the gaps

  predicate Labeled(spans: seq<Span>, i: int) {
    exists k :: 0 <= k < |spans| && spans[k].start <= i < spans[k].end
  }

  /** The gaps in front of the first n spans. */
  function GapsBefore(spans: seq<Span>, n: nat): seq<Span>
    requires n <= |spans|
  {
    if n == 0 then []
    else
      var cursor := PreviousEnd(spans[..n - 1]);
      GapsBefore(spans, n - 1) + if spans[n - 1].start > cursor then [Span(cursor, spans[n - 1].start)] else []
  }

  function Gaps(spans: seq<Span>, sampleCount: int): seq<Span> {
    var cursor := PreviousEnd(spans);
    GapsBefore(spans, |spans|) + if cursor < sampleCount then [Span(cursor, sampleCount)] else []
  }

  lemma LabeledNext(spans: seq<Span>, span: Span, i: int)
    ensures Labeled(spans + [span], i) <==> Labeled(spans, i) || span.start <= i < span.end
  {
    var all := spans + [span];
    if Labeled(spans, i) {
      var k :| 0 <= k < |spans| && spans[k].start <= i < spans[k].end;
      assert all[k] == spans[k];
    } else if span.start <= i < span.end {
      assert all[|spans|] == span;
    }
  }

  /** Up to the end of the first n spans every sample is either labeled by them or in a gap before them. */
  lemma {:induction false} GapsBeforeComplement(spans: seq<Span>, n: nat, i: int)
    requires Ordered(spans) && n <= |spans|
    ensures Labeled(GapsBefore(spans, n), i) <==> 0 <= i < PreviousEnd(spans[..n]) && !Labeled(spans[..n], i)
    ensures Labeled(spans[..n], i) ==> 0 <= i < PreviousEnd(spans[..n])
    decreases n
  {
    if n > 0 {
      var before, span := spans[..n - 1], spans[n - 1];
      GapsBeforeComplement(spans, n - 1, i);
      assert spans[..n] == before + [span];
      LabeledNext(before, span, i);
      assert n > 1 ==> before[n - 2] == spans[n - 2];
      if span.start > PreviousEnd(before) {
        LabeledNext(GapsBefore(spans, n - 1), Span(PreviousEnd(before), span.start), i);
      } else {
        assert GapsBefore(spans, n - 1) + [] == GapsBefore(spans, n - 1);
      }
    }
  }

  /** The gaps are exactly the samples outside the labels. */
  lemma GapsAreTheUnlabeled(spans: seq<Span>, sampleCount: int, i: int)
    requires Ordered(spans) && PreviousEnd(spans) <= sampleCount
    ensures Labeled(Gaps(spans, sampleCount), i) <==> 0 <= i < sampleCount && !Labeled(spans, i)
  {
    GapsBeforeComplement(spans, |spans|, i);
    assert spans[..|spans|] == spans;
    var cursor := PreviousEnd(spans);
    assert cursor >= 0;
    if cursor < sampleCount {
      LabeledNext(GapsBefore(spans, |spans|), Span(cursor, sampleCount), i);
    } else {
      assert GapsBefore(spans, |spans|) + [] == GapsBefore(spans, |spans|);
    }
  }

  // ---------------------------------------------------------------- the wave

  /** The byte belongs to a sample of the region. */
  predicate InSample(regions: seq<Span>, offset: nat, b: nat) {
    b >= offset && Labeled(regions, (b - offset) / BYTES_PER_SAMPLE)
  }

  /** The wave with every byte of the unlabeled samples zero and everything else as it was. */
  function Silenced(wave: seq<Byte>, offset: nat, sampleCount: nat, spans: seq<Span>): (s: seq<Byte>)
    ensures |s| == |wave|
  {
    seq(|wave|, b requires 0 <= b < |wave| =>
      if offset <= b < offset + sampleCount * BYTES_PER_SAMPLE && !InSample(spans, offset, b) then 0 else wave[b])
  }

  /** The three bytes of a sample stay inside a label and are zero outside; all other bytes stay. */
  lemma SilencedMeans(wave: seq<Byte>, offset: nat, sampleCount: nat, spans: seq<Span>, s: nat, c: nat)
    requires s < sampleCount && c < 3 && offset + 3 * s + c < |wave|
    ensures var b := offset + 3 * s + c;
      Silenced(wave, offset, sampleCount, spans)[b] == if Labeled(spans, s) then wave[b] else 0
    ensures var after := Silenced(wave, offset, sampleCount, spans);
      forall b :: 0 <= b < |wave| && !(offset <= b < offset + 3 * sampleCount) ==> after[b] == wave[b]
  {
    assert (offset + 3 * s + c - offset) / BYTES_PER_SAMPLE == s;
  }

  /** Silencing again changes nothing. */
  lemma SilencingIsIdempotent(wave: seq<Byte>, offset: nat, sampleCount: nat, spans: seq<Span>)
    ensures var once := Silenced(wave, offset, sampleCount, spans);
      Silenced(once, offset, sampleCount, spans) == once
  {
  }

  /** The row that the corpus writes for a label; the last column is not an integer. */
  function RowOf(l: Label): Row {
    [Some(l.start), Some(l.end), Some(0), Some(l.stringMask), Some(1), None]
  }

  function RowsOf(out: seq<Label>): seq<Row> {
    if out == [] then [] else RowsOf(out[..|out| - 1]) + [RowOf(out[|out| - 1])]
  }

  lemma OneMoreRow(rows: seq<Row>, l: Label, spans: seq<Span>)
    requires SpansOf(rows, 6) == Some(spans) && PreviousEnd(spans) <= l.start < l.end
    ensures SpansOf(rows + [RowOf(l)], 6) == Some(spans + [Span(l.start, l.end)])
  {
    assert (rows + [RowOf(l)])[..|rows|] == rows;
  }

  function AsSpans(out: seq<Label>): (s: seq<Span>)
    ensures |s| == |out| && forall k :: 0 <= k < |s| ==> s[k] == Span(out[k].start, out[k].end)
  {
    seq(|out|, k requires 0 <= k < |out| => Span(out[k].start, out[k].end))
  }

  lemma LastIsBehind(out: seq<Label>, source: seq<real>, labels: seq<Label>, silence: nat)
    requires Placed(out, source, labels, silence) && Readable(labels) && AllInside(source, labels) && out != []
    ensures var last := |out| - 1;
      PreviousEnd(AsSpans(out[..last])) <= out[last].start < out[last].end
  {
    hide Segment;
    PlacedAt(out, source, labels, silence, |out| - 1);
  }

  lemma AsSpansNext(out: seq<Label>)
    requires out != []
    ensures var last := |out| - 1;
      AsSpans(out) == AsSpans(out[..last]) + [Span(out[last].start, out[last].end)]
  {
  }

  /** The labels of a generated corpus are read back, whatever the silence between them. */
  lemma {:induction false} CorpusLabelsAreReadBack(
    out: seq<Label>, source: seq<real>, labels: seq<Label>, silence: nat)
    requires Placed(out, source, labels, silence) && Readable(labels) && AllInside(source, labels)
    ensures SpansOf(RowsOf(out), 6) == Some(AsSpans(out))
    decreases |out|
  {
    if out != [] {
      hide Segment, SpansOf, AsSpans, PreviousEnd;
      var init, last := out[..|out| - 1], out[|out| - 1];
      LastIsBehind(out, source, labels, silence);
      CorpusLabelsAreReadBack(init, source, labels[..|out| - 1], silence);
      OneMoreRow(RowsOf(init), last, AsSpans(init));
      AsSpansNext(out);
    }
  }

  // ---------------------------------------------------------------- in place

  /** Every gap lies inside the file. */
  predicate GapsFit(gaps: seq<Span>, offset: nat, length: nat) {
    forall k :: 0 <= k < |gaps| ==> offset + gaps[k].end * BYTES_PER_SAMPLE <= length
  }

  predicate InBytes(span: Span, offset: nat, b: nat) {
    offset + span.start * BYTES_PER_SAMPLE <= b < offset + span.end * BYTES_PER_SAMPLE
  }

  lemma SampleOfByte(span: Span, offset: nat, b: nat)
    requires 0 <= span.start <= span.end && offset <= b
    ensures span.start <= (b - offset) / BYTES_PER_SAMPLE < span.end <==> InBytes(span, offset, b)
  {
  }

  /** Zeroes a range of bytes block by block; false when a block does not fit the file. */
  method ZeroRange(image: array<Byte>, from: nat, to: nat) returns (ok: bool)
    requires from <= to
    modifies image
    ensures ok <==> to <= image.Length || from == to
    ensures ok ==> forall b :: 0 <= b < image.Length ==> image[b] == if from <= b < to then 0 else old(image[b])
  {
    var start := from;
    while start < to
      invariant from <= start <= to && (start == from || start <= image.Length)
      invariant forall b :: 0 <= b < image.Length ==> image[b] == if from <= b < start then 0 else old(image[b])
    {
      var size := if BLOCK < to - start then BLOCK else to - start;
      if start + size > image.Length {
        return false;
      }
      forall b | start <= b < start + size {
        image[b] := 0;
      }
      start := start + size;
    }
    ok := true;
  }

  /** The part of `silence_unlabeled_regions` behind the reading of both files. */
  method SilenceUnlabeledRegions(image: array<Byte>, offset: nat, sampleCount: nat, spans: seq<Span>)
    returns (ok: bool)
    requires Ordered(spans) && spans != []
    modifies image
    ensures ok <==> PreviousEnd(spans) <= sampleCount && GapsFit(Gaps(spans, sampleCount), offset, image.Length)
    ensures ok ==> image[..] == Silenced(old(image[..]), offset, sampleCount, spans)
    ensures PreviousEnd(spans) > sampleCount ==> image[..] == old(image[..])
  {
    if spans[|spans| - 1].end > sampleCount {
      return false;
    }
    var gaps := CollectGaps(spans, sampleCount);
    GapsAreProper(spans, sampleCount);
    for k := 0 to |gaps|
      invariant GapsFit(gaps[..k], offset, image.Length)
      invariant forall b :: 0 <= b < image.Length ==>
        image[b] == if InSample(gaps[..k], offset, b) then 0 else old(image[b])
    {
      var gap := gaps[k];
      assert gaps[..k + 1] == gaps[..k] + [gap];
      forall b: nat
        ensures InSample(gaps[..k + 1], offset, b) <==> InSample(gaps[..k], offset, b) || InBytes(gap, offset, b)
      {
        InSampleNext(gaps[..k], gap, offset, b);
      }
      var fits := ZeroRange(image, offset + gap.start * BYTES_PER_SAMPLE, offset + gap.end * BYTES_PER_SAMPLE);
      if !fits {
        return false;
      }
    }
    assert gaps[..|gaps|] == gaps;
    forall b: nat
      ensures InSample(gaps, offset, b) <==>
        offset <= b < offset + sampleCount * BYTES_PER_SAMPLE && !InSample(spans, offset, b)
    {
      if b >= offset {
        GapsAreTheUnlabeled(spans, sampleCount, (b - offset) / BYTES_PER_SAMPLE);
      }
    }
    ok := true;
  }

  lemma InSampleNext(gaps: seq<Span>, gap: Span, offset: nat, b: nat)
    requires 0 <= gap.start <= gap.end
    ensures InSample(gaps + [gap], offset, b) <==> InSample(gaps, offset, b) || InBytes(gap, offset, b)
  {
    if b >= offset {
      LabeledNext(gaps, gap, (b - offset) / BYTES_PER_SAMPLE);
      SampleOfByte(gap, offset, b);
    }
  }

  method CollectGaps(spans: seq<Span>, sampleCount: nat) returns (gaps: seq<Span>)
    ensures gaps == Gaps(spans, sampleCount)
  {
    gaps := [];
    var cursor := 0;
    for k := 0 to |spans|
      invariant gaps == GapsBefore(spans, k) && cursor == PreviousEnd(spans[..k])
    {
      if spans[k].start > cursor {
        gaps := gaps + [Span(cursor, spans[k].start)];
      }
      cursor := spans[k].end;
    }
    assert spans[..|spans|] == spans;
    if cursor < sampleCount {
      gaps := gaps + [Span(cursor, sampleCount)];
    }
  }

  lemma {:induction false} GapsBeforeAreProper(spans: seq<Span>, n: nat)
    requires Ordered(spans) && n <= |spans|
    ensures forall k :: 0 <= k < |GapsBefore(spans, n)| ==>
      0 <= GapsBefore(spans, n)[k].start < GapsBefore(spans, n)[k].end
    decreases n
  {
    if n > 0 {
      GapsBeforeAreProper(spans, n - 1);
    }
  }

  lemma GapsAreProper(spans: seq<Span>, sampleCount: int)
    requires Ordered(spans)
    ensures forall k :: 0 <= k < |Gaps(spans, sampleCount)| ==>
      0 <= Gaps(spans, sampleCount)[k].start < Gaps(spans, sampleCount)[k].end
  {
    GapsBeforeAreProper(spans, |spans|);
  }
}
