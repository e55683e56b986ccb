// One curve block of an IRTECON file, from its opening line to its closing
// line: which lines give the curve its timestamp, duration, legend and rows.

module IrteconCurves {
  import opened Results
  import opened IrteconRecords
  import opened IrteconLines
  import opened IrteconDecoder
  import opened IrteconProperties

  // ---------------------------------------------------------------------
  // Reference definitions, on the lines alone

  /** The position of the first line of kind `k`, or `|lines|` when there
      is none. */
  function FirstOfKind(lines: seq<Line>, k: LineKind): (j: nat)
    ensures j <= |lines|
    ensures j < |lines| ==> lines[j].kind == k
    decreases |lines|
  {
    if |lines| == 0 then 0
    else if lines[0].kind == k then 0
    else 1 + FirstOfKind(lines[1..], k)
  }

  /** No line before the first one of kind `k` has that kind. */
  lemma {:induction false} FirstOfKindSpec(lines: seq<Line>, k: LineKind)
    ensures forall i :: 0 <= i < FirstOfKind(lines, k) ==> lines[i].kind != k
    decreases |lines|
  {
    if |lines| > 0 && lines[0].kind != k {
      FirstOfKindSpec(lines[1..], k);
      assert forall i :: 1 <= i < FirstOfKind(lines, k) ==> lines[i] == lines[1..][i - 1];
    }
  }

  /** The text of the last line of kind `k`, if there is one. */
  function LastOfKind(lines: seq<Line>, k: LineKind): Option<string>
    decreases |lines|
  {
    if |lines| == 0 then None
    else
      var rest := LastOfKind(lines[1..], k);
      if rest.Some? then rest
      else if lines[0].kind == k then Some(lines[0].text)
      else None
  }

  /** `LastOfKind` finds the text of a line of kind `k` after which no line
      has that kind, and finds nothing exactly when no line has it. */
  lemma {:induction false} LastOfKindSpec(lines: seq<Line>, k: LineKind)
    ensures LastOfKind(lines, k).None? <==> forall i :: 0 <= i < |lines| ==> lines[i].kind != k
    ensures LastOfKind(lines, k).Some? ==>
      exists i :: 0 <= i < |lines| && lines[i].kind == k && lines[i].text == LastOfKind(lines, k).value
        && forall m :: i < m < |lines| ==> lines[m].kind != k
    decreases |lines|
  {
    if |lines| > 0 {
      LastOfKindSpec(lines[1..], k);
      var rest := LastOfKind(lines[1..], k);
      if rest.Some? {
        var i :| 0 <= i < |lines[1..]| && lines[1..][i].kind == k && lines[1..][i].text == rest.value
          && forall m :: i < m < |lines[1..]| ==> lines[1..][m].kind != k;
        assert lines[i + 1] == lines[1..][i];
        assert forall m :: i + 1 < m < |lines| ==> lines[m] == lines[1..][m - 1];
      } else {
        assert forall m :: 0 < m < |lines| ==> lines[m] == lines[1..][m - 1];
      }
    }
  }

  /** `after` carries the settings of the last date, time and legend lines
      among `lines`, each converted, and keeps the corresponding field of
      `before` where no such line occurs. */
  predicate SetByLastLines(c: Conversions, lines: seq<Line>, before: Curve, after: Curve) {
    && (match LastOfKind(lines, DateLine)
        case None => after.time == before.time
        case Some(t) => c.date(Drop(t, |DateMarker|)) == Some(after.time))
    && (match LastOfKind(lines, TimeLine)
        case None => after.duration == before.duration
        case Some(t) => c.duration(Drop(t, |TimeMarker|)) == Some(after.duration))
    && (match LastOfKind(lines, LegendLine)
        case None => after.legendKey == before.legendKey
        case Some(t) => c.legend(t) == after.legendKey)
  }

  // ---------------------------------------------------------------------
  // Helpers on the last curve

  /** Replacing the last curve by itself changes nothing. */
  lemma {:induction false} SetLastCurveSame(doc: Document)
    requires |doc.curves| > 0
    ensures SetLastCurve(doc, LastCurve(doc)) == doc
  {
  }

  /** Of two replacements of the last curve, only the second remains. */
  lemma {:induction false} SetLastCurveTwice(doc: Document, a: Curve, b: Curve)
    requires |doc.curves| > 0
    ensures SetLastCurve(SetLastCurve(doc, a), b) == SetLastCurve(doc, b)
  {
  }

  /** Putting a curve at the end of a document and then replacing it is
      putting the replacement there. */
  lemma {:induction false} AppendThenSet(doc: Document, a: Curve, b: Curve)
    ensures SetLastCurve(doc.(curves := doc.curves + [a]), b) == doc.(curves := doc.curves + [b])
  {
  }

  // ---------------------------------------------------------------------
  // The lines of a curve before its data marker

  /** One line of a curve before its data marker and other than its closing
      line changes at most the timestamp, duration or legend of the current
      curve, and only when it is a line of that kind. */
  lemma {:induction false} CurveHeadStep(c: Conversions, st: ValidState, line: Line)
    requires st.curveFound && !st.curveDataFound
    requires line.kind != CurveEndLine && line.kind != DataStartLine
    requires Step(c, st, line).Ok?
    ensures var after := Step(c, st, line).value;
      && after.curveFound && !after.curveDataFound && after.curveData == st.curveData
      && after.doc == SetLastCurve(st.doc, LastCurve(after.doc))
      && LastCurve(after.doc).data == LastCurve(st.doc).data
      && SetByLastLines(c, [line], LastCurve(st.doc), LastCurve(after.doc))
  {
    var after := Step(c, st, line).value;
    assert LastOfKind([line], DateLine) == if line.kind == DateLine then Some(line.text) else None;
    assert LastOfKind([line], TimeLine) == if line.kind == TimeLine then Some(line.text) else None;
    assert LastOfKind([line], LegendLine) == if line.kind == LegendLine then Some(line.text) else None;
    if after == st {
      SetLastCurveSame(st.doc);
    }
  }

  /** The last line of a kind in a non-empty run is the last one after its
      first line, or the first line itself when none follows. */
  lemma {:induction false} LastOfKindCons(lines: seq<Line>, k: LineKind)
    requires |lines| > 0
    ensures LastOfKind(lines, k) == if LastOfKind(lines[1..], k).Some? then LastOfKind(lines[1..], k) else LastOfKind([lines[0]], k)
  {
  }

  /** The settings made by a first line and then by the lines after it are
      those made by all of them together. */
  lemma {:induction false} SetByLastLinesCons(c: Conversions, lines: seq<Line>, before: Curve, mid: Curve, after: Curve)
    requires |lines| > 0
    requires SetByLastLines(c, [lines[0]], before, mid)
    requires SetByLastLines(c, lines[1..], mid, after)
    ensures SetByLastLines(c, lines, before, after)
  {
    LastOfKindCons(lines, DateLine);
    LastOfKindCons(lines, TimeLine);
    LastOfKindCons(lines, LegendLine);
  }

  /** A line before a curve's data marker followed by the rest of the
      curve's lines, with the states before, between and after them. */
  lemma {:induction false} CurveBodyCons(c: Conversions, lines: seq<Line>, j: nat, st: ValidState, next: ValidState, after: ValidState)
    requires |lines| > 0 && lines[0].kind != DataStartLine && j == FirstOfKind(lines, DataStartLine)
    requires st.curveFound && next.curveFound && after.curveFound
    requires next.doc == SetLastCurve(st.doc, LastCurve(next.doc))
    requires LastCurve(next.doc).data == LastCurve(st.doc).data
    requires SetByLastLines(c, [lines[0]], LastCurve(st.doc), LastCurve(next.doc))
    requires after.doc == SetLastCurve(next.doc, LastCurve(after.doc))
    requires LastCurve(after.doc).data == LastCurve(next.doc).data
    requires SetByLastLines(c, lines[1..][..j - 1], LastCurve(next.doc), LastCurve(after.doc))
    ensures after.doc == SetLastCurve(st.doc, LastCurve(after.doc))
    ensures LastCurve(after.doc).data == LastCurve(st.doc).data
    ensures SetByLastLines(c, lines[..j], LastCurve(st.doc), LastCurve(after.doc))
  {
    SetLastCurveTwice(st.doc, LastCurve(next.doc), LastCurve(after.doc));
    var head := lines[..j];
    assert head[0] == lines[0] && head[1..] == lines[1..][..j - 1];
    SetByLastLinesCons(c, head, LastCurve(st.doc), LastCurve(next.doc), LastCurve(after.doc));
  }

  // ---------------------------------------------------------------------
  // A whole curve block

  /** A pass over one line is the step on it. */
  lemma {:induction false} RunOne(c: Conversions, st: ValidState, line: Line, index: nat)
    requires Step(c, st, line).Ok?
    ensures Run(c, st, [line], index) == Ok(Step(c, st, line).value)
  {
    var xs := [line];
    assert xs[0] == line && xs[1..] == [];
    assert StepWith(c)(st, xs[0]) == Step(c, st, line);
    assert Fold(StepWith(c), st, xs, index) == Fold(StepWith(c), Step(c, st, line).value, [], index + 1);
  }

  /** A successful pass over a non-empty run of lines is the step on its
      first line followed by the pass over the rest. */
  lemma {:induction false} RunCons(c: Conversions, st: ValidState, lines: seq<Line>, index: nat)
    requires |lines| > 0 && Run(c, st, lines, index).Ok?
    ensures Step(c, st, lines[0]).Ok?
    ensures Run(c, st, lines, index) == Run(c, Step(c, st, lines[0]).value, lines[1..], index + 1)
  {
  }

  /** A successful pass over `a + b` is a successful pass over `a`
      followed by a pass over `b` from where it ended. */
  lemma {:induction false} RunSplit(c: Conversions, st: ValidState, a: seq<Line>, b: seq<Line>, index: nat)
    requires Run(c, st, a + b, index).Ok?
    ensures Run(c, st, a, index).Ok?
    ensures Run(c, st, a + b, index) == Run(c, Run(c, st, a, index).value, b, index + |a|)
  {
    FoldAppend(StepWith(c), st, a, b, index);
  }

  /** The data marker of a curve opens its data section. */
  lemma DataMarkerOpensData(c: Conversions, st: ValidState, line: Line)
    requires st.curveFound && !st.curveDataFound && line.kind == DataStartLine
    ensures Step(c, st, line) == Ok(st.(curveDataFound := true))
  {
  }

  /** From a curve's data marker on, up to its closing line, every line
      after the marker is a row of the buffer and the document does not
      change. */
  lemma {:induction false} RunDataPart(c: Conversions, st: ValidState, lines: seq<Line>, index: nat)
    requires st.curveFound && !st.curveDataFound && st.curveData == []
    requires |lines| > 0 && lines[0].kind == DataStartLine
    requires forall i :: 0 <= i < |lines| ==> lines[i].kind != CurveEndLine
    requires Run(c, st, lines, index).Ok?
    ensures var after := Run(c, st, lines, index).value;
      && after.curveFound && after.doc == st.doc
      && MapAll(c.row, Texts(lines[1..])).Some?
      && after.curveData == MapAll(c.row, Texts(lines[1..])).value
  {
    RunCons(c, st, lines, index);
    DataMarkerOpensData(c, st, lines[0]);
    RunDataSection(c, st.(curveDataFound := true), lines[1..], index + 1);
    assert [] + MapAll(c.row, Texts(lines[1..])).value == MapAll(c.row, Texts(lines[1..])).value;
  }

  /** The lines of a curve between its opening and closing lines: those
      before the first data marker set the timestamp, duration and legend
      from the last line of each kind, and every line after the marker is a
      row of the buffer. */
  lemma {:induction false} RunCurveBody(c: Conversions, st: ValidState, lines: seq<Line>, index: nat)
    requires st.curveFound && !st.curveDataFound && st.curveData == []
    requires forall i :: 0 <= i < |lines| ==> lines[i].kind != CurveEndLine
    requires Run(c, st, lines, index).Ok?
    ensures var after := Run(c, st, lines, index).value;
      var j := FirstOfKind(lines, DataStartLine);
      && after.curveFound
      && after.doc == SetLastCurve(st.doc, LastCurve(after.doc))
      && LastCurve(after.doc).data == LastCurve(st.doc).data
      && SetByLastLines(c, lines[..j], LastCurve(st.doc), LastCurve(after.doc))
      && (j == |lines| ==> after.curveData == [])
      && (j < |lines| ==> MapAll(c.row, Texts(lines[j + 1..])).Some? && after.curveData == MapAll(c.row, Texts(lines[j + 1..])).value)
    decreases |lines|
  {
    if |lines| == 0 {
      SetLastCurveSame(st.doc);
    } else if lines[0].kind == DataStartLine {
      RunDataPart(c, st, lines, index);
      SetLastCurveSame(st.doc);
    } else {
      RunCons(c, st, lines, index);
      var next := Step(c, st, lines[0]).value;
      CurveHeadStep(c, st, lines[0]);
      RunCurveBody(c, next, lines[1..], index + 1);
      var j := FirstOfKind(lines, DataStartLine);
      if j < |lines| {
        assert lines[1..][j - 1 + 1..] == lines[j + 1..];
      }
      CurveBodyCons(c, lines, j, st, next, Run(c, st, lines, index).value);
    }
  }

  /** The lines of a curve after its opening line, its closing line
      included: the curve gets the settings of the lines before the data
      marker and the rows after it, and the pass is outside both blocks
      again. */
  lemma {:induction false} RunCurveRest(c: Conversions, st: ValidState, body: seq<Line>, close: Line, index: nat)
    requires st.curveFound && !st.curveDataFound && st.curveData == [] && LastCurve(st.doc).data == []
    requires close.kind == CurveEndLine
    requires forall i :: 0 <= i < |body| ==> body[i].kind != CurveEndLine
    requires Run(c, st, body + [close], index).Ok?
    ensures var after := Run(c, st, body + [close], index).value;
      var j := FirstOfKind(body, DataStartLine);
      && ModeOf(after) == OutsideBlocks
      && |after.doc.curves| == |st.doc.curves|
      && after.doc == SetLastCurve(st.doc, LastCurve(after.doc))
      && SetByLastLines(c, body[..j], LastCurve(st.doc), LastCurve(after.doc))
      && (j == |body| ==> LastCurve(after.doc).data == [])
      && (j < |body| ==> MapAll(c.row, Texts(body[j + 1..])).Some? && LastCurve(after.doc).data == MapAll(c.row, Texts(body[j + 1..])).value)
  {
    RunSplit(c, st, body, [close], index);
    RunCurveBody(c, st, body, index);
    var filled := Run(c, st, body, index).value;
    CurveCloseStoresData(c, filled, close);
    RunOne(c, filled, close, index + |body|);
    var after := Step(c, filled, close).value;
    SetLastCurveTwice(st.doc, LastCurve(filled.doc), LastCurve(after.doc));
  }

  /** One curve block, read from outside both blocks: the pass appends one
      curve and changes nothing else already decoded. The new curve's
      timestamp, duration and legend come from the last date, time and
      legend lines before the data marker (the epoch, zero and the empty
      legend when there are none), and its rows are the conversions of the
      lines after the marker. */
  lemma {:induction false} CurveBlock(c: Conversions, st: ValidState, open: Line, body: seq<Line>, close: Line, index: nat)
    requires Outside(st) && open.kind == CurveStartLine && close.kind == CurveEndLine
    requires forall i :: 0 <= i < |body| ==> body[i].kind != CurveEndLine
    requires Run(c, st, [open] + body + [close], index).Ok?
    ensures var after := Run(c, st, [open] + body + [close], index).value;
      var j := FirstOfKind(body, DataStartLine);
      && ModeOf(after) == OutsideBlocks
      && |after.doc.curves| == |st.doc.curves| + 1
      && after.doc == st.doc.(curves := st.doc.curves + [LastCurve(after.doc)])
      && SetByLastLines(c, body[..j], EmptyCurve, LastCurve(after.doc))
      && (j == |body| ==> LastCurve(after.doc).data == [])
      && (j < |body| ==> MapAll(c.row, Texts(body[j + 1..])).Some? && LastCurve(after.doc).data == MapAll(c.row, Texts(body[j + 1..])).value)
  {
    assert [open] + body + [close] == [open] + (body + [close]);
    RunCons(c, st, [open] + (body + [close]), index);
    assert ([open] + (body + [close]))[1..] == body + [close];
    CurveOpenAppendsEmptyCurve(c, st, open);
    var started := Step(c, st, open).value;
    assert started.doc == st.doc.(curves := st.doc.curves + [EmptyCurve]);
    RunCurveRest(c, started, body, close, index + 1);
    var after := Run(c, started, body + [close], index + 1).value;
    AppendThenSet(st.doc, EmptyCurve, LastCurve(after.doc));
  }
}
