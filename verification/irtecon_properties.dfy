/** What a pass of the IRTECON decoder does to a whole file, stated against
    reference definitions that only look at the block structure: which
    lines open and close the axis block, a curve and its data section. */
module IrteconProperties {
  import opened Results
  import opened PyStrings
  import opened IrteconRecords
  import opened IrteconLines
  import opened IrteconDecoder

  /** The block the decoder is in, as its three flags encode it. */
  datatype Mode = OutsideBlocks | InAxisBlock | InCurve | InCurveData

  function ModeOf(st: State): Mode {
    if st.axisDescriptionFound then InAxisBlock
    else if st.curveDataFound then InCurveData
    else if st.curveFound then InCurve
    else OutsideBlocks
  }

  /** The block structure on its own: a curve or the axis block opens only
      outside both, the axis block closes at its end marker, a curve at its
      closing line, and a curve's data section starts at the data marker and
      lasts until the curve closes. */
  function NextMode(m: Mode, k: LineKind): Mode {
    match m
    case OutsideBlocks =>
      if k == AxisStartLine then InAxisBlock
      else if k == CurveStartLine then InCurve
      else OutsideBlocks
    case InAxisBlock =>
      if k == AxisEndLine then OutsideBlocks else InAxisBlock
    case InCurve =>
      if k == CurveEndLine then OutsideBlocks
      else if k == DataStartLine then InCurveData
      else InCurve
    case InCurveData =>
      if k == CurveEndLine then OutsideBlocks else InCurveData
  }

  function FinalMode(m: Mode, lines: seq<Line>): Mode
    decreases |lines|
  {
    if |lines| == 0 then m else FinalMode(NextMode(m, lines[0].kind), lines[1..])
  }

  // ---------------------------------------------------------------------
  // Reference extractions

  /** The three header fields and their markers. */
  datatype HeaderField = ProgramField | ConfigField | SampleField

  function Marker(f: HeaderField): string {
    match f
    case ProgramField => ProgramMarker
    case ConfigField => ConfigMarker
    case SampleField => SampleMarker
  }

  function KindOf(f: HeaderField): (k: LineKind)
    ensures k != OtherLine && TestOf(k) == Prefix(Marker(f))
  {
    match f
    case ProgramField => ProgramLine
    case ConfigField => ConfigLine
    case SampleField => SampleLine
  }

  function FieldOf(doc: Document, f: HeaderField): string {
    match f
    case ProgramField => doc.program
    case ConfigField => doc.configurationFile
    case SampleField => doc.sampleName
  }

  /** The value of a header field after `lines`: the rest of the last line,
      seen outside both blocks, that starts with the field's marker. */
  function HeaderAfter(f: HeaderField, m: Mode, lines: seq<Line>, v: string): string
    decreases |lines|
  {
    if |lines| == 0 then v
    else
      var k := lines[0].kind;
      var v' := if m == OutsideBlocks && k == KindOf(f) then Drop(lines[0].text, |Marker(f)|) else v;
      HeaderAfter(f, NextMode(m, k), lines[1..], v')
  }

  /** The lines that describe an axis: indented by two spaces and inside
      the axis block, in file order. */
  function AxisLines(m: Mode, lines: seq<Line>): seq<string>
    decreases |lines|
  {
    if |lines| == 0 then []
    else
      var k := lines[0].kind;
      (if m == InAxisBlock && k == AxisLine then [lines[0].text] else [])
        + AxisLines(NextMode(m, k), lines[1..])
  }

  /** The number of curves opened: opening lines seen outside both blocks. */
  function CurveOpenings(m: Mode, lines: seq<Line>): nat
    decreases |lines|
  {
    if |lines| == 0 then 0
    else
      var k := lines[0].kind;
      (if m == OutsideBlocks && k == CurveStartLine then 1 else 0)
        + CurveOpenings(NextMode(m, k), lines[1..])
  }

  // ---------------------------------------------------------------------
  // One line

  /** The decoder's flags follow the block structure. */
  lemma StepFollowsMode(c: Conversions, st: ValidState, line: Line)
    requires Step(c, st, line).Ok?
    ensures ModeOf(Step(c, st, line).value) == NextMode(ModeOf(st), line.kind)
  {
  }

  /** A header field changes only at a line with its marker, outside both
      blocks, and then becomes the rest of that line, untrimmed. */
  lemma StepHeader(c: Conversions, st: ValidState, line: Line, f: HeaderField)
    requires Step(c, st, line).Ok?
    ensures FieldOf(Step(c, st, line).value.doc, f) ==
      if ModeOf(st) == OutsideBlocks && line.kind == KindOf(f) then Drop(line.text, |Marker(f)|) else FieldOf(st.doc, f)
  {
  }

  /** An axis is appended exactly for an indented line inside the axis
      block, and it is that line's axis. */
  lemma StepAxes(c: Conversions, st: ValidState, line: Line)
    requires Step(c, st, line).Ok?
    ensures ModeOf(st) == InAxisBlock && line.kind == AxisLine ==>
      c.axis(line.text).Some? && Step(c, st, line).value.doc.axes == st.doc.axes + [c.axis(line.text).value]
    ensures !(ModeOf(st) == InAxisBlock && line.kind == AxisLine) ==>
      Step(c, st, line).value.doc.axes == st.doc.axes
  {
  }

  /** A curve is appended exactly for an opening line outside both blocks. */
  lemma StepCurveCount(c: Conversions, st: ValidState, line: Line)
    requires Step(c, st, line).Ok?
    ensures |Step(c, st, line).value.doc.curves| ==
      |st.doc.curves| + if ModeOf(st) == OutsideBlocks && line.kind == CurveStartLine then 1 else 0
  {
  }

  /** Outside the data section, a line of no kind changes nothing. */
  lemma OtherLineIgnored(c: Conversions, st: ValidState, line: Line)
    requires !st.curveDataFound && line.kind == OtherLine
    ensures Step(c, st, line) == Ok(st)
  {
  }

  /** A line that starts with neither a space nor `#` has no kind. */
  lemma PlainLineHasNoKind(text: string)
    requires |text| == 0 || (text[0] != ' ' && text[0] != '#')
    ensures Classify(text) == OtherLine
  {
    var k := Classify(text);
    ClassifySpec(text, k);
    if k != OtherLine {
      SignatureOfKind(text, k);
    }
  }

  /** A closing line outside its block changes nothing. */
  lemma StrayCloserIgnored(c: Conversions, st: ValidState, line: Line)
    requires Outside(st) && (line.kind == AxisEndLine || line.kind == CurveEndLine)
    ensures Step(c, st, line) == Ok(st)
  {
  }

  /** Header lines inside the axis block or a curve (outside its data
      section) change nothing. */
  lemma HeaderInsideBlockIgnored(c: Conversions, st: ValidState, line: Line, f: HeaderField)
    requires !Outside(st) && !st.curveDataFound && line.kind == KindOf(f)
    ensures Step(c, st, line) == Ok(st)
  {
  }

  /** In a data section every line but the curve's closing line is a data
      row: it is appended to the buffer, or the pass fails on it. */
  lemma DataSectionTakesEveryLine(c: Conversions, st: ValidState, line: Line)
    requires st.curveDataFound && line.kind != CurveEndLine
    ensures Step(c, st, line) ==
      match c.row(line.text)
      case Some(row) => Ok(st.(curveData := st.curveData + [row]))
      case None => Err(MalformedDataRow)
  {
  }

  /** Closing a curve stores the buffered rows as its data, unless no row
      was buffered: then the curve keeps the data it had. */
  lemma CurveCloseStoresData(c: Conversions, st: ValidState, line: Line)
    requires st.curveFound && !st.axisDescriptionFound && line.kind == CurveEndLine
    ensures Step(c, st, line).Ok?
    ensures var after := Step(c, st, line).value;
      && ModeOf(after) == OutsideBlocks
      && |after.doc.curves| == |st.doc.curves|
      && after.doc.curves[..|st.doc.curves| - 1] == st.doc.curves[..|st.doc.curves| - 1]
      && LastCurve(after.doc) == LastCurve(st.doc).(data := if |st.curveData| > 0 then st.curveData else LastCurve(st.doc).data)
  {
  }

  /** Opening a curve appends a fresh curve (epoch time, zero duration, no
      legend, no rows), enters it outside any data section and empties the
      buffer; nothing already decoded changes. */
  lemma CurveOpenAppendsEmptyCurve(c: Conversions, st: ValidState, line: Line)
    requires Outside(st) && line.kind == CurveStartLine
    ensures Step(c, st, line).Ok?
    ensures var after := Step(c, st, line).value;
      && ModeOf(after) == InCurve
      && after.curveData == []
      && after.doc.curves[..|st.doc.curves|] == st.doc.curves
      && |after.doc.curves| == |st.doc.curves| + 1
      && LastCurve(after.doc).time == Epoch
      && LastCurve(after.doc).duration == 0.0
      && LastCurve(after.doc).legendKey == ""
      && LastCurve(after.doc).data == []
      && after.doc.axes == st.doc.axes
  {
    var after := Step(c, st, line).value;
    assert after.doc.curves == st.doc.curves + [EmptyCurve];
  }

  /** Inside a curve, outside its data section, a date line sets the time
      of the current curve to the timestamp after the marker, or the pass
      fails on it when that text is no timestamp; the rest of the curve, the
      earlier curves, the header, the axes and the row buffer stay as they
      were. */
  lemma CurveDateSet(c: Conversions, st: ValidState, line: Line)
    requires st.curveFound && !st.curveDataFound && line.kind == DateLine
    ensures Step(c, st, line).Ok? <==> c.date(Drop(line.text, |DateMarker|)).Some?
    ensures Step(c, st, line).Err? ==> Step(c, st, line).error == MalformedTimestamp
    ensures Step(c, st, line).Ok? ==>
      var after := Step(c, st, line).value;
      && ModeOf(after) == ModeOf(st)
      && after.curveData == st.curveData
      && after.doc == st.doc.(curves := after.doc.curves)
      && |after.doc.curves| == |st.doc.curves|
      && after.doc.curves[..|st.doc.curves| - 1] == st.doc.curves[..|st.doc.curves| - 1]
      && LastCurve(after.doc) == LastCurve(st.doc).(time := c.date(Drop(line.text, |DateMarker|)).value)
  {
  }

  /** Inside a curve, outside its data section, a time line sets the
      duration of the current curve, or the pass fails on it; nothing else
      changes. */
  lemma CurveDurationSet(c: Conversions, st: ValidState, line: Line)
    requires st.curveFound && !st.curveDataFound && line.kind == TimeLine
    ensures Step(c, st, line).Ok? <==> c.duration(Drop(line.text, |TimeMarker|)).Some?
    ensures Step(c, st, line).Err? ==> Step(c, st, line).error == MalformedDuration
    ensures Step(c, st, line).Ok? ==>
      var after := Step(c, st, line).value;
      && ModeOf(after) == ModeOf(st)
      && after.curveData == st.curveData
      && after.doc == st.doc.(curves := after.doc.curves)
      && |after.doc.curves| == |st.doc.curves|
      && after.doc.curves[..|st.doc.curves| - 1] == st.doc.curves[..|st.doc.curves| - 1]
      && LastCurve(after.doc) == LastCurve(st.doc).(duration := c.duration(Drop(line.text, |TimeMarker|)).value)
  {
  }

  /** Inside a curve, outside its data section, a legend line sets the
      legend of the current curve; it never fails, and nothing else
      changes. */
  lemma CurveLegendSet(c: Conversions, st: ValidState, line: Line)
    requires st.curveFound && !st.curveDataFound && line.kind == LegendLine
    ensures Step(c, st, line).Ok?
    ensures var after := Step(c, st, line).value;
      && ModeOf(after) == ModeOf(st)
      && after.curveData == st.curveData
      && after.doc == st.doc.(curves := after.doc.curves)
      && |after.doc.curves| == |st.doc.curves|
      && after.doc.curves[..|st.doc.curves| - 1] == st.doc.curves[..|st.doc.curves| - 1]
      && LastCurve(after.doc) == LastCurve(st.doc).(legendKey := c.legend(line.text))
  {
  }

  // ---------------------------------------------------------------------
  // Whole runs

  /** The flags at the end of a pass follow the block structure. */
  lemma {:induction false} RunFollowsModes(c: Conversions, st: ValidState, lines: seq<Line>, index: nat)
    requires Run(c, st, lines, index).Ok?
    ensures ModeOf(Run(c, st, lines, index).value) == FinalMode(ModeOf(st), lines)
    decreases |lines|
  {
    if |lines| > 0 {
      StepFollowsMode(c, st, lines[0]);
      RunFollowsModes(c, Step(c, st, lines[0]).value, lines[1..], index + 1);
    }
  }

  /** Every header field ends as the rest of its last marker line seen
      outside both blocks. */
  lemma {:induction false} RunHeader(c: Conversions, st: ValidState, lines: seq<Line>, index: nat, f: HeaderField)
    requires Run(c, st, lines, index).Ok?
    ensures FieldOf(Run(c, st, lines, index).value.doc, f) == HeaderAfter(f, ModeOf(st), lines, FieldOf(st.doc, f))
    decreases |lines|
  {
    if |lines| > 0 {
      StepFollowsMode(c, st, lines[0]);
      StepHeader(c, st, lines[0], f);
      RunHeader(c, Step(c, st, lines[0]).value, lines[1..], index + 1, f);
    }
  }

  /** The axes a pass appends are exactly the axes of the axis lines, in
      file order. */
  lemma {:induction false} RunAxes(c: Conversions, st: ValidState, lines: seq<Line>, index: nat)
    requires Run(c, st, lines, index).Ok?
    ensures MapAll(c.axis, AxisLines(ModeOf(st), lines)).Some?
    ensures Run(c, st, lines, index).value.doc.axes == st.doc.axes + MapAll(c.axis, AxisLines(ModeOf(st), lines)).value
    decreases |lines|
  {
    if |lines| == 0 {
      assert st.doc.axes + [] == st.doc.axes;
    } else {
      var next := Step(c, st, lines[0]).value;
      StepFollowsMode(c, st, lines[0]);
      StepAxes(c, st, lines[0]);
      RunAxes(c, next, lines[1..], index + 1);
      AxisLinesCons(c, ModeOf(st), lines, st.doc.axes, next.doc.axes, Run(c, st, lines, index).value.doc.axes);
    }
  }

  /** The induction step of `RunAxes`, apart from the decoder: `mid` is
      `base` with the first line's axis if that line is an axis line, and
      `fin` is `mid` with the axes of the later axis lines. */
  lemma AxisLinesCons(c: Conversions, m: Mode, lines: seq<Line>, base: seq<Axis>, mid: seq<Axis>, fin: seq<Axis>)
    requires |lines| > 0
    requires MapAll(c.axis, AxisLines(NextMode(m, lines[0].kind), lines[1..])).Some?
    requires fin == mid + MapAll(c.axis, AxisLines(NextMode(m, lines[0].kind), lines[1..])).value
    requires m == InAxisBlock && lines[0].kind == AxisLine ==>
      c.axis(lines[0].text).Some? && mid == base + [c.axis(lines[0].text).value]
    requires !(m == InAxisBlock && lines[0].kind == AxisLine) ==> mid == base
    ensures MapAll(c.axis, AxisLines(m, lines)).Some?
    ensures fin == base + MapAll(c.axis, AxisLines(m, lines)).value
  {
    var line := lines[0];
    var take := m == InAxisBlock && line.kind == AxisLine;
    var rest := AxisLines(NextMode(m, line.kind), lines[1..]);
    assert AxisLines(m, lines) == (if take then [line.text] else []) + rest;
    MapAllCollect(c.axis, take, line.text, rest, base, mid, fin);
  }

  /** A pass appends one curve per opening line seen outside both blocks. */
  lemma {:induction false} RunCurveCount(c: Conversions, st: ValidState, lines: seq<Line>, index: nat)
    requires Run(c, st, lines, index).Ok?
    ensures |Run(c, st, lines, index).value.doc.curves| == |st.doc.curves| + CurveOpenings(ModeOf(st), lines)
    decreases |lines|
  {
    if |lines| > 0 {
      StepCurveCount(c, st, lines[0]);
      StepFollowsMode(c, st, lines[0]);
      RunCurveCount(c, Step(c, st, lines[0]).value, lines[1..], index + 1);
    }
  }

  /** The texts of a run of lines. */
  function Texts(lines: seq<Line>): (ts: seq<string>)
    ensures |ts| == |lines|
    decreases |lines|
  {
    if |lines| == 0 then [] else [lines[0].text] + Texts(lines[1..])
  }

  /** Inside a data section, up to the curve's closing line, every line is
      converted to a row and buffered in order, and nothing else changes. */
  lemma {:induction false} RunDataSection(c: Conversions, st: ValidState, lines: seq<Line>, index: nat)
    requires st.curveDataFound
    requires forall i :: 0 <= i < |lines| ==> lines[i].kind != CurveEndLine
    requires Run(c, st, lines, index).Ok?
    ensures MapAll(c.row, Texts(lines)).Some?
    ensures Run(c, st, lines, index).value.curveData == st.curveData + MapAll(c.row, Texts(lines)).value
    ensures Run(c, st, lines, index).value.doc == st.doc
    ensures Run(c, st, lines, index).value.curveDataFound
    decreases |lines|
  {
    if |lines| == 0 {
      assert st.curveData + [] == st.curveData;
    } else {
      var next := Step(c, st, lines[0]).value;
      DataSectionTakesEveryLine(c, st, lines[0]);
      RunDataSection(c, next, lines[1..], index + 1);
      var rest := Texts(lines[1..]);
      assert Texts(lines) == (if true then [lines[0].text] else []) + rest;
      MapAllCollect(c.row, true, lines[0].text, rest, st.curveData, next.curveData, Run(c, st, lines, index).value.curveData);
    }
  }

  // ---------------------------------------------------------------------
  // The decoder on a whole file

  /** The kinded lines the decoder passes over. */
  function FileLines(content: string): seq<Line> {
    ReadAll(SplitLines(content))
  }

  /** Every header field of a decoded file is the rest of its last marker
      line seen outside both blocks, or empty if there is none. */
  lemma {:induction false} DecodeHeader(c: Conversions, content: string, f: HeaderField)
    requires DecodeWith(c, content).Ok?
    ensures FieldOf(DecodeWith(c, content).value, f) == HeaderAfter(f, OutsideBlocks, FileLines(content), "")
  {
    if content != "" {
      RunHeader(c, Start, FileLines(content), 0, f);
    }
  }

  /** The axes of a decoded file are the conversions of its axis lines, in
      file order. */
  lemma {:induction false} DecodeAxes(c: Conversions, content: string)
    requires DecodeWith(c, content).Ok?
    ensures MapAll(c.axis, AxisLines(OutsideBlocks, FileLines(content))) == Some(DecodeWith(c, content).value.axes)
  {
    if content != "" {
      DecodeRuns(c, content);
      RunAxesFromStart(c, FileLines(content));
    }
  }

  /** `RunAxes` for a pass from the start of a file. */
  lemma RunAxesFromStart(c: Conversions, lines: seq<Line>)
    requires Run(c, Start, lines, 0).Ok?
    ensures MapAll(c.axis, AxisLines(OutsideBlocks, lines)) == Some(Run(c, Start, lines, 0).value.doc.axes)
  {
    RunAxes(c, Start, lines, 0);
    var parsed := MapAll(c.axis, AxisLines(OutsideBlocks, lines)).value;
    assert Start.doc.axes + parsed == parsed;
  }

  /** A non-empty file decodes to the document of the pass over its lines. */
  lemma DecodeRuns(c: Conversions, content: string)
    requires content != ""
    ensures DecodeWith(c, content) ==
      match Run(c, Start, FileLines(content), 0)
      case Ok(st) => Ok(st.doc)
      case Err(e) => Err(e)
  {
  }

  /** A decoded file has one curve per curve opening line seen outside both
      blocks. */
  lemma {:induction false} DecodeCurveCount(c: Conversions, content: string)
    requires DecodeWith(c, content).Ok?
    ensures |DecodeWith(c, content).value.curves| == CurveOpenings(OutsideBlocks, FileLines(content))
  {
    if content != "" {
      RunCurveCount(c, Start, FileLines(content), 0);
    }
  }

  /** A failing decode reports the first line whose conversion fails: the
      lines before it decode, and the rule chain fails on it for the
      reported reason. */
  lemma {:induction false} DecodeFailsAtFirstBadLine(c: Conversions, content: string)
    requires DecodeWith(c, content).Err?
    ensures var e := DecodeWith(c, content).error;
      var lines := FileLines(content);
      && e.line < |lines|
      && Run(c, Start, lines[..e.line], 0).Ok?
      && Step(c, Run(c, Start, lines[..e.line], 0).value, lines[e.line]) == Err(e.kind)
  {
    RunFirstError(c, Start, FileLines(content), 0);
  }

  /** A failed pass stops at the first line on which the rule chain fails:
      the pass over the lines before it succeeds, and the chain fails on it
      for the reported reason. */
  lemma RunFirstError(c: Conversions, st: ValidState, lines: seq<Line>, index: nat)
    requires Run(c, st, lines, index).Err?
    ensures var e := Run(c, st, lines, index).error;
      var k := e.line - index;
      && 0 <= k < |lines|
      && Run(c, st, lines[..k], index).Ok?
      && Step(c, Run(c, st, lines[..k], index).value, lines[k]) == Err(e.kind)
  {
    FoldFirstError(StepWith(c), st, lines, index);
  }

  /** The source's decoder on a whole file: the properties above with the
      source's conversions, and the axes as `IRTECONAxis` reads them. */
  lemma {:induction false} DecodeSource(content: string, f: HeaderField)
    ensures Decode(content).Ok? ==>
      && FieldOf(Decode(content).value, f) == HeaderAfter(f, OutsideBlocks, FileLines(content), "")
      && MapAll(ParseAxis, AxisLines(OutsideBlocks, FileLines(content))) == Some(Decode(content).value.axes)
      && |Decode(content).value.curves| == CurveOpenings(OutsideBlocks, FileLines(content))
  {
    if Decode(content).Ok? {
      DecodeHeader(SourceConversions, content, f);
      DecodeAxes(SourceConversions, content);
      DecodeCurveCount(SourceConversions, content);
    }
  }
}
