/** The IRTECON file decoder: one pass over the lines of the file, driven by
    three flags (inside the axis description, inside a curve, inside a
    curve's data section) and an ordered chain of line rules in which the
    first matching rule wins. */
module IrteconDecoder {
  import opened Results
  import opened PyStrings
  import opened IrteconRecords
  import opened IrteconLines

  /** The decoded file: three header strings, the axes, the curves. */
  datatype Document = Document(
    program: string,
    configurationFile: string,
    sampleName: string,
    axes: seq<Axis>,
    curves: seq<Curve>)

  const EmptyDocument := Document("", "", "", [], [])

  /** Which conversion raised, standing for the `ValueError` (or
      `IndexError`, for an axis line with too few words) of the source. */
  datatype ErrorKind = MalformedAxisLine | MalformedDataRow | MalformedTimestamp | MalformedDuration

  /** The failing conversion and the 0-based index of the line it was on. */
  type DecodeError = Failure<ErrorKind>

  /** `line[n:]`: empty when the line is shorter than `n`. */
  function Drop(line: string, n: nat): (r: string)
    ensures |line| >= n ==> r == line[n..]
    ensures |line| < n ==> r == ""
  {
    if |line| >= n then line[n..] else ""
  }

  /** The decoder's state between two lines: the document so far, the three
      flags, and the rows of the current curve's data section. */
  datatype State = State(
    doc: Document,
    axisDescriptionFound: bool,
    curveFound: bool,
    curveDataFound: bool,
    curveData: seq<seq<real>>)

  const Start := State(EmptyDocument, false, false, false, [])

  /** The state invariant: never inside both blocks, data only inside a
      curve, and a curve to write to whenever inside one. */
  predicate Inv(st: State) {
    && !(st.axisDescriptionFound && st.curveFound)
    && (st.curveDataFound ==> st.curveFound)
    && (st.curveFound ==> |st.doc.curves| > 0)
  }

  /** The states the decoder can be in. */
  type ValidState = st: State | Inv(st) witness Start

  /** Outside both blocks: where header lines and block openers count. */
  predicate Outside(st: State) {
    !st.axisDescriptionFound && !st.curveFound
  }

  function LastCurve(doc: Document): Curve
    requires |doc.curves| > 0
  {
    doc.curves[|doc.curves| - 1]
  }

  /** `self.curves[-1] = c` */
  function SetLastCurve(doc: Document, c: Curve): (d: Document)
    requires |doc.curves| > 0
    ensures |d.curves| == |doc.curves| && LastCurve(d) == c
    ensures d.curves[..|d.curves| - 1] == doc.curves[..|doc.curves| - 1]
    ensures d.axes == doc.axes && d.program == doc.program
    ensures d.configurationFile == doc.configurationFile && d.sampleName == doc.sampleName
  {
    doc.(curves := doc.curves[..|doc.curves| - 1] + [c])
  }

  /** A line of the file together with its kind. */
  datatype Line = Line(kind: LineKind, text: string)

  function Read(text: string): (l: Line)
    ensures l.text == text
  {
    Line(Classify(text), text)
  }

  /** The lines of a file, each with its kind. */
  function ReadAll(texts: seq<string>): (ls: seq<Line>)
    ensures |ls| == |texts|
  {
    seq(|texts|, i requires 0 <= i < |texts| => Read(texts[i]))
  }

  /** The conversions the rule chain applies to a line's text: an axis
      line to an axis (`IRTECONAxis`), a data row to its numbers, the text
      after the date marker to a timestamp (`parse_date`), the text after
      the time marker to a duration, and a legend line to its key. The state
      machine does not depend on what they compute, so it is stated for any
      conversions and `Decode` supplies the source's. */
  datatype Conversions = Conversions(
    axis: string -> Option<Axis>,
    row: string -> Option<seq<real>>,
    date: string -> Option<DateTime>,
    duration: string -> Option<real>,
    legend: string -> string)

  const SourceConversions := Conversions(ParseAxis, ParseRow, ParseDate, ParseDuration, LegendKey)

  /** One line of the file by the source's rule chain: the rules are tried
      in the source's order, each on the flags and the line's kind; the
      first that applies wins. */
  function Step(c: Conversions, st: ValidState, line: Line): (r: Result<ValidState, ErrorKind>)
    ensures r.Err? ==> st.axisDescriptionFound || st.curveDataFound || (st.curveFound && (line.kind == DateLine || line.kind == TimeLine))
  {
    var doc := st.doc;
    var k := line.kind;
    if Outside(st) && k == ProgramLine then
      Ok(st.(doc := doc.(program := Drop(line.text, |ProgramMarker|))))
    else if Outside(st) && k == ConfigLine then
      Ok(st.(doc := doc.(configurationFile := Drop(line.text, |ConfigMarker|))))
    else if Outside(st) && k == SampleLine then
      Ok(st.(doc := doc.(sampleName := Drop(line.text, |SampleMarker|))))
    else if st.axisDescriptionFound && k == AxisEndLine then
      Ok(st.(axisDescriptionFound := false))
    else if st.curveFound && k == CurveEndLine then
      var closed := st.(curveFound := false, curveDataFound := false);
      if |st.curveData| > 0 then
        Ok(closed.(doc := SetLastCurve(doc, LastCurve(doc).(data := st.curveData))))
      else
        Ok(closed)
    else if st.axisDescriptionFound && k == AxisLine then
      match c.axis(line.text)
      case Some(a) => Ok(st.(doc := doc.(axes := doc.axes + [a])))
      case None => Err(MalformedAxisLine)
    else if st.curveDataFound then
      match c.row(line.text)
      case Some(row) => Ok(st.(curveData := st.curveData + [row]))
      case None => Err(MalformedDataRow)
    else if Outside(st) && k == AxisStartLine then
      Ok(st.(axisDescriptionFound := true))
    else if Outside(st) && k == CurveStartLine then
      Ok(st.(doc := doc.(curves := doc.curves + [EmptyCurve]), curveFound := true, curveData := []))
    else if st.curveFound && k == DateLine then
      match c.date(Drop(line.text, |DateMarker|))
      case Some(t) => Ok(st.(doc := SetLastCurve(doc, LastCurve(doc).(time := t))))
      case None => Err(MalformedTimestamp)
    else if st.curveFound && k == TimeLine then
      match c.duration(Drop(line.text, |TimeMarker|))
      case Some(d) => Ok(st.(doc := SetLastCurve(doc, LastCurve(doc).(duration := d))))
      case None => Err(MalformedDuration)
    else if st.curveFound && k == LegendLine then
      Ok(st.(doc := SetLastCurve(doc, LastCurve(doc).(legendKey := c.legend(line.text)))))
    else if st.curveFound && k == DataStartLine then
      Ok(st.(curveDataFound := true))
    else
      Ok(st)
  }

  /** The pass over `lines`, the first of which has index `index` in the
      file; it stops at the first line whose conversion fails. */
  function Run(c: Conversions, st: ValidState, lines: seq<Line>, index: nat): Result<ValidState, DecodeError> {
    Fold(StepWith(c), st, lines, index)
  }

  /** The rule chain with its conversions fixed, as a function of the state
      and the line. */
  function StepWith(c: Conversions): (ValidState, Line) -> Result<ValidState, ErrorKind> {
    (s, l) => Step(c, s, l)
  }

  /** `IRTECONFile(file_content)` with the given conversions: the empty
      text gives the empty document, anything else is decoded line by line. */
  function DecodeWith(c: Conversions, content: string): (r: Result<Document, DecodeError>)
    ensures content == "" ==> r == Ok(EmptyDocument)
    ensures r.Err? ==> r.error.line < |SplitLines(content)|
  {
    if content == "" then Ok(EmptyDocument)
    else
      match Run(c, Start, ReadAll(SplitLines(content)), 0)
      case Ok(st) => Ok(st.doc)
      case Err(e) => Err(e)
  }

  /** `IRTECONFile(file_content)`: the decoder with the source's
      conversions. */
  function Decode(content: string): Result<Document, DecodeError> {
    DecodeWith(SourceConversions, content)
  }
}
