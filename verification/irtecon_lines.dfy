/** The line tests of the IRTECON decoder. Each rule of the decoder looks
    at the line with one test: a prefix, the whole line, or a prefix and a
    suffix. No line passes two of these tests, so every line has one kind,
    and the decoder's first-match rule chain can be read as a choice on the
    flags and that kind. */
module IrteconLines {
  import opened PyStrings

  // Line markers. The three header markers are 14 characters long and the
  // date and time markers 12, matching the slices the source takes.
  const ProgramMarker := " Program     :"
  const ConfigMarker := " Config      :"
  const SampleMarker := " Sample name :"
  const AxisStart := "#START axis description"
  const AxisEnd := "#END axis description"
  const AxisIndent := "  "
  const CurveHead := "#START Curve "
  const CurveStart := CurveHead + "description "
  const CurveEndPrefix := "#END Curve "
  const CurveEndSuffix := "----------------"
  const DateMarker := "#START Date:"
  const TimeMarker := "#START Time:"
  const LegendMarker := CurveHead + "Legend "
  const DataStart := CurveHead + "Data"

  /** The test the source applies to a line for one of its rules. */
  datatype Test = Prefix(p: string) | Exact(p: string) | PrefixAndSuffix(p: string, q: string)

  predicate Passes(line: string, t: Test) {
    match t
    case Prefix(p) => StartsWith(line, p)
    case Exact(p) => line == p
    case PrefixAndSuffix(p, q) => StartsWith(line, p) && EndsWith(line, q)
  }

  /** What a line is, by the one marker test it passes. */
  datatype LineKind =
    | ProgramLine | ConfigLine | SampleLine
    | AxisStartLine | AxisEndLine | AxisLine
    | CurveStartLine | CurveEndLine | DateLine | TimeLine | LegendLine | DataStartLine
    | OtherLine

  /** The marker tests, in the order the source's rule chain applies them. */
  const Tests: seq<(Test, LineKind)> := [
    (Prefix(ProgramMarker), ProgramLine),
    (Prefix(ConfigMarker), ConfigLine),
    (Prefix(SampleMarker), SampleLine),
    (Exact(AxisEnd), AxisEndLine),
    (PrefixAndSuffix(CurveEndPrefix, CurveEndSuffix), CurveEndLine),
    (Prefix(AxisIndent), AxisLine),
    (Exact(AxisStart), AxisStartLine),
    (Prefix(CurveStart), CurveStartLine),
    (Prefix(DateMarker), DateLine),
    (Prefix(TimeMarker), TimeLine),
    (Prefix(LegendMarker), LegendLine),
    (Exact(DataStart), DataStartLine)
  ]

  /** The kind of the first test from position `i` on that the line
      passes. */
  function ClassifyFrom(line: string, i: nat): LineKind
    requires i <= |Tests|
    decreases |Tests| - i
  {
    if i == |Tests| then OtherLine
    else if Passes(line, Tests[i].0) then Tests[i].1
    else ClassifyFrom(line, i + 1)
  }

  function Classify(line: string): LineKind {
    ClassifyFrom(line, 0)
  }

  /** The source's test for each kind of line. */
  function TestOf(k: LineKind): Test
    requires k != OtherLine
  {
    match k
    case ProgramLine => Prefix(ProgramMarker)
    case ConfigLine => Prefix(ConfigMarker)
    case SampleLine => Prefix(SampleMarker)
    case AxisEndLine => Exact(AxisEnd)
    case CurveEndLine => PrefixAndSuffix(CurveEndPrefix, CurveEndSuffix)
    case AxisLine => Prefix(AxisIndent)
    case AxisStartLine => Exact(AxisStart)
    case CurveStartLine => Prefix(CurveStart)
    case DateLine => Prefix(DateMarker)
    case TimeLine => Prefix(TimeMarker)
    case LegendLine => Prefix(LegendMarker)
    case DataStartLine => Exact(DataStart)
  }

  /** Where the three characters that tell the markers apart say a line
      belongs: the second character after a space; the sixth after `#E`;
      the eighth, and for curve sub-blocks the fourteenth, after `#S`. */
  function Signature(line: string): LineKind {
    if |line| < 2 then OtherLine
    else if line[0] == ' ' then
      if line[1] == 'P' then ProgramLine
      else if line[1] == 'C' then ConfigLine
      else if line[1] == 'S' then SampleLine
      else if line[1] == ' ' then AxisLine
      else OtherLine
    else if line[0] == '#' && line[1] == 'E' && |line| > 5 then
      if line[5] == 'a' then AxisEndLine
      else if line[5] == 'C' then CurveEndLine
      else OtherLine
    else if line[0] == '#' && line[1] == 'S' && |line| > 7 then
      if line[7] == 'a' then AxisStartLine
      else if line[7] == 'D' then DateLine
      else if line[7] == 'T' then TimeLine
      else if line[7] == 'C' && |line| > 13 then
        if line[13] == 'd' then CurveStartLine
        else if line[13] == 'L' then LegendLine
        else if line[13] == 'D' then DataStartLine
        else OtherLine
      else OtherLine
    else OtherLine
  }

  /** The text a line passing `t` begins with. */
  function Lead(t: Test): string {
    match t
    case Prefix(p) => p
    case Exact(p) => p
    case PrefixAndSuffix(p, _) => p
  }

  lemma PassesLead(line: string, t: Test)
    requires Passes(line, t)
    ensures |Lead(t)| <= |line| && line[..|Lead(t)|] == Lead(t)
  {
    if !t.Exact? {
      StartsWithSpec(line, Lead(t));
    }
  }

  lemma LeadChar(line: string, t: Test, i: nat)
    requires Passes(line, t) && i < |Lead(t)|
    ensures i < |line| && line[i] == Lead(t)[i]
  {
    PassesLead(line, t);
    assert line[..|Lead(t)|][i] == line[i];
  }

  /** A line passing a kind's test has that kind's signature. */
  lemma SignatureOfKind(line: string, k: LineKind)
    requires k != OtherLine && Passes(line, TestOf(k))
    ensures Signature(line) == k
  {
    var t := TestOf(k);
    LeadChar(line, t, 0);
    LeadChar(line, t, 1);
    if k in {ProgramLine, ConfigLine, SampleLine, AxisLine} {
    } else if k in {AxisEndLine, CurveEndLine} {
      SignatureOfEnd(line, k);
    } else {
      SignatureOfStart(line, k);
    }
  }

  lemma SignatureOfEnd(line: string, k: LineKind)
    requires k in {AxisEndLine, CurveEndLine} && Passes(line, TestOf(k))
    ensures Signature(line) == k
  {
    var t := TestOf(k);
    LeadChar(line, t, 0);
    LeadChar(line, t, 1);
    LeadChar(line, t, 5);
  }

  lemma SignatureOfStart(line: string, k: LineKind)
    requires k in {AxisStartLine, CurveStartLine, DateLine, TimeLine, LegendLine, DataStartLine}
    requires Passes(line, TestOf(k))
    ensures Signature(line) == k
  {
    var t := TestOf(k);
    LeadChar(line, t, 0);
    LeadChar(line, t, 1);
    LeadChar(line, t, 7);
    if k in {CurveStartLine, LegendLine, DataStartLine} {
      SignatureOfCurvePart(line, k);
    }
  }

  lemma SignatureOfCurvePart(line: string, k: LineKind)
    requires k in {CurveStartLine, LegendLine, DataStartLine} && Passes(line, TestOf(k))
    ensures Signature(line) == k
  {
    match k {
      case CurveStartLine => SignatureOfCurveStart(line);
      case LegendLine => SignatureOfLegend(line);
      case DataStartLine => SignatureOfDataStart(line);
    }
  }

  lemma SignatureOfCurveStart(line: string)
    requires Passes(line, TestOf(CurveStartLine))
    ensures Signature(line) == CurveStartLine
  {
    var t := TestOf(CurveStartLine);
    LeadChar(line, t, 0);
    LeadChar(line, t, 1);
    LeadChar(line, t, 7);
    LeadChar(line, t, 13);
    assert CurveStart[..13] == CurveHead;
    assert CurveStart[13] == 'd';
  }

  lemma SignatureOfLegend(line: string)
    requires Passes(line, TestOf(LegendLine))
    ensures Signature(line) == LegendLine
  {
    var t := TestOf(LegendLine);
    LeadChar(line, t, 0);
    LeadChar(line, t, 1);
    LeadChar(line, t, 7);
    LeadChar(line, t, 13);
    assert LegendMarker[..13] == CurveHead;
    assert LegendMarker[13] == 'L';
  }

  lemma SignatureOfDataStart(line: string)
    requires Passes(line, TestOf(DataStartLine))
    ensures Signature(line) == DataStartLine
  {
    var t := TestOf(DataStartLine);
    LeadChar(line, t, 0);
    LeadChar(line, t, 1);
    LeadChar(line, t, 7);
    LeadChar(line, t, 13);
    assert DataStart[..13] == CurveHead;
    assert DataStart[13] == 'D';
  }

  /** Each kind's test sits in the table at the kind's position. */
  function Position(k: LineKind): (j: nat)
    requires k != OtherLine
    ensures j < |Tests| && Tests[j] == (TestOf(k), k)
  {
    match k
    case ProgramLine => 0
    case ConfigLine => 1
    case SampleLine => 2
    case AxisEndLine => 3
    case CurveEndLine => 4
    case AxisLine => 5
    case AxisStartLine => 6
    case CurveStartLine => 7
    case DateLine => 8
    case TimeLine => 9
    case LegendLine => 10
    case DataStartLine => 11
  }

  lemma TableKinds(j: nat)
    requires j < |Tests|
    ensures Tests[j].1 != OtherLine && Position(Tests[j].1) == j
  {
  }

  lemma {:induction false} ClassifyFromFirst(line: string, i: nat, j: nat)
    requires i <= j < |Tests| && Passes(line, Tests[j].0)
    requires forall m :: i <= m < j ==> !Passes(line, Tests[m].0)
    ensures ClassifyFrom(line, i) == Tests[j].1
    decreases j - i
  {
    if i < j {
      ClassifyFromFirst(line, i + 1, j);
    }
  }

  lemma {:induction false} ClassifyFromPasses(line: string, i: nat)
    requires i <= |Tests|
    ensures ClassifyFrom(line, i) == OtherLine ==> forall m :: i <= m < |Tests| ==> !Passes(line, Tests[m].0)
    ensures ClassifyFrom(line, i) != OtherLine ==> Passes(line, TestOf(ClassifyFrom(line, i)))
    decreases |Tests| - i
  {
    if i < |Tests| {
      ClassifyFromPasses(line, i + 1);
      TableKinds(i);
    }
  }

  /** A line has kind `k` exactly when it passes the source's test for `k`,
      and is of no kind exactly when it passes none of them. */
  lemma ClassifySpec(line: string, k: LineKind)
    ensures k != OtherLine ==> (Classify(line) == k <==> Passes(line, TestOf(k)))
    ensures k == OtherLine ==> (Classify(line) == k <==> forall j :: 0 <= j < |Tests| ==> !Passes(line, Tests[j].0))
  {
    ClassifyFromPasses(line, 0);
    if k != OtherLine && Passes(line, TestOf(k)) {
      SignatureOfKind(line, k);
      forall m | 0 <= m < Position(k)
        ensures !Passes(line, Tests[m].0)
      {
        TableKinds(m);
        if Passes(line, Tests[m].0) {
          SignatureOfKind(line, Tests[m].1);
        }
      }
      ClassifyFromFirst(line, 0, Position(k));
    }
    if Classify(line) != OtherLine {
      TableKinds(Position(Classify(line)));
    }
  }
}
