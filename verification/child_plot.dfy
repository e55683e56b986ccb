/** The list and index logic of a plot window: the curve number list typed
    into the "Delete Curves" dialog, deleting curves by number, by the last
    or all of them, the colour each curve is drawn in, the sides the axes
    of a file are shown on, and the names of new windows. The dialogs'
    answers are parameters; the plotted curve items are left abstract. */
module ChildPlot {
  import opened Results
  import opened PyStrings
  import opened PyNumbers
  import opened IrteconRecords

  // ---------------------------------------------------------------------
  // Curve number lists: "1,3-5"

  predicate Increasing(xs: seq<int>) {
    forall i, j :: 0 <= i < j < |xs| ==> xs[i] < xs[j]
  }

  /** `xs` with `x` added in its place; nothing is added twice. */
  function Insert(xs: seq<int>, x: int): (r: seq<int>)
    requires Increasing(xs)
    ensures Increasing(r)
    ensures forall y :: y in r <==> y in xs || y == x
    decreases |xs|
  {
    if |xs| == 0 then [x]
    else if x < xs[0] then [x] + xs
    else if x == xs[0] then xs
    else
      var tail := Insert(xs[1..], x);
      assert forall k :: 0 <= k < |tail| ==> xs[0] < tail[k] by {
        forall k | 0 <= k < |tail|
          ensures xs[0] < tail[k]
        {
          assert tail[k] in tail;
          if tail[k] != x {
            var m :| 0 <= m < |xs| - 1 && xs[1..][m] == tail[k];
            assert xs[m + 1] == tail[k];
          }
        }
      }
      [xs[0]] + tail
  }

  /** `result.update(range(lo, hi + 1))` on the sorted form of a set. */
  function InsertRange(xs: seq<int>, lo: int, hi: int): (r: seq<int>)
    requires Increasing(xs)
    ensures Increasing(r)
    ensures forall y :: y in r <==> y in xs || lo <= y <= hi
    decreases hi - lo
  {
    if lo > hi then xs else InsertRange(Insert(xs, lo), lo + 1, hi)
  }

  /** The first and last number of one comma-separated part: the text
      before the first `-` and after the last, each through `int()`. A part
      without `-` names one number. */
  function PartRange(part: string): Option<(int, int)> {
    var x := SplitOn(part, '-');
    match (ParseInt(x[0]), ParseInt(x[|x| - 1]))
    case (Some(lo), Some(hi)) => Some((lo, hi))
    case _ => None
  }

  /** `y` is one of the numbers a part names. */
  predicate InPart(part: string, y: int) {
    PartRange(part).Some? && PartRange(part).value.0 <= y <= PartRange(part).value.1
  }

  /** The numbers of `parts` added to `acc`, or nothing when a part has a
      piece that is not an integer. */
  function Collect(acc: seq<int>, parts: seq<string>): (r: Option<seq<int>>)
    requires Increasing(acc)
    ensures r.Some? ==> Increasing(r.value)
    decreases |parts|
  {
    if |parts| == 0 then Some(acc)
    else
      match PartRange(parts[0])
      case None => None
      case Some((lo, hi)) => Collect(InsertRange(acc, lo, hi), parts[1..])
  }

  /** `parse_range()`: the sorted numbers the list names, or nothing where
      the source raises `ValueError`. */
  function ParseRange(ranges: string): (r: Option<seq<int>>)
    ensures r.Some? ==> Increasing(r.value)
  {
    Collect([], Parts(ranges))
  }

  /** `ranges.split(',')` */
  function Parts(ranges: string): seq<string> {
    SplitOn(ranges, ',')
  }

  lemma {:induction false} CollectParses(acc: seq<int>, parts: seq<string>)
    requires Increasing(acc)
    ensures Collect(acc, parts).Some? <==> forall i :: 0 <= i < |parts| ==> PartRange(parts[i]).Some?
    decreases |parts|
  {
    if |parts| > 0 {
      assert forall i :: 1 <= i < |parts| ==> parts[i] == parts[1..][i - 1];
      if PartRange(parts[0]).Some? {
        var (lo, hi) := PartRange(parts[0]).value;
        CollectParses(InsertRange(acc, lo, hi), parts[1..]);
      }
    }
  }

  lemma {:induction false} CollectMembers(acc: seq<int>, parts: seq<string>, y: int)
    requires Increasing(acc) && Collect(acc, parts).Some?
    ensures y in Collect(acc, parts).value <==> y in acc || exists i :: 0 <= i < |parts| && InPart(parts[i], y)
    decreases |parts|
  {
    if |parts| > 0 {
      var (lo, hi) := PartRange(parts[0]).value;
      var next := InsertRange(acc, lo, hi);
      CollectMembers(next, parts[1..], y);
      if exists i :: 0 <= i < |parts| && InPart(parts[i], y) {
        var i :| 0 <= i < |parts| && InPart(parts[i], y);
        if i > 0 {
          assert InPart(parts[1..][i - 1], y);
        }
      }
      if exists i :: 0 <= i < |parts[1..]| && InPart(parts[1..][i], y) {
        var i :| 0 <= i < |parts[1..]| && InPart(parts[1..][i], y);
        assert InPart(parts[i + 1], y);
      }
    }
  }

  /** The list parses exactly when every comma-separated part does; it
      then names, in increasing order and once each, every number of every
      part and nothing else. */
  lemma ParseRangeSpec(ranges: string)
    ensures ParseRange(ranges).Some? <==> forall i :: 0 <= i < |Parts(ranges)| ==> PartRange(Parts(ranges)[i]).Some?
    ensures ParseRange(ranges).Some? ==> forall y ::
      y in ParseRange(ranges).value <==> exists i :: 0 <= i < |Parts(ranges)| && InPart(Parts(ranges)[i], y)
  {
    var parts := Parts(ranges);
    var r := Collect([], parts);
    assert ParseRange(ranges) == r;
    CollectParses([], parts);
    if r.Some? {
      forall y | true
        ensures y in r.value <==> exists i :: 0 <= i < |parts| && InPart(parts[i], y)
      {
        CollectMembers([], parts, y);
      }
    }
  }

  // ---------------------------------------------------------------------
  // Deleting curves

  /** A plot window's curves and whether it has unsaved changes. The curve
      items are left abstract. */
  datatype Window<C> = Window(curves: seq<C>, modified: bool)

  /** The reference for deletion by number: the curves, numbered from
      `first`, whose number is not listed, in their order. */
  function Survivors<C>(cs: seq<C>, numbers: seq<int>, first: int): (r: seq<C>)
    ensures |r| <= |cs|
    decreases |cs|
  {
    if |cs| == 0 then []
    else (if first in numbers then [] else [cs[0]]) + Survivors(cs[1..], numbers, first + 1)
  }

  lemma {:induction false} SurvivorsOfNone<C>(cs: seq<C>, first: int)
    ensures Survivors(cs, [], first) == cs
    decreases |cs|
  {
    if |cs| > 0 {
      SurvivorsOfNone(cs[1..], first + 1);
      assert [cs[0]] + cs[1..] == cs;
    }
  }

  /** A number below every curve's number deletes nothing. */
  lemma {:induction false} SurvivorsBelow<C>(cs: seq<C>, n: int, numbers: seq<int>, first: int)
    requires n < first
    ensures Survivors(cs, [n] + numbers, first) == Survivors(cs, numbers, first)
    decreases |cs|
  {
    if |cs| > 0 {
      SurvivorsBelow(cs[1..], n, numbers, first + 1);
      assert first in [n] + numbers <==> first in numbers;
    }
  }

  /** Deleting number `n`, below every number already deleted, removes the
      survivor at position `n - first` if there is one, and otherwise
      nothing. */
  lemma {:induction false} DeleteBelow<C>(cs: seq<C>, n: int, numbers: seq<int>, first: int)
    requires forall d :: d in numbers ==> n < d
    ensures var r := Survivors(cs, numbers, first);
      var i := n - first;
      Survivors(cs, [n] + numbers, first) == if 0 <= i < |r| then r[..i] + r[i + 1..] else r
    decreases |cs|
  {
    var r := Survivors(cs, numbers, first);
    if |cs| == 0 {
    } else if n < first {
      SurvivorsBelow(cs, n, numbers, first);
    } else if n == first {
      SurvivorsBelow(cs[1..], n, numbers, first + 1);
      assert first !in numbers;
      assert r[1..] == Survivors(cs[1..], numbers, first + 1);
    } else {
      DeleteBelow(cs[1..], n, numbers, first + 1);
      assert first !in numbers && first !in [n] + numbers;
      var rest := Survivors(cs[1..], numbers, first + 1);
      assert r == [cs[0]] + rest;
      var i := n - first;
      if 0 <= i < |r| {
        assert r[..i] == [cs[0]] + rest[..i - 1];
        assert r[i + 1..] == rest[i..];
        assert r[..i] + r[i + 1..] == [cs[0]] + (rest[..i - 1] + rest[i..]);
      }
    }
  }

  /** Deletes the curves whose 1-based number is listed, from the highest
      number down, ignoring numbers with no curve. */
  method DeleteNumbered<C>(curves: seq<C>, numbers: seq<int>) returns (r: seq<C>)
    requires Increasing(numbers)
    ensures r == Survivors(curves, numbers, 1)
  {
    SurvivorsOfNone(curves, 1);
    r := curves;
    var k := |numbers|;
    assert numbers[k..] == [];
    while k > 0
      invariant 0 <= k <= |numbers|
      invariant r == Survivors(curves, numbers[k..], 1)
    {
      k := k - 1;
      var index := numbers[k] - 1;
      DeleteBelow(curves, numbers[k], numbers[k + 1..], 1);
      assert numbers[k..] == [numbers[k]] + numbers[k + 1..];
      if 0 <= index < |r| {
        r := r[..index] + r[index + 1..];
      }
    }
    assert numbers[0..] == numbers;
  }

  /** `delete_curves`: nothing happens to a window without curves or when
      the dialog is cancelled; a list that does not parse raises before any
      curve is deleted; otherwise the listed curves go and the window is
      marked modified. */
  method DeleteCurves<C>(w: Window<C>, ranges: string, ok: bool) returns (r: Option<Window<C>>)
    ensures |w.curves| == 0 || !ok ==> r == Some(w)
    ensures |w.curves| > 0 && ok && ParseRange(ranges).None? ==> r.None?
    ensures |w.curves| > 0 && ok && ParseRange(ranges).Some? ==>
      r == Some(Window(Survivors(w.curves, ParseRange(ranges).value, 1), true))
  {
    if |w.curves| == 0 || !ok {
      return Some(w);
    }
    match ParseRange(ranges) {
      case None =>
        r := None;
      case Some(numbers) =>
        var kept := DeleteNumbered(w.curves, numbers);
        r := Some(Window(kept, true));
    }
  }

  /** `delete_last_curve`, with the answer to its question. */
  function DeleteLastCurve<C>(w: Window<C>, confirmed: bool): (r: Window<C>)
    ensures |w.curves| == 0 || !confirmed ==> r == w
    ensures |w.curves| > 0 && confirmed ==> r.modified && |r.curves| == |w.curves| - 1
  {
    if |w.curves| == 0 || !confirmed then w
    else Window(w.curves[..|w.curves| - 1], true)
  }

  /** `xs` backwards. */
  function Reverse<T>(xs: seq<T>): (r: seq<T>)
    ensures |r| == |xs|
    decreases |xs|
  {
    if |xs| == 0 then [] else Reverse(xs[1..]) + [xs[0]]
  }

  /** Each element of `xs` sits at the mirrored place of `Reverse(xs)`. */
  lemma {:induction false} ReverseAt<T>(xs: seq<T>)
    ensures forall i :: 0 <= i < |xs| ==> Reverse(xs)[i] == xs[|xs| - 1 - i]
    decreases |xs|
  {
    if |xs| > 0 {
      ReverseAt(xs[1..]);
    }
  }

  /** `delete_all_curves`, with the answer to its question: the last curve
      is deleted until none is left. `removed` lists the curves in the
      order their legend entries are removed and their data cleared, which
      is the window's curves backwards. */
  method DeleteAllCurves<C>(w: Window<C>, confirmed: bool) returns (r: Window<C>, removed: seq<C>)
    ensures |w.curves| == 0 || !confirmed ==> r == w && removed == []
    ensures |w.curves| > 0 && confirmed ==> r == Window([], true) && removed == Reverse(w.curves)
    ensures |removed| > 0 ==> |removed| == |w.curves| && forall i :: 0 <= i < |removed| ==> removed[i] == w.curves[|w.curves| - 1 - i]
  {
    if |w.curves| == 0 || !confirmed {
      return w, [];
    }
    var curves := w.curves;
    removed := [];
    while |curves| > 0
      invariant curves == w.curves[..|curves|]
      invariant removed == Reverse(w.curves[|curves|..])
    {
      var n := |curves| - 1;
      assert w.curves[n..] == [w.curves[n]] + w.curves[n + 1..];
      removed := removed + [curves[n]];
      curves := curves[..n];
    }
    assert w.curves[0..] == w.curves;
    ReverseAt(w.curves);
    r := Window(curves, true);
  }

  /** The numbers of every curve from `first` on. */
  function Numbers(first: int, count: nat): (ns: seq<int>)
    ensures |ns| == count
    decreases count
  {
    if count == 0 then [] else [first] + Numbers(first + 1, count - 1)
  }

  lemma {:induction false} NumbersContain(first: int, count: nat, n: int)
    ensures n in Numbers(first, count) <==> first <= n < first + count
    decreases count
  {
    if count > 0 {
      NumbersContain(first + 1, count - 1, n);
    }
  }

  lemma {:induction false} SurvivorsOfAll<C>(cs: seq<C>, numbers: seq<int>, first: int)
    requires forall n :: first <= n < first + |cs| ==> n in numbers
    ensures Survivors(cs, numbers, first) == []
    decreases |cs|
  {
    if |cs| > 0 {
      SurvivorsOfAll(cs[1..], numbers, first + 1);
    }
  }

  lemma {:induction false} SurvivorsOfLast<C>(cs: seq<C>, first: int)
    requires |cs| > 0
    ensures Survivors(cs, [first + |cs| - 1], first) == cs[..|cs| - 1]
    decreases |cs|
  {
    if |cs| == 1 {
      assert Survivors(cs[1..], [first], first + 1) == [];
    } else {
      SurvivorsOfLast(cs[1..], first + 1);
      assert cs[1..][..|cs| - 2] == cs[1..|cs| - 1];
      assert [cs[0]] + cs[1..|cs| - 1] == cs[..|cs| - 1];
    }
  }

  /** Deleting the last curve is deleting the curve numbered with the
      number of curves, and deleting all curves is deleting every number
      from 1 to that count. */
  lemma DeleteLastAndAllAreDeletionsByNumber<C>(w: Window<C>)
    requires |w.curves| > 0
    ensures DeleteLastCurve(w, true).curves == Survivors(w.curves, [|w.curves|], 1)
    ensures Survivors(w.curves, Numbers(1, |w.curves|), 1) == []
  {
    SurvivorsOfLast(w.curves, 1);
    forall n | 1 <= n < 1 + |w.curves|
      ensures n in Numbers(1, |w.curves|)
    {
      NumbersContain(1, |w.curves|, n);
    }
    SurvivorsOfAll(w.curves, Numbers(1, |w.curves|), 1);
  }

  // ---------------------------------------------------------------------
  // Drawing

  const LineColors: seq<char> := ['r', 'g', 'b', 'c', 'm', 'y', 'w']

  /** The pen colour of the curve at `index` in the file. */
  function LineColor(index: nat): char {
    LineColors[index % |LineColors|]
  }

  /** Colours repeat every seven curves, and any seven consecutive curves
      have seven different colours. */
  lemma LineColorCycle(i: nat, j: nat)
    ensures LineColor(i + |LineColors|) == LineColor(i)
    ensures i < j < i + |LineColors| ==> LineColor(i) != LineColor(j)
  {
    assert (i + 7) % 7 == i % 7;
    if i < j < i + 7 {
      assert i % 7 != j % 7;
    }
  }

  /** The sides of the plot an axis can be shown on. */
  datatype Side = Bottom | Left | Right

  /** `AXES_NAMES.get(index)` */
  function SideOf(index: int): Option<Side> {
    if index == 2 then Some(Bottom)
    else if index == 3 then Some(Left)
    else if index == 4 then Some(Right)
    else None
  }

  /** Only axes 2, 3 and 4 are shown, each on its own side. */
  lemma SideOfSpec(a: int, b: int)
    ensures SideOf(a).Some? <==> 2 <= a <= 4
    ensures SideOf(a).Some? && SideOf(a) == SideOf(b) ==> a == b
  {
  }

  /** The label of a shown side: the axis name and unit. */
  type Labels = map<Side, (string, string)>

  /** The sides shown after a file's axes are applied in order, with their
      labels: each axis on a side shows that side and sets its label. */
  function ShownAxes(axes: seq<Axis>): Labels
    decreases |axes|
  {
    if |axes| == 0 then map[]
    else
      var shown := ShownAxes(axes[..|axes| - 1]);
      var ax := axes[|axes| - 1];
      match SideOf(ax.axis)
      case Some(s) => shown[s := (ax.name, ax.unit)]
      case None => shown
  }

  /** The axis at `i` is the last one on side `s`. */
  predicate LastOnSide(axes: seq<Axis>, s: Side, i: int) {
    && 0 <= i < |axes|
    && SideOf(axes[i].axis) == Some(s)
    && forall j :: i < j < |axes| ==> SideOf(axes[j].axis) != Some(s)
  }

  /** A side is shown exactly when some axis is on it, and it is labelled
      with the name and unit of the last axis on it. */
  lemma {:induction false} ShownAxesSpec(axes: seq<Axis>, s: Side)
    ensures s in ShownAxes(axes) <==> exists i :: 0 <= i < |axes| && SideOf(axes[i].axis) == Some(s)
    ensures s in ShownAxes(axes) ==> exists i :: LastOnSide(axes, s, i) && ShownAxes(axes)[s] == (axes[i].name, axes[i].unit)
    decreases |axes|
  {
    if |axes| > 0 {
      var n := |axes| - 1;
      var front := axes[..n];
      ShownAxesSpec(front, s);
      assert forall i :: 0 <= i < n ==> front[i] == axes[i];
      if SideOf(axes[n].axis) == Some(s) {
        assert LastOnSide(axes, s, n);
      } else if s in ShownAxes(front) {
        var i :| LastOnSide(front, s, i) && ShownAxes(front)[s] == (front[i].name, front[i].unit);
        assert LastOnSide(axes, s, i);
      }
    }
  }

  // ---------------------------------------------------------------------
  // New windows

  /** A new, untitled window's file name and title. */
  datatype NewWindow = NewWindow(curFile: string, title: string, untitled: bool, modified: bool)

  /** `new_file`: the window is named after the counter, which then moves
      on by one. */
  function NewFile(counter: nat): (r: (NewWindow, nat))
    ensures r.1 == counter + 1
    ensures r.0.untitled && r.0.modified
    ensures r.0.title == r.0.curFile + "[*]"
  {
    var name := "Plot " + NatToString(counter);
    (NewWindow(name, name + "[*]", true, true), counter + 1)
  }

  /** The number in a new window's name reads back as the counter, so
      windows made with different counter values have different names. */
  lemma NewFileNames(n: nat, m: nat)
    ensures var name := NewFile(n).0.curFile;
      |name| > 5 && name[..5] == "Plot " && ParseInt(name[5..]) == Some(n as int)
    ensures n != m ==> NewFile(n).0.curFile != NewFile(m).0.curFile
  {
    var a := NewFile(n).0.curFile;
    var b := NewFile(m).0.curFile;
    ParseIntOfIntToString(n);
    ParseIntOfIntToString(m);
    assert a[5..] == NatToString(n);
    assert b[5..] == NatToString(m);
  }
}
