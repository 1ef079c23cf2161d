/** SVG path commands (graphics/src/SVGLoader.cc): splitting a path into subpaths, expanding repeated commands, and
    drawing a subpath as a polyline. */
module SvgPaths {
  import opened Stitching

  datatype Command = Command(cmd: char, numbers: seq<real>)

  /** How curves are sampled: the points added after the first one. */
  datatype Sampling = Sampling(
    bezier: (Point, Point, Point, Point) -> seq<Point>,
    arc: (Point, real, real, real, real, real, Point) -> seq<Point>)

  datatype Pen = Pen(last: Point, polyline: seq<Point>)

  function Lower(c: char): char {
    if 'A' <= c <= 'Z' then c - 'A' + 'a' else c
  }

  /** How many numbers one use of a command takes; 0 for the commands that are not expanded. */
  function NumberCount(c: char): nat {
    match Lower(c)
    case 'a' => 7
    case 'c' => 6
    case 'm' => 2
    case 'l' => 2
    case 'v' => 1
    case 'h' => 1
    case _ => 0
  }

  /** Whether m numbers are a whole number of groups of n. */
  predicate IsMultiple(m: nat, n: nat)
    requires 0 < n
  {
    m == 0 || (n <= m && IsMultiple(m - n, n))
  }

  lemma {:induction false} MultipleHasQuotient(m: nat, n: nat) returns (q: nat)
    requires 0 < n && IsMultiple(m, n)
    ensures m == n * q
  {
    if m == 0 {
      q := 0;
    } else {
      q := MultipleHasQuotient(m - n, n);
      assert n * (q + 1) == n * q + n;
      q := q + 1;
    }
  }

  lemma {:induction false} ProductIsMultiple(n: nat, q: nat)
    requires 0 < n
    ensures IsMultiple(n * q, n)
  {
    if q != 0 {
      ProductIsMultiple(n, q - 1);
      assert n * q == n * (q - 1) + n;
    }
  }

  lemma IsMultipleIffProduct(m: nat, n: nat)
    requires 0 < n
    ensures IsMultiple(m, n) <==> exists q: nat :: m == n * q
  {
    if IsMultiple(m, n) {
      var q := MultipleHasQuotient(m, n);
    }
    if q: nat :| m == n * q {
      ProductIsMultiple(n, q);
    }
  }

  /** The commands that are expanded have whole groups of numbers, the others none. */
  predicate WellFormed(x: Command) {
    var n := NumberCount(x.cmd);
    if n == 0 then x.numbers == [] else IsMultiple(|x.numbers|, n)
  }

  predicate AllWellFormed(cmds: seq<Command>) {
    forall k :: 0 <= k < |cmds| ==> WellFormed(cmds[k])
  }

  // -------- expansion --------

  /** One command for each group of n numbers from position k on. */
  function Groups(x: Command, n: nat, k: nat): seq<Command>
    requires 0 < n && k <= |x.numbers| && IsMultiple(|x.numbers| - k, n)
    decreases |x.numbers| - k
  {
    if k == |x.numbers| then []
    else [Command(x.cmd, x.numbers[k..k+n])] + Groups(x, n, k + n)
  }

  function ExpandedCommand(x: Command): seq<Command>
    requires WellFormed(x)
  {
    if Lower(x.cmd) == 'z' then [x]
    else if NumberCount(x.cmd) == 0 then []
    else Groups(x, NumberCount(x.cmd), 0)
  }

  function Expanded(cmds: seq<Command>): seq<Command>
    requires AllWellFormed(cmds)
  {
    if cmds == [] then [] else ExpandedCommand(cmds[0]) + Expanded(cmds[1..])
  }

  // -------- drawing --------

  function Shifted(p: Point, offset: Point): Point {
    Point(p.x + offset.x, p.y + offset.y)
  }

  /** One use of a command with the numbers that start at position i. */
  function DrawGroup(f: Sampling, pen: Pen, c: char, v: seq<real>, i: nat): Pen
    requires i + NumberCount(c) <= |v|
  {
    var origin := Point(0.0, 0.0);
    match c
    case 'm' => var p := Shifted(Point(v[i], v[i+1]), pen.last); Pen(p, pen.polyline + [p])
    case 'l' => var p := Shifted(Point(v[i], v[i+1]), pen.last); Pen(p, pen.polyline + [p])
    case 'M' => var p := Point(v[i], v[i+1]); Pen(p, pen.polyline + [p])
    case 'L' => var p := Point(v[i], v[i+1]); Pen(p, pen.polyline + [p])
    case 'C' =>
      var p1, p2, p3 := Point(v[i], v[i+1]), Point(v[i+2], v[i+3]), Point(v[i+4], v[i+5]);
      Pen(p3, pen.polyline + f.bezier(pen.last, p1, p2, p3))
    case 'c' =>
      var p1 := Shifted(Point(v[i], v[i+1]), pen.last);
      var p2 := Shifted(Point(v[i+2], v[i+3]), pen.last);
      var p3 := Shifted(Point(v[i+4], v[i+5]), pen.last);
      Pen(p3, pen.polyline + f.bezier(pen.last, p1, p2, p3))
    case 'A' =>
      var end := Point(v[i+5], v[i+6]);
      Pen(end, pen.polyline + f.arc(pen.last, v[i], v[i+1], v[i+2], v[i+3], v[i+4], end))
    case 'a' =>
      var end := Shifted(Point(v[i+5], v[i+6]), pen.last);
      Pen(end, pen.polyline + f.arc(pen.last, v[i], v[i+1], v[i+2], v[i+3], v[i+4], end))
    case _ => pen
  }

  /** Closing a path adds its first point, unless that is where it is. */
  function ClosePath(polyline: seq<Point>): seq<Point> {
    if polyline != [] && 0.0000000001 < SquaredDistance(polyline[|polyline|-1], polyline[0]) then polyline + [polyline[0]]
    else polyline
  }

  function DrawGroups(f: Sampling, pen: Pen, x: Command, i: nat): Pen
    requires 0 < NumberCount(x.cmd) && i <= |x.numbers| && IsMultiple(|x.numbers| - i, NumberCount(x.cmd))
    decreases |x.numbers| - i
  {
    if i == |x.numbers| then pen
    else DrawGroups(f, DrawGroup(f, pen, x.cmd, x.numbers, i), x, i + NumberCount(x.cmd))
  }

  function DrawCommand(f: Sampling, pen: Pen, x: Command): Pen
    requires WellFormed(x)
  {
    if Lower(x.cmd) == 'z' then pen.(polyline := ClosePath(pen.polyline))
    else if NumberCount(x.cmd) == 0 then pen
    else DrawGroups(f, pen, x, 0)
  }

  function Draw(f: Sampling, pen: Pen, cmds: seq<Command>): Pen
    requires AllWellFormed(cmds)
    decreases |cmds|
  {
    if cmds == [] then pen else Draw(f, DrawCommand(f, pen, cmds[0]), cmds[1..])
  }

  // -------- expansion preserves the drawing --------

  lemma {:induction false} DrawAppend(f: Sampling, pen: Pen, a: seq<Command>, b: seq<Command>)
    requires AllWellFormed(a) && AllWellFormed(b)
    ensures AllWellFormed(a + b) && Draw(f, pen, a + b) == Draw(f, Draw(f, pen, a), b)
    decreases |a|
  {
    if a == [] {
      assert a + b == b;
    } else {
      assert (a + b)[1..] == a[1..] + b;
      DrawAppend(f, DrawCommand(f, pen, a[0]), a[1..], b);
    }
  }

  lemma SingleGroup(f: Sampling, pen: Pen, x: Command, n: nat, k: nat)
    requires n == NumberCount(x.cmd) && 0 < n && k + n <= |x.numbers|
    ensures var one := Command(x.cmd, x.numbers[k..k+n]);
      WellFormed(one) && DrawCommand(f, pen, one) == DrawGroup(f, pen, x.cmd, x.numbers, k)
  {
    var one := Command(x.cmd, x.numbers[k..k+n]);
    assert IsMultiple(n, n);
    assert DrawGroup(f, pen, x.cmd, one.numbers, 0) == DrawGroup(f, pen, x.cmd, x.numbers, k) by {
      assert forall j :: 0 <= j < n ==> one.numbers[j] == x.numbers[k + j];
    }
    assert DrawGroups(f, pen, one, 0) == DrawGroups(f, DrawGroup(f, pen, x.cmd, one.numbers, 0), one, n);
  }

  lemma {:induction false} GroupsDrawn(f: Sampling, pen: Pen, x: Command, k: nat)
    requires 0 < NumberCount(x.cmd) && k <= |x.numbers| && IsMultiple(|x.numbers| - k, NumberCount(x.cmd))
    ensures var cmds := Groups(x, NumberCount(x.cmd), k);
      AllWellFormed(cmds) && Draw(f, pen, cmds) == DrawGroups(f, pen, x, k)
    decreases |x.numbers| - k
  {
    hide DrawGroup, DrawCommand, NumberCount;
    var n := NumberCount(x.cmd);
    if k < |x.numbers| {
      SingleGroup(f, pen, x, n, k);
      GroupsDrawn(f, DrawGroup(f, pen, x.cmd, x.numbers, k), x, k + n);
    }
  }

  lemma ExpandedCommandDrawn(f: Sampling, pen: Pen, x: Command)
    requires WellFormed(x)
    ensures AllWellFormed(ExpandedCommand(x)) && Draw(f, pen, ExpandedCommand(x)) == DrawCommand(f, pen, x)
  {
    hide DrawGroup, ClosePath;
    if Lower(x.cmd) == 'z' {
      assert [x][1..] == [];
    } else if NumberCount(x.cmd) != 0 {
      GroupsDrawn(f, pen, x, 0);
    }
  }

  /** Drawing the expanded commands gives the same polyline, and ends at the same point, as drawing the repeated ones. */
  lemma {:induction false} ExpansionPreservesDrawing(f: Sampling, pen: Pen, cmds: seq<Command>)
    requires AllWellFormed(cmds)
    ensures AllWellFormed(Expanded(cmds)) && Draw(f, pen, Expanded(cmds)) == Draw(f, pen, cmds)
    decreases |cmds|
  {
    hide DrawCommand, ExpandedCommand, WellFormed;
    if cmds != [] {
      ExpandedCommandDrawn(f, pen, cmds[0]);
      var next := DrawCommand(f, pen, cmds[0]);
      ExpansionPreservesDrawing(f, next, cmds[1..]);
      DrawAppend(f, pen, ExpandedCommand(cmds[0]), Expanded(cmds[1..]));
    }
  }

  // -------- subpaths --------

  predicate IsMove(c: char) {
    Lower(c) == 'm'
  }

  predicate Subpath(cmds: seq<Command>) {
    cmds != [] && IsMove(cmds[0].cmd) && forall k :: 1 <= k < |cmds| ==> !IsMove(cmds[k].cmd)
  }

  ghost function Joined(subpaths: seq<seq<Command>>): seq<Command> {
    if subpaths == [] then [] else Joined(subpaths[..|subpaths|-1]) + subpaths[|subpaths|-1]
  }

  /** A path is split before each move. The first command is a move: there is no subpath to add another one to. */
  method SplitSubpaths(cmds: seq<Command>) returns (ok: bool, subpaths: seq<seq<Command>>)
    requires cmds != [] ==> IsMove(cmds[0].cmd)
    ensures ok <==> cmds != []
    ensures Joined(subpaths) == cmds
    ensures forall k :: 0 <= k < |subpaths| ==> Subpath(subpaths[k])
  {
    hide IsMove, Joined;
    NothingJoined();
    subpaths := [];
    if cmds == [] {
      return false, subpaths;
    }
    for k := 0 to |cmds|
      invariant Joined(subpaths) == cmds[..k]
      invariant subpaths == [] <==> k == 0
      invariant forall j :: 0 <= j < |subpaths| ==> Subpath(subpaths[j])
    {
      var cmd := cmds[k];
      assert cmds[..k+1] == cmds[..k] + [cmd];
      if IsMove(cmd.cmd) {
        JoinedAppend(subpaths, [cmd]);
        subpaths := subpaths + [[cmd]];
      } else {
        var n := |subpaths| - 1;
        var last := subpaths[n] + [cmd];
        assert Subpath(last);
        JoinedLast(subpaths, cmd);
        subpaths := subpaths[..n] + [last];
      }
    }
    assert cmds[..|cmds|] == cmds;
    return true, subpaths;
  }

  lemma NothingJoined()
    ensures Joined([]) == []
  {
  }

  lemma JoinedLast(subpaths: seq<seq<Command>>, cmd: Command)
    requires subpaths != []
    ensures var n := |subpaths| - 1; Joined(subpaths[..n] + [subpaths[n] + [cmd]]) == Joined(subpaths) + [cmd]
  {
    hide Joined;
    var n := |subpaths| - 1;
    JoinedAppend(subpaths[..n], subpaths[n] + [cmd]);
    JoinedAppend(subpaths[..n], subpaths[n]);
    SplitLast(subpaths);
    Regrouped(Joined(subpaths[..n]), subpaths[n], [cmd]);
  }

  lemma SplitLast<T>(s: seq<T>)
    requires s != []
    ensures s[..|s|-1] + [s[|s|-1]] == s
  {
  }

  lemma Regrouped<T>(a: seq<T>, b: seq<T>, c: seq<T>)
    ensures a + b + c == a + (b + c)
  {
  }

  lemma JoinedAppend(subpaths: seq<seq<Command>>, last: seq<Command>)
    ensures Joined(subpaths + [last]) == Joined(subpaths) + last
  {
    assert (subpaths + [last])[..|subpaths|] == subpaths;
  }

  // -------- the code --------

  method ExpandCommands(compressed: seq<seq<Command>>) returns (subpaths: seq<seq<Command>>)
    requires forall k :: 0 <= k < |compressed| ==> AllWellFormed(compressed[k])
    ensures |subpaths| == |compressed|
    ensures forall k :: 0 <= k < |compressed| ==> subpaths[k] == Expanded(compressed[k])
  {
    hide Expanded, WellFormed, AllWellFormed;
    subpaths := [];
    for k := 0 to |compressed|
      invariant |subpaths| == k && forall j :: 0 <= j < k ==> subpaths[j] == Expanded(compressed[j])
    {
      var subpath := ExpandSubpath(compressed[k]);
      subpaths := subpaths + [subpath];
    }
  }

  method ExpandSubpath(compressed: seq<Command>) returns (subpath: seq<Command>)
    requires AllWellFormed(compressed)
    ensures subpath == Expanded(compressed)
  {
    hide ExpandedCommand, WellFormed;
    subpath := [];
    for k := 0 to |compressed|
      invariant subpath + Expanded(compressed[k..]) == Expanded(compressed)
    {
      assert compressed[k..][0] == compressed[k] && compressed[k..][1..] == compressed[k+1..];
      var cmds := ExpandOne(compressed[k]);
      subpath := subpath + cmds;
    }
  }

  method ExpandOne(x: Command) returns (cmds: seq<Command>)
    requires WellFormed(x)
    ensures cmds == ExpandedCommand(x)
  {
    cmds := [];
    var numberCount := NumberCount(x.cmd);
    if Lower(x.cmd) == 'z' {
      cmds := cmds + [x];
    }
    var n := 0;
    ghost var first := cmds;
    assert Lower(x.cmd) == 'z' ==> numberCount == 0;
    hide NumberCount;
    while n < |x.numbers|
      invariant n <= |x.numbers|
      invariant 0 < numberCount ==> IsMultiple(|x.numbers| - n, numberCount)
      invariant 0 < numberCount ==> cmds + Groups(x, numberCount, n) == first + Groups(x, numberCount, 0)
      invariant numberCount == 0 ==> cmds == first && x.numbers == []
    {
      cmds := cmds + [Command(x.cmd, x.numbers[n..n + numberCount])];
      n := n + numberCount;
    }
    if 0 < numberCount {
      assert cmds + Groups(x, numberCount, n) == cmds;
      assert first + Groups(x, numberCount, 0) == Groups(x, numberCount, 0);
    }
  }

  /** Whenever a path is closed, there is a first point to go back to. */
  predicate ClosesDrawn(f: Sampling, pen: Pen, cmds: seq<Command>)
    requires AllWellFormed(cmds)
    decreases |cmds|
  {
    cmds == [] ||
    ((Lower(cmds[0].cmd) == 'z' ==> pen.polyline != []) && ClosesDrawn(f, DrawCommand(f, pen, cmds[0]), cmds[1..]))
  }

  method SubpathToPolyline(f: Sampling, subpath: seq<Command>, last0: Point) returns (last: Point, polyline: seq<Point>)
    requires AllWellFormed(subpath) && ClosesDrawn(f, Pen(last0, []), subpath)
    ensures Pen(last, polyline) == Draw(f, Pen(last0, []), subpath)
  {
    hide DrawCommand, WellFormed;
    last, polyline := last0, [];
    for k := 0 to |subpath|
      invariant Draw(f, Pen(last, polyline), subpath[k..]) == Draw(f, Pen(last0, []), subpath)
      invariant ClosesDrawn(f, Pen(last, polyline), subpath[k..])
    {
      assert subpath[k..][0] == subpath[k] && subpath[k..][1..] == subpath[k+1..];
      last, polyline := DrawOne(f, last, polyline, subpath[k]);
    }
  }

  method DrawOne(f: Sampling, last0: Point, polyline0: seq<Point>, cmd: Command) returns (last: Point, polyline: seq<Point>)
    requires WellFormed(cmd)
    requires Lower(cmd.cmd) == 'z' ==> polyline0 != []
    ensures Pen(last, polyline) == DrawCommand(f, Pen(last0, polyline0), cmd)
  {
    last, polyline := last0, polyline0;
    if Lower(cmd.cmd) == 'z' {
      var p := polyline[0];
      if 0.0000000001 < SquaredDistance(polyline[|polyline|-1], p) {
        polyline := polyline + [p];
      }
      return;
    }
    var n := NumberCount(cmd.cmd);
    if n == 0 {
      return;
    }
    hide NumberCount;
    var i := 0;
    while i < |cmd.numbers|
      invariant i <= |cmd.numbers| && IsMultiple(|cmd.numbers| - i, n)
      invariant DrawGroups(f, Pen(last, polyline), cmd, i) == DrawGroups(f, Pen(last0, polyline0), cmd, 0)
    {
      last, polyline := DrawUse(f, last, polyline, cmd.cmd, cmd.numbers, i);
      i := i + n;
    }
  }

  /** The switch: one use of a command. */
  method DrawUse(f: Sampling, last0: Point, polyline0: seq<Point>, c: char, v: seq<real>, i: nat)
    returns (last: Point, polyline: seq<Point>)
    requires i + NumberCount(c) <= |v|
    ensures Pen(last, polyline) == DrawGroup(f, Pen(last0, polyline0), c, v, i)
  {
    last, polyline := last0, polyline0;
    match c
    case 'm' | 'l' =>
      last := Point(v[i] + last.x, v[i + 1] + last.y);
      polyline := polyline + [last];
    case 'M' | 'L' =>
      last := Point(v[i], v[i + 1]);
      polyline := polyline + [last];
    case 'C' =>
      var p1, p2, p3 := Point(v[i], v[i + 1]), Point(v[i + 2], v[i + 3]), Point(v[i + 4], v[i + 5]);
      polyline := polyline + f.bezier(last, p1, p2, p3);
      last := p3;
    case 'c' =>
      var p1 := Point(v[i] + last.x, v[i + 1] + last.y);
      var p2 := Point(v[i + 2] + last.x, v[i + 3] + last.y);
      var p3 := Point(v[i + 4] + last.x, v[i + 5] + last.y);
      polyline := polyline + f.bezier(last, p1, p2, p3);
      last := p3;
    case 'A' =>
      var end := Point(v[i + 5], v[i + 6]);
      polyline := polyline + f.arc(last, v[i], v[i + 1], v[i + 2], v[i + 3], v[i + 4], end);
      last := end;
    case 'a' =>
      var end := Point(v[i + 5] + last.x, v[i + 6] + last.y);
      polyline := polyline + f.arc(last, v[i], v[i + 1], v[i + 2], v[i + 3], v[i + 4], end);
      last := end;
    case _ =>
  }

  // -------- expanding and then drawing --------

  lemma {:induction false} ClosesDrawnAppend(f: Sampling, pen: Pen, a: seq<Command>, b: seq<Command>)
    requires AllWellFormed(a) && AllWellFormed(b)
    ensures AllWellFormed(a + b)
    ensures ClosesDrawn(f, pen, a + b) <==> ClosesDrawn(f, pen, a) && ClosesDrawn(f, Draw(f, pen, a), b)
    decreases |a|
  {
    if a == [] {
      assert a + b == b;
    } else {
      assert (a + b)[1..] == a[1..] + b;
      ClosesDrawnAppend(f, DrawCommand(f, pen, a[0]), a[1..], b);
    }
  }

  lemma {:induction false} GroupsDoNotClose(f: Sampling, pen: Pen, x: Command, k: nat)
    requires 0 < NumberCount(x.cmd) && k <= |x.numbers| && IsMultiple(|x.numbers| - k, NumberCount(x.cmd))
    ensures var cmds := Groups(x, NumberCount(x.cmd), k); AllWellFormed(cmds) && ClosesDrawn(f, pen, cmds)
    decreases |x.numbers| - k
  {
    GroupsDrawn(f, pen, x, k);
    if k < |x.numbers| {
      var n := NumberCount(x.cmd);
      SingleGroup(f, pen, x, n, k);
      GroupsDoNotClose(f, DrawGroup(f, pen, x.cmd, x.numbers, k), x, k + n);
      assert Groups(x, n, k)[1..] == Groups(x, n, k + n);
      hide DrawGroup, DrawCommand;
    }
  }

  lemma ExpandedCommandCloses(f: Sampling, pen: Pen, x: Command)
    requires WellFormed(x)
    ensures AllWellFormed(ExpandedCommand(x))
    ensures ClosesDrawn(f, pen, ExpandedCommand(x)) <==> (Lower(x.cmd) == 'z' ==> pen.polyline != [])
  {
    if 0 < NumberCount(x.cmd) {
      GroupsDoNotClose(f, pen, x, 0);
    } else if Lower(x.cmd) == 'z' {
      assert [x][1..] == [];
    }
  }

  /** The expansion can be drawn exactly when the repeated commands can. */
  lemma {:induction false} ExpansionCloses(f: Sampling, pen: Pen, cmds: seq<Command>)
    requires AllWellFormed(cmds)
    ensures AllWellFormed(Expanded(cmds)) && (ClosesDrawn(f, pen, Expanded(cmds)) <==> ClosesDrawn(f, pen, cmds))
    decreases |cmds|
  {
    if cmds != [] {
      var x, rest := cmds[0], cmds[1..];
      hide WellFormed, ExpandedCommand, DrawCommand;
      ExpandedCommandDrawn(f, pen, x);
      ExpandedCommandCloses(f, pen, x);
      ExpansionCloses(f, DrawCommand(f, pen, x), rest);
      ClosesDrawnAppend(f, pen, ExpandedCommand(x), Expanded(rest));
    }
  }

  /** A subpath that starts with a move that has numbers can be drawn. */
  lemma MoveFirstCloses(f: Sampling, pen: Pen, cmds: seq<Command>)
    requires AllWellFormed(cmds) && cmds != [] && IsMove(cmds[0].cmd) && cmds[0].numbers != []
    ensures ClosesDrawn(f, pen, cmds)
  {
    MoveAddsPoint(f, pen, cmds[0]);
    hide DrawCommand, WellFormed;
    NotEmptyCloses(f, DrawCommand(f, pen, cmds[0]), cmds[1..]);
  }

  lemma {:induction false} GroupsKeepPoints(f: Sampling, pen: Pen, x: Command, i: nat)
    requires 0 < NumberCount(x.cmd) && i <= |x.numbers| && IsMultiple(|x.numbers| - i, NumberCount(x.cmd))
    ensures |pen.polyline| <= |DrawGroups(f, pen, x, i).polyline|
    ensures IsMove(x.cmd) && i < |x.numbers| ==> DrawGroups(f, pen, x, i).polyline != []
    decreases |x.numbers| - i
  {
    if i < |x.numbers| {
      GroupAddsPoints(f, pen, x.cmd, x.numbers, i);
      hide DrawGroup;
      GroupsKeepPoints(f, DrawGroup(f, pen, x.cmd, x.numbers, i), x, i + NumberCount(x.cmd));
    }
  }

  lemma MoveAddsPoint(f: Sampling, pen: Pen, x: Command)
    requires WellFormed(x) && IsMove(x.cmd) && x.numbers != []
    ensures DrawCommand(f, pen, x).polyline != []
  {
    GroupsKeepPoints(f, pen, x, 0);
    hide DrawGroups;
  }

  lemma {:induction false} NotEmptyCloses(f: Sampling, pen: Pen, cmds: seq<Command>)
    requires AllWellFormed(cmds) && pen.polyline != []
    ensures ClosesDrawn(f, pen, cmds)
    decreases |cmds|
  {
    if cmds != [] {
      var x := cmds[0];
      if 0 < NumberCount(x.cmd) {
        GroupsKeepPoints(f, pen, x, 0);
      }
      hide DrawGroups;
      assert DrawCommand(f, pen, x).polyline != [];
      hide DrawCommand;
      NotEmptyCloses(f, DrawCommand(f, pen, x), cmds[1..]);
    }
  }

  lemma GroupAddsPoints(f: Sampling, pen: Pen, c: char, v: seq<real>, i: nat)
    requires i + NumberCount(c) <= |v|
    ensures pen.polyline <= DrawGroup(f, pen, c, v, i).polyline
    ensures IsMove(c) ==> DrawGroup(f, pen, c, v, i).polyline != []
  {
  }

  /** Expanding a subpath and drawing the expansion gives what drawing the subpath itself gives. */
  method ExpandAndDraw(f: Sampling, compressed: seq<Command>, last0: Point) returns (last: Point, polyline: seq<Point>)
    requires AllWellFormed(compressed) && ClosesDrawn(f, Pen(last0, []), compressed)
    ensures Pen(last, polyline) == Draw(f, Pen(last0, []), compressed)
  {
    ExpansionPreservesDrawing(f, Pen(last0, []), compressed);
    ExpansionCloses(f, Pen(last0, []), compressed);
    var subpath := ExpandSubpath(compressed);
    last, polyline := SubpathToPolyline(f, subpath, last0);
  }
}
