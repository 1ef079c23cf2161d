/** Where the commands of an SVG path draw (graphics/src/SVGLoader.cc, SubpathToPolyline), and what expansion makes of
    them (ExpandCommands). */
module SvgDrawing {
  import opened Stitching
  import opened SvgPaths

  // -------- moves and lines --------

  /** The pen has gone from p to r along one point for each pair of numbers from i on: the pair itself, or its sum with
      the point before. */
  predicate DrawsPairs(p: Pen, r: Pen, v: seq<real>, i: nat, relative: bool)
    requires i <= |v|
  {
    var n, q := |p.polyline|, (|v| - i) / 2;
    && |r.polyline| == n + q && r.polyline[..n] == p.polyline
    && r.last == (if q == 0 then p.last else r.polyline[n + q - 1])
    && forall k :: 0 <= k < q ==> r.polyline[n + k] == PairAt(v, i + 2 * k, Before(p, r, k), relative)
  }

  /** The point before the k-th one that is added: for the first one, that of the pen. */
  function Before(p: Pen, r: Pen, k: nat): Point
    requires |p.polyline| + k <= |r.polyline|
  {
    if k == 0 then p.last else r.polyline[|p.polyline| + k - 1]
  }

  function PairAt(v: seq<real>, i: nat, before: Point, relative: bool): Point
    requires i + 1 < |v|
  {
    if relative then Point(before.x + v[i], before.y + v[i + 1]) else Point(v[i], v[i + 1])
  }

  predicate IsLine(c: char) {
    c == 'M' || c == 'm' || c == 'L' || c == 'l'
  }

  lemma PairsNext(p: Pen, q: Pen, r: Pen, v: seq<real>, i: nat, relative: bool)
    requires i + 2 <= |v| && q == Pen(PairAt(v, i, p.last, relative), p.polyline + [PairAt(v, i, p.last, relative)])
    requires DrawsPairs(q, r, v, i + 2, relative)
    ensures DrawsPairs(p, r, v, i, relative)
  {
    var n, m := |p.polyline|, (|v| - i) / 2;
    assert r.polyline[n] == q.polyline[n] && r.polyline[..n] == r.polyline[..n + 1][..n];
    forall k | 0 <= k < m ensures r.polyline[n + k] == PairAt(v, i + 2 * k, Before(p, r, k), relative) {
      if k > 0 {
        assert r.polyline[n + 1 + (k - 1)] == PairAt(v, i + 2 + 2 * (k - 1), Before(q, r, k - 1), relative);
      }
    }
  }

  lemma {:induction false} PairsDrawn(f: Sampling, pen: Pen, x: Command, i: nat)
    requires IsLine(x.cmd) && i <= |x.numbers| && IsMultiple(|x.numbers| - i, 2)
    ensures DrawsPairs(pen, DrawGroups(f, pen, x, i), x.numbers, i, x.cmd == 'm' || x.cmd == 'l')
    decreases |x.numbers| - i
  {
    if i < |x.numbers| {
      var next := DrawGroup(f, pen, x.cmd, x.numbers, i);
      PairsDrawn(f, next, x, i + 2);
      PairsNext(pen, next, DrawGroups(f, pen, x, i), x.numbers, i, x.cmd == 'm' || x.cmd == 'l');
    }
  }

  /** Moves and lines add a point for each pair of numbers: the pair itself, or after a lower case command the pair
      counted from the point before it. */
  lemma LinesDrawn(f: Sampling, pen: Pen, x: Command)
    requires WellFormed(x) && IsLine(x.cmd)
    ensures DrawsPairs(pen, DrawCommand(f, pen, x), x.numbers, 0, x.cmd == 'm' || x.cmd == 'l')
  {
    PairsDrawn(f, pen, x, 0);
  }

  // -------- curves --------

  lemma OneUse(f: Sampling, pen: Pen, x: Command)
    requires 0 < |x.numbers| == NumberCount(x.cmd)
    ensures WellFormed(x) && DrawCommand(f, pen, x) == DrawGroup(f, pen, x.cmd, x.numbers, 0)
  {
    SingleGroup(f, pen, x, |x.numbers|, 0);
    assert x.numbers[0..0 + |x.numbers|] == x.numbers;
    hide DrawGroup;
  }

  /** A cubic curve goes from the pen over two points to a third, where the pen then is; after the lower case command
      all three count from the pen. */
  lemma CurveDrawn(f: Sampling, pen: Pen, x: Command)
    requires (x.cmd == 'C' || x.cmd == 'c') && |x.numbers| == 6
    ensures WellFormed(x)
    ensures
      var v, o := x.numbers, if x.cmd == 'c' then pen.last else Point(0.0, 0.0);
      var p1, p2 := Point(o.x + v[0], o.y + v[1]), Point(o.x + v[2], o.y + v[3]);
      var p3 := Point(o.x + v[4], o.y + v[5]);
      DrawCommand(f, pen, x) == Pen(p3, pen.polyline + f.bezier(pen.last, p1, p2, p3))
  {
    OneUse(f, pen, x);
  }

  /** An arc goes from the pen to its end, where the pen then is; after the lower case command the end counts from the
      pen, and the radii, the rotation and the two flags are as they are. */
  lemma ArcDrawn(f: Sampling, pen: Pen, x: Command)
    requires (x.cmd == 'A' || x.cmd == 'a') && |x.numbers| == 7
    ensures WellFormed(x)
    ensures
      var v, o := x.numbers, if x.cmd == 'a' then pen.last else Point(0.0, 0.0);
      var end := Point(o.x + v[5], o.y + v[6]);
      DrawCommand(f, pen, x) == Pen(end, pen.polyline + f.arc(pen.last, v[0], v[1], v[2], v[3], v[4], end))
  {
    OneUse(f, pen, x);
  }

  // -------- relative commands --------

  function Upper(c: char): char {
    if 'a' <= c <= 'z' then c - 'a' + 'A' else c
  }

  /** The numbers of one use with its points moved: pairs, but for an arc only the last two numbers are a point. */
  function Moved(c: char, v: seq<real>, offset: Point): (r: seq<real>)
    ensures |r| == |v|
  {
    seq(|v|, k requires 0 <= k < |v| =>
      if Lower(c) == 'a' then (if k == 5 then v[k] + offset.x else if k == 6 then v[k] + offset.y else v[k])
      else if k % 2 == 0 then v[k] + offset.x else v[k] + offset.y)
  }

  /** A relative command draws what the absolute one draws with its points moved by the pen. */
  lemma RelativeIsMoved(f: Sampling, pen: Pen, x: Command)
    requires x.cmd == 'm' || x.cmd == 'l' || x.cmd == 'c' || x.cmd == 'a'
    requires |x.numbers| == NumberCount(x.cmd)
    ensures
      var y := Command(Upper(x.cmd), Moved(x.cmd, x.numbers, pen.last));
      WellFormed(x) && WellFormed(y) && DrawCommand(f, pen, x) == DrawCommand(f, pen, y)
  {
    var y := Command(Upper(x.cmd), Moved(x.cmd, x.numbers, pen.last));
    OneUse(f, pen, x);
    OneUse(f, pen, y);
  }

  // -------- repeated commands --------

  lemma {:induction false} GroupsOfSecond(f: Sampling, pen: Pen, c: char, u: seq<real>, w: seq<real>, j: nat)
    requires 0 < NumberCount(c) && j <= |w| && IsMultiple(|w| - j, NumberCount(c))
    ensures DrawGroups(f, pen, Command(c, u + w), |u| + j) == DrawGroups(f, pen, Command(c, w), j)
    decreases |w| - j
  {
    if j < |w| {
      SameGroup(f, pen, c, u, w, j);
      hide DrawGroup, NumberCount;
      GroupsOfSecond(f, DrawGroup(f, pen, c, w, j), c, u, w, j + NumberCount(c));
    }
  }

  lemma SameGroup(f: Sampling, pen: Pen, c: char, u: seq<real>, w: seq<real>, j: nat)
    requires j + NumberCount(c) <= |w|
    ensures DrawGroup(f, pen, c, u + w, |u| + j) == DrawGroup(f, pen, c, w, j)
  {
    assert forall k :: |u| <= k < |u + w| ==> (u + w)[k] == w[k - |u|];
  }

  lemma SameFirstGroup(f: Sampling, pen: Pen, c: char, u: seq<real>, w: seq<real>, i: nat)
    requires i + NumberCount(c) <= |u|
    ensures DrawGroup(f, pen, c, u + w, i) == DrawGroup(f, pen, c, u, i)
  {
    assert forall k :: 0 <= k < |u| ==> (u + w)[k] == u[k];
  }

  lemma {:induction false} MultiplesAdd(a: nat, b: nat, n: nat)
    requires 0 < n && IsMultiple(a, n) && IsMultiple(b, n)
    ensures IsMultiple(a + b, n)
  {
    if a != 0 {
      MultiplesAdd(a - n, b, n);
    }
  }

  lemma {:induction false} GroupsInTurn(f: Sampling, pen: Pen, c: char, u: seq<real>, w: seq<real>, i: nat)
    requires 0 < NumberCount(c) && i <= |u| && IsMultiple(|u| - i, NumberCount(c)) && IsMultiple(|w|, NumberCount(c))
    ensures IsMultiple(|u + w| - i, NumberCount(c))
    ensures DrawGroups(f, pen, Command(c, u + w), i) ==
            DrawGroups(f, DrawGroups(f, pen, Command(c, u), i), Command(c, w), 0)
    decreases |u| - i
  {
    hide NumberCount, DrawGroup;
    MultiplesAdd(|u| - i, |w|, NumberCount(c));
    if i == |u| {
      GroupsOfSecond(f, pen, c, u, w, 0);
    } else {
      SameFirstGroup(f, pen, c, u, w, i);
      GroupsInTurn(f, DrawGroup(f, pen, c, u, i), c, u, w, i + NumberCount(c));
    }
  }

  /** A command with more numbers draws what its first uses draw and then its other ones. */
  lemma RepeatedInTurn(f: Sampling, pen: Pen, c: char, u: seq<real>, w: seq<real>)
    requires WellFormed(Command(c, u)) && WellFormed(Command(c, w)) && 0 < NumberCount(c)
    ensures WellFormed(Command(c, u + w))
    ensures DrawCommand(f, pen, Command(c, u + w)) == DrawCommand(f, DrawCommand(f, pen, Command(c, u)), Command(c, w))
  {
    assert Lower(c) != 'z';
    GroupsInTurn(f, pen, c, u, w, 0);
    hide NumberCount, DrawGroups;
  }

  // -------- the other commands --------

  lemma {:induction false} GroupsDrawNothing(f: Sampling, pen: Pen, x: Command, i: nat)
    requires NumberCount(x.cmd) == 1 && i <= |x.numbers| && IsMultiple(|x.numbers| - i, 1)
    ensures DrawGroups(f, pen, x, i) == pen
    decreases |x.numbers| - i
  {
    if i < |x.numbers| {
      GroupsDrawNothing(f, pen, x, i + 1);
    }
  }

  /** Closing a path leaves the pen and ends the polyline within 1e-5 of its first point, which it adds only if the
      polyline does not end there. Commands other than these draw nothing. */
  lemma OthersDrawn(f: Sampling, pen: Pen, x: Command)
    requires WellFormed(x) && !IsLine(x.cmd) && Lower(x.cmd) != 'c' && Lower(x.cmd) != 'a'
    ensures
      var r := DrawCommand(f, pen, x);
      if (x.cmd == 'z' || x.cmd == 'Z') && pen.polyline != [] then
        var first, last := pen.polyline[0], pen.polyline[|pen.polyline| - 1];
        && r.last == pen.last
        && r.polyline == pen.polyline + (if SquaredDistance(last, first) <= 0.00001 * 0.00001 then [] else [first])
      else r == pen
  {
    if NumberCount(x.cmd) == 1 {
      GroupsDrawNothing(f, pen, x, 0);
    }
  }

  lemma OneCommand(f: Sampling, pen: Pen, x: Command)
    requires WellFormed(x)
    ensures Draw(f, pen, []) == pen && Draw(f, pen, [x]) == DrawCommand(f, pen, x)
  {
    assert [x][1..] == [];
    hide DrawCommand;
  }

  // -------- expansion --------

  lemma {:induction false} GroupsCount(x: Command, n: nat, k: nat, q: nat)
    requires 0 < n && k + n * q == |x.numbers| && IsMultiple(|x.numbers| - k, n)
    ensures |Groups(x, n, k)| == q
    decreases q
  {
    if q > 0 {
      Distributes(n, q - 1);
      GroupsCount(x, n, k + n, q - 1);
    }
  }

  lemma {:induction false} GroupAt(x: Command, n: nat, k: nat, q: nat, j: nat)
    requires 0 < n && k + n * q == |x.numbers| && IsMultiple(|x.numbers| - k, n) && j < q
    ensures |Groups(x, n, k)| == q && 0 <= k + n * j && k + n * j + n <= |x.numbers|
    ensures Groups(x, n, k)[j] == Command(x.cmd, x.numbers[k + n * j..k + n * j + n])
    decreases q
  {
    GroupsCount(x, n, k, q);
    Distributes(n, q - 1);
    if j > 0 {
      Distributes(n, j - 1);
      GroupAt(x, n, k + n, q - 1, j - 1);
    }
  }

  lemma Distributes(n: nat, q: nat)
    ensures n * (q + 1) == n * q + n && 0 <= n * q
  {
  }

  /** A command is expanded into one command with its letter for each group of numbers, in their order; z is kept, and
      nothing is made of a command without a count. */
  lemma ExpandedCommandIs(x: Command, q: nat)
    requires WellFormed(x) && |x.numbers| == NumberCount(x.cmd) * q
    ensures
      var n, cmds := NumberCount(x.cmd), ExpandedCommand(x);
      if n == 0 then cmds == if x.cmd == 'z' || x.cmd == 'Z' then [x] else []
      else |cmds| == q && forall j :: 0 <= j < q ==>
        0 <= n * j <= n * j + n <= |x.numbers| && cmds[j] == Command(x.cmd, x.numbers[n * j..n * j + n])
  {
    var n := NumberCount(x.cmd);
    if n != 0 {
      GroupsCount(x, n, 0, q);
      forall j | 0 <= j < q
        ensures 0 <= n * j <= n * j + n <= |x.numbers|
        ensures ExpandedCommand(x)[j] == Command(x.cmd, x.numbers[n * j..n * j + n])
      {
        GroupAt(x, n, 0, q, j);
      }
    }
  }

  /** The expansion of commands is theirs one after the other. */
  lemma {:induction false} ExpandedAppend(a: seq<Command>, b: seq<Command>)
    requires AllWellFormed(a) && AllWellFormed(b)
    ensures AllWellFormed(a + b) && Expanded(a + b) == Expanded(a) + Expanded(b)
  {
    hide ExpandedCommand, WellFormed;
    if a == [] {
      assert a + b == b;
    } else {
      assert (a + b)[1..] == a[1..] + b;
      ExpandedAppend(a[1..], b);
    }
  }

  lemma ExpandedOne(x: Command)
    requires WellFormed(x)
    ensures Expanded([x]) == ExpandedCommand(x)
  {
    assert [x][1..] == [];
    hide ExpandedCommand;
  }

  /** How many numbers one use takes. */
  lemma Counts(c: char)
    ensures c in "mMlL" ==> NumberCount(c) == 2
    ensures c in "cC" ==> NumberCount(c) == 6
    ensures c in "aA" ==> NumberCount(c) == 7
    ensures c in "hHvV" ==> NumberCount(c) == 1
    ensures c !in "mMlLcCaAhHvV" ==> NumberCount(c) == 0
  {
  }
}
