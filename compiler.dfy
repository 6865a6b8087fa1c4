/** The command compiler (`pathToRobotCommands`): walks consecutive point pairs of a
    refined path, tracking the robot's heading (starting at 90 degrees, facing +y),
    and emits an optional turn followed by exactly one forward move for every pair
    that is at least 0.5 cm long. */
module Compiler {
  import opened Numerics
  import opened CanvasMapping
  import opened Commands

  /** The platform's floating-point leaves the compiler calls: `Math.sqrt`, and
      `Math.atan2(dy, dx) * (180 / Math.PI)` (the direction of (dx, dy) in degrees).
      Their results are taken as given; nothing is assumed about them except where a
      lemma says so. */
  datatype MathLib = MathLib(sqrt: real -> real, atan2Deg: (real, real) -> real)

  /** The heading the robot is assumed to start with. */
  const InitialHeading: real := 90.0
  /** Pairs shorter than this are skipped. */
  const MinDistance: real := 0.5
  /** Heading differences up to this are absorbed without a turn. */
  const TurnTolerance: real := 5.0

  /** The first normalising loop: subtract 360 while above 180. It ends at or below
      180, and a value above -180 stays above -180. */
  function ReduceAbove(d: real): (r: real)
    ensures r <= 180.0
    ensures d > -180.0 ==> r > -180.0
    decreases d.Floor
  {
    if d > 180.0 then assert (d - 360.0).Floor == d.Floor - 360; ReduceAbove(d - 360.0) else d
  }

  /** The second normalising loop: add 360 while below -180. It ends at or above
      -180, and a value at or below 180 stays at or below 180. */
  function RaiseBelow(d: real): (r: real)
    ensures r >= -180.0
    ensures d <= 180.0 ==> r <= 180.0
    decreases (-d).Floor
  {
    if d < -180.0 then assert (-(d + 360.0)).Floor == (-d).Floor - 360; RaiseBelow(d + 360.0) else d
  }

  /** The heading difference after both loops: always in [-180, 180]. */
  function Normalize(d: real): (r: real)
    ensures -180.0 <= r <= 180.0
  {
    RaiseBelow(ReduceAbove(d))
  }

  /** x is a whole number of full turns. */
  predicate WholeTurns(x: real)
  {
    (x / 360.0).Floor as real * 360.0 == x
  }

  lemma WholeTurnsShift(x: real, k: int)
    requires WholeTurns(x)
    ensures WholeTurns(x + 360.0 * k as real)
  {
    var n := (x / 360.0).Floor;
    var y := x + 360.0 * k as real;
    assert y / 360.0 == (n + k) as real by {
      assert x == n as real * 360.0;
      assert y == (n + k) as real * 360.0;
    }
    assert (y / 360.0).Floor == n + k;
    assert (n + k) as real * 360.0 == y;
  }

  /** The first loop changes the difference by whole turns only. */
  lemma {:induction false} ReduceAboveSpec(d: real)
    ensures WholeTurns(ReduceAbove(d) - d)
    decreases d.Floor
  {
    if d > 180.0 {
      assert (d - 360.0).Floor == d.Floor - 360;
      ReduceAboveSpec(d - 360.0);
      WholeTurnsShift(ReduceAbove(d - 360.0) - (d - 360.0), -1);
      assert ReduceAbove(d - 360.0) - (d - 360.0) + 360.0 * (-1) as real == ReduceAbove(d) - d;
    } else {
      assert WholeTurns(0.0);
    }
  }

  /** The second loop changes the difference by whole turns only. */
  lemma {:induction false} RaiseBelowSpec(d: real)
    ensures WholeTurns(RaiseBelow(d) - d)
    decreases (-d).Floor
  {
    if d < -180.0 {
      assert (-(d + 360.0)).Floor == (-d).Floor - 360;
      RaiseBelowSpec(d + 360.0);
      WholeTurnsShift(RaiseBelow(d + 360.0) - (d + 360.0), 1);
      assert RaiseBelow(d + 360.0) - (d + 360.0) + 360.0 * 1 as real == RaiseBelow(d) - d;
    } else {
      assert WholeTurns(0.0);
    }
  }

  /** The normalising loops end with the difference differing from the raw difference
      by a whole number of turns; a difference already in [-180, 180] is left alone. */
  lemma NormalizeSpec(d: real)
    ensures WholeTurns(Normalize(d) - d)
    ensures -180.0 <= d <= 180.0 ==> Normalize(d) == d
  {
    var a := ReduceAbove(d);
    ReduceAboveSpec(d);
    RaiseBelowSpec(a);
    var n1, n2 := ((a - d) / 360.0).Floor, ((Normalize(d) - a) / 360.0).Floor;
    assert n1 as real * 360.0 == a - d;
    assert n2 as real * 360.0 == Normalize(d) - a;
    WholeTurnsShift(a - d, n2);
    assert a - d + 360.0 * n2 as real == Normalize(d) - d;
  }

  /** A heading difference of exactly -180 degrees is left at -180 (the loops stop at
      180 and -180 inclusive) and becomes a 180-degree right turn. */
  lemma HalfTurnIsRight()
    ensures Normalize(-180.0) == -180.0
    ensures TurnFor(Normalize(-180.0)) == RobotCommand(TurnRight, 180.0)
  {
    assert Round(180.0) == 180;
  }

  /** The length of a step with the given axis differences. */
  function Distance(m: MathLib, dx: real, dy: real): (r: real)
  {
    m.sqrt(dx * dx + dy * dy)
  }

  /** The direction of a step with the given axis differences, in degrees. */
  function Direction(m: MathLib, dx: real, dy: real): (r: real)
  {
    m.atan2Deg(dy, dx)
  }

  /** The turn command for a normalised heading difference. */
  function TurnFor(diff: real): (t: RobotCommand)
  {
    if diff > 0.0 then RobotCommand(TurnLeft, Round(diff) as real)
    else RobotCommand(TurnRight, Round(Abs(diff)) as real)
  }

  /** The move command for a distance: `Math.round(distance * 10) / 10`. */
  function MoveFor(distance: real): (mv: RobotCommand)
  {
    RobotCommand(MoveForward, Round(distance * 10.0) as real / 10.0)
  }

  /** What one pair contributes, and the heading afterwards. */
  datatype StepResult = StepResult(emitted: seq<RobotCommand>, heading: real)

  /** One iteration of the compiler's loop. */
  function Step(m: MathLib, prev: RealPoint, curr: RealPoint, heading: real): (s: StepResult)
  {
    var dx, dy := curr.x - prev.x, curr.y - prev.y;
    var distance := Distance(m, dx, dy);
    if distance < MinDistance then StepResult([], heading)
    else
      var target := Direction(m, dx, dy);
      var diff := Normalize(target - heading);
      if Abs(diff) > TurnTolerance then StepResult([TurnFor(diff), MoveFor(distance)], target)
      else StepResult([MoveFor(distance)], heading)
  }

  /** The commands the pairs (path[i-1], path[i]), (path[i], path[i+1]), ... emit when
      the robot enters pair i with the given heading. */
  function CompileFrom(m: MathLib, path: seq<RealPoint>, i: nat, heading: real): (r: seq<RobotCommand>)
    requires 1 <= i <= |path|
    decreases |path| - i
  {
    if i == |path| then []
    else
      var s := Step(m, path[i - 1], path[i], heading);
      s.emitted + CompileFrom(m, path, i + 1, s.heading)
  }

  /** What `pathToRobotCommands` returns. */
  function Compile(m: MathLib, path: seq<RealPoint>): (r: seq<RobotCommand>)
  {
    if |path| < 2 then [] else CompileFrom(m, path, 1, InitialHeading)
  }

  /** A pair at least 0.5 long, with its direction and normalised difference named. */
  lemma LongStep(m: MathLib, prev: RealPoint, curr: RealPoint, heading: real, distance: real, target: real, diff: real)
    requires distance == Distance(m, curr.x - prev.x, curr.y - prev.y) && distance >= MinDistance
    requires target == Direction(m, curr.x - prev.x, curr.y - prev.y)
    requires diff == Normalize(target - heading)
    ensures Step(m, prev, curr, heading) ==
      if Abs(diff) > TurnTolerance then StepResult([TurnFor(diff)] + [MoveFor(distance)], target)
      else StepResult([] + [MoveFor(distance)], heading)
  {
  }

  /** `pathToRobotCommands`, with its two normalising `while` loops. */
  method PathToRobotCommands(m: MathLib, path: seq<RealPoint>) returns (commands: seq<RobotCommand>)
    ensures commands == Compile(m, path)
    ensures |path| < 2 ==> commands == []
  {
    if |path| < 2 {
      return [];
    }
    commands := [];
    var currentAngle := InitialHeading;
    for i := 1 to |path|
      invariant commands + CompileFrom(m, path, i, currentAngle) == Compile(m, path)
    {
      var prev, curr := path[i - 1], path[i];
      var dx := curr.x - prev.x;
      var dy := curr.y - prev.y;
      var distance := m.sqrt(dx * dx + dy * dy);
      assert distance == Distance(m, dx, dy);
      ghost var step := Step(m, prev, curr, currentAngle);
      ghost var rest := CompileFrom(m, path, i + 1, step.heading);
      ghost var done := commands + CompileFrom(m, path, i, currentAngle);
      if distance < 0.5 {
        assert step == StepResult([], currentAngle);
        assert [] + rest == rest;
        assert commands + CompileFrom(m, path, i + 1, currentAngle) == done;
        continue;
      }
      var targetAngle := m.atan2Deg(dy, dx);
      var angleDiff := targetAngle - currentAngle;
      while angleDiff > 180.0
        invariant ReduceAbove(angleDiff) == ReduceAbove(targetAngle - currentAngle)
        decreases angleDiff.Floor
      {
        angleDiff := angleDiff - 360.0;
      }
      assert ReduceAbove(angleDiff) == angleDiff;
      while angleDiff < -180.0
        invariant RaiseBelow(angleDiff) == Normalize(targetAngle - currentAngle)
        decreases (-angleDiff).Floor
      {
        angleDiff := angleDiff + 360.0;
      }
      assert RaiseBelow(angleDiff) == angleDiff;
      LongStep(m, prev, curr, currentAngle, distance, targetAngle, angleDiff);
      ghost var before := commands;
      ghost var turn: seq<RobotCommand> := if Abs(angleDiff) > 5.0 then [TurnFor(angleDiff)] else [];
      if Abs(angleDiff) > 5.0 {
        if angleDiff > 0.0 {
          commands := commands + [RobotCommand(TurnLeft, Round(angleDiff) as real)];
        } else {
          commands := commands + [RobotCommand(TurnRight, Round(Abs(angleDiff)) as real)];
        }
        currentAngle := targetAngle;
      }
      assert commands == before + turn && currentAngle == step.heading;
      commands := commands + [RobotCommand(MoveForward, Round(distance * 10.0) as real / 10.0)];
      assert commands == before + turn + [MoveFor(distance)];
      assert step.emitted == turn + [MoveFor(distance)];
      AppendAssoc(before, turn, [MoveFor(distance)]);
      assert commands == before + step.emitted;
      assert CompileFrom(m, path, i + 1, currentAngle) == rest;
      AppendAssoc(before, step.emitted, rest);
      assert done == before + (step.emitted + rest);
    }
  }

  /** Regrouping appended command lists, for the loop's proof. */
  lemma AppendAssoc(a: seq<RobotCommand>, b: seq<RobotCommand>, c: seq<RobotCommand>)
    ensures a + b + c == a + (b + c)
  {
  }

  /** A pair the compiler does not skip. */
  predicate LongPair(m: MathLib, prev: RealPoint, curr: RealPoint)
  {
    Distance(m, curr.x - prev.x, curr.y - prev.y) >= MinDistance
  }

  /** How many of the pairs from pair i on are long enough to be driven. */
  function LongPairsFrom(m: MathLib, path: seq<RealPoint>, i: nat): (n: nat)
    requires 1 <= i <= |path|
    decreases |path| - i
  {
    if i == |path| then 0
    else (if LongPair(m, path[i - 1], path[i]) then 1 else 0) + LongPairsFrom(m, path, i + 1)
  }

  /** How many consecutive pairs of the path are long enough to be driven. */
  function LongPairs(m: MathLib, path: seq<RealPoint>): (n: nat)
  {
    if |path| < 2 then 0 else LongPairsFrom(m, path, 1)
  }

  /** The turn rule for one pair: a pair shorter than 0.5 emits nothing and keeps the
      heading. A longer pair ends with one `move_forward` of its rounded length; it
      starts with a turn exactly when the normalised heading difference exceeds 5 degrees
      in magnitude, `turn_left` for a positive difference and `turn_right` for a
      negative one, whose value is the magnitude to within half a degree. The heading
      changes only when a turn is emitted, and then becomes the pair's direction. */
  lemma StepTurnRule(m: MathLib, prev: RealPoint, curr: RealPoint, heading: real)
    ensures var s, dx, dy := Step(m, prev, curr, heading), curr.x - prev.x, curr.y - prev.y;
      var diff := Normalize(Direction(m, dx, dy) - heading);
      && (!LongPair(m, prev, curr) ==> s.emitted == [] && s.heading == heading)
      && (LongPair(m, prev, curr) ==>
            && 1 <= |s.emitted| <= 2
            && s.emitted[|s.emitted| - 1] == MoveFor(Distance(m, dx, dy))
            && (|s.emitted| == 2 <==> Abs(diff) > TurnTolerance)
            && (|s.emitted| == 2 ==>
                  && (s.emitted[0].kind == TurnLeft <==> diff > 0.0)
                  && (s.emitted[0].kind == TurnRight <==> diff < 0.0)
                  && Abs(s.emitted[0].value - Abs(diff)) <= 0.5))
      && (s.heading != heading ==> |s.emitted| == 2 && s.heading == Direction(m, dx, dy))
  {
  }

  /** After a pair is driven, the tracked heading is within the 5-degree tolerance of
      the pair's direction (modulo whole turns). */
  lemma StepHeadingTracksDirection(m: MathLib, prev: RealPoint, curr: RealPoint, heading: real)
    requires LongPair(m, prev, curr)
    ensures var dx, dy := curr.x - prev.x, curr.y - prev.y;
      Abs(Normalize(Direction(m, dx, dy) - Step(m, prev, curr, heading).heading)) <= TurnTolerance
  {
    var dx, dy := curr.x - prev.x, curr.y - prev.y;
    var target := Direction(m, dx, dy);
    NormalizeSpec(target - heading);
    NormalizeSpec(0.0);
    assert target - target == 0.0;
  }

  /** One pair's output is well formed, has values in range, and holds one move exactly
      when the pair is long. */
  lemma StepShape(m: MathLib, prev: RealPoint, curr: RealPoint, heading: real)
    ensures var e := Step(m, prev, curr, heading).emitted;
      && WellFormed(e) && ValuesInRange(e)
      && CountKind(e, MoveForward) == (if LongPair(m, prev, curr) then 1 else 0)
  {
    var dx, dy := curr.x - prev.x, curr.y - prev.y;
    var distance := Distance(m, dx, dy);
    var e := Step(m, prev, curr, heading).emitted;
    if distance >= MinDistance {
      var diff := Normalize(Direction(m, dx, dy) - heading);
      NormalizeSpec(Direction(m, dx, dy) - heading);
      assert Round(distance * 10.0) >= 5;
      var mv := MoveFor(distance);
      assert mv.value >= 0.5;
      if Abs(diff) > TurnTolerance {
        var t := TurnFor(diff);
        assert 5 <= Round(Abs(diff)) <= 180;
        assert 5.0 <= t.value <= 180.0;
        assert e == [t, mv];
        assert e[..1] == [t];
        assert CountKind(e, MoveForward) == CountKind([t], MoveForward) + 1;
      } else {
        assert e == [mv];
      }
    }
  }

  /** The commands from pair i on are well formed, have values in range, and hold one
      `move_forward` per long pair. */
  lemma {:induction false} CompileFromShape(m: MathLib, path: seq<RealPoint>, i: nat, heading: real)
    requires 1 <= i <= |path|
    ensures WellFormed(CompileFrom(m, path, i, heading))
    ensures ValuesInRange(CompileFrom(m, path, i, heading))
    ensures CountKind(CompileFrom(m, path, i, heading), MoveForward) == LongPairsFrom(m, path, i)
    decreases |path| - i
  {
    if i < |path| {
      var s := Step(m, path[i - 1], path[i], heading);
      var rest := CompileFrom(m, path, i + 1, s.heading);
      StepShape(m, path[i - 1], path[i], heading);
      CompileFromShape(m, path, i + 1, s.heading);
      WellFormedAppend(s.emitted, rest);
      ValuesInRangeAppend(s.emitted, rest);
      CountKindAppend(s.emitted, rest, MoveForward);
    }
  }

  /** A compiled path: empty below two points; otherwise one `move_forward` per pair of
      length at least 0.5, never a `move_backward`, every turn immediately followed by a
      move (so no two turns are adjacent), moves of at least 0.5 cm and turns of 5 to
      180 degrees. */
  lemma CompileShape(m: MathLib, path: seq<RealPoint>)
    ensures |path| < 2 ==> Compile(m, path) == []
    ensures WellFormed(Compile(m, path)) && ValuesInRange(Compile(m, path))
    ensures CountKind(Compile(m, path), MoveForward) == LongPairs(m, path)
    ensures CountKind(Compile(m, path), MoveBackward) == 0
  {
    if |path| >= 2 {
      CompileFromShape(m, path, 1, InitialHeading);
    }
    NoBackwardCounted(Compile(m, path));
  }

  /** A list without `move_backward` counts none of them. */
  lemma {:induction false} NoBackwardCounted(s: seq<RobotCommand>)
    requires TurnsLeadToMoves(s)
    ensures CountKind(s, MoveBackward) == 0
    decreases |s|
  {
    if |s| > 0 {
      var q := s[..|s| - 1];
      assert forall k :: 0 <= k < |q| ==> q[k] == s[k];
      NoBackwardCounted(q);
    }
  }

  /** Two points 10 cm apart straight up (the starting heading): one 10 cm move and no
      turn. */
  lemma CompileStraightUp(m: MathLib)
    requires m.sqrt(100.0) == 10.0 && m.atan2Deg(10.0, 0.0) == 90.0
    ensures Compile(m, [RealPoint(0.0, 0.0), RealPoint(0.0, 10.0)]) == [RobotCommand(MoveForward, 10.0)]
  {
    var path := [RealPoint(0.0, 0.0), RealPoint(0.0, 10.0)];
    NormalizeSpec(0.0);
    assert Round(100.0) == 100;
    assert Step(m, path[0], path[1], InitialHeading) == StepResult([RobotCommand(MoveForward, 10.0)], InitialHeading);
  }

  /** Two points 10 cm apart to the right: a 90-degree right turn, then a 10 cm move. */
  lemma CompileStraightRight(m: MathLib)
    requires m.sqrt(100.0) == 10.0 && m.atan2Deg(0.0, 10.0) == 0.0
    ensures Compile(m, [RealPoint(0.0, 0.0), RealPoint(10.0, 0.0)])
         == [RobotCommand(TurnRight, 90.0), RobotCommand(MoveForward, 10.0)]
  {
    var path := [RealPoint(0.0, 0.0), RealPoint(10.0, 0.0)];
    NormalizeSpec(-90.0);
    assert Round(100.0) == 100 && Round(90.0) == 90;
    assert Step(m, path[0], path[1], InitialHeading)
        == StepResult([RobotCommand(TurnRight, 90.0), RobotCommand(MoveForward, 10.0)], 0.0);
  }
}
