/** The whole drawing-to-command pipeline of `sendDrawing`: every recorded stroke is
    mapped to ground coordinates, refined with the default threshold, compiled to
    commands and optimised; the list of per-stroke command lists is serialised and the
    payload is cut into slices for the robot. */
module Pipeline {
  import opened Numerics
  import opened CanvasMapping
  import opened Refinement
  import opened Commands
  import opened Compiler
  import opened Optimizer
  import opened Transport

  /** The commands one stroke becomes. */
  function StrokeCommands(m: MathLib, stroke: seq<CanvasPoint>): (r: seq<RobotCommand>)
  {
    Optimize(Compile(m, Refine(RealWorldPath(stroke), DefaultThreshold)))
  }

  /** The commands of every stroke, stroke order kept: list k is stroke k's. */
  function DrawingCommands(m: MathLib, paths: seq<seq<CanvasPoint>>): (r: seq<seq<RobotCommand>>)
    ensures |r| == |paths|
    ensures forall k :: 0 <= k < |r| ==> r[k] == StrokeCommands(m, paths[k])
  {
    if |paths| == 0 then []
    else
      var q := paths[..|paths| - 1];
      assert forall k :: 0 <= k < |q| ==> q[k] == paths[k];
      DrawingCommands(m, q) + [StrokeCommands(m, paths[|paths| - 1])]
  }

  lemma DrawingCommandsSnoc(m: MathLib, paths: seq<seq<CanvasPoint>>, i: nat)
    requires i < |paths|
    ensures DrawingCommands(m, paths[..i + 1]) == DrawingCommands(m, paths[..i]) + [StrokeCommands(m, paths[i])]
  {
    assert paths[..i + 1][..i] == paths[..i];
  }

  /** What pressing Send does: nothing but a status change when no robot is connected,
      otherwise the slices written to the robot, in order. */
  datatype SendResult = NotConnected | Sent(chunks: seq<seq<char>>)

  /** A stroke's commands keep the compiler's shape after optimisation: never a
      `move_backward`, every turn followed by a `move_forward`, moves of at least 0.5 cm
      and turns of 5 to 180 degrees, no two adjacent commands of one type, and the
      distance driven is the compiled distance. A stroke of fewer than two points
      drives nothing. */
  lemma StrokeCommandsShape(m: MathLib, stroke: seq<CanvasPoint>)
    ensures var c := Compile(m, Refine(RealWorldPath(stroke), DefaultThreshold));
      var r := StrokeCommands(m, stroke);
      && WellFormed(r) && ValuesInRange(r) && NoAdjacentRepeats(r)
      && TotalOf(r, MoveForward) == TotalOf(c, MoveForward)
      && (|stroke| < 2 ==> r == [])
  {
    var c := Compile(m, Refine(RealWorldPath(stroke), DefaultThreshold));
    CompileShape(m, Refine(RealWorldPath(stroke), DefaultThreshold));
    OptimizeKeepsShape(c);
    OptimizeNoAdjacentRepeats(c);
    OptimizeTotals(c, MoveForward);
  }

  /** Strokes are recorded only inside the canvas, so every point the compiler is given
      lies on the 100 cm x 100 cm ground. */
  lemma RefinedStrokeOnGround(stroke: seq<CanvasPoint>)
    requires forall i :: 0 <= i < |stroke| ==> InsideCanvas(stroke[i].x, stroke[i].y)
    ensures var r := Refine(RealWorldPath(stroke), DefaultThreshold);
      forall k :: 0 <= k < |r| ==> 0.0 <= r[k].x <= GroundWidthCm && 0.0 <= r[k].y <= GroundHeightCm
  {
    var path := RealWorldPath(stroke);
    var r := Refine(path, DefaultThreshold);
    RefineSelects(path, DefaultThreshold);
    var idx := KeptIndices(path, DefaultThreshold);
    forall k | 0 <= k < |r|
      ensures 0.0 <= r[k].x <= GroundWidthCm && 0.0 <= r[k].y <= GroundHeightCm
    {
      assert r[k] == path[idx[k]] == ToRealWorld(stroke[idx[k]]);
      InsideCanvasOnGround(stroke[idx[k]]);
    }
  }

  /** `sendDrawing`. `connected` stands for `bleDevice` being set; `serialize` stands for
      `JSON.stringify`. Each stroke goes through the refiner, the compiler and the
      optimiser; the payload is then cut by the chunking loop, and the slices are what
      the loop writes, in order. A receiver that concatenates the slices in order gets
      the payload back. */
  method SendDrawing(m: MathLib, paths: seq<seq<CanvasPoint>>, connected: bool,
                     serialize: seq<seq<RobotCommand>> -> seq<char>)
    returns (result: SendResult)
    ensures !connected ==> result == NotConnected
    ensures connected ==> result == Sent(Slices(serialize(DrawingCommands(m, paths))))
    ensures connected ==> Reassemble(result.chunks) == serialize(DrawingCommands(m, paths))
  {
    if !connected {
      return NotConnected;
    }
    var realWorldPaths := RealWorldPaths(paths);
    var robotCommands: seq<seq<RobotCommand>> := [];
    for i := 0 to |paths|
      invariant robotCommands == DrawingCommands(m, paths[..i])
    {
      assert realWorldPaths[i] == RealWorldPath(paths[i]);
      var refined := RefinePath(realWorldPaths[i], DefaultThreshold);
      var commands := PathToRobotCommands(m, refined);
      var buffer := new RobotCommand[|commands|](k requires 0 <= k < |commands| => commands[k]);
      assert buffer[..] == commands;
      var optimized := OptimizeCommands(buffer);
      assert optimized == StrokeCommands(m, paths[i]);
      DrawingCommandsSnoc(m, paths, i);
      robotCommands := robotCommands + [optimized];
    }
    assert paths[..|paths|] == paths;
    var json := serialize(robotCommands);
    var chunks := ChunkPayload(json);
    ReassembleSlices(json);
    return Sent(chunks);
  }
}
