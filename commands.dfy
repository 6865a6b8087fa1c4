/** `RobotCommand`: one motion primitive sent to the robot. */
module Commands {

  datatype CommandType = MoveForward | MoveBackward | TurnLeft | TurnRight

  /** A motion primitive: centimetres for a move, degrees for a turn. */
  datatype RobotCommand = RobotCommand(kind: CommandType, value: real)

  predicate IsTurn(k: CommandType)
  {
    k == TurnLeft || k == TurnRight
  }

  /** The tags of a command list, in order. */
  function Kinds(s: seq<RobotCommand>): (t: seq<CommandType>)
    ensures |t| == |s|
  {
    if |s| == 0 then [] else Kinds(s[..|s| - 1]) + [s[|s| - 1].kind]
  }

  /** How many commands of a list have the given tag. */
  function CountKind(s: seq<RobotCommand>, kind: CommandType): (n: nat)
    ensures n <= |s|
  {
    if |s| == 0 then 0
    else CountKind(s[..|s| - 1], kind) + (if s[|s| - 1].kind == kind then 1 else 0)
  }

  /** The sum of the values of the commands of a list that have the given tag. */
  function TotalOf(s: seq<RobotCommand>, kind: CommandType): (total: real)
  {
    if |s| == 0 then 0.0
    else TotalOf(s[..|s| - 1], kind) + (if s[|s| - 1].kind == kind then s[|s| - 1].value else 0.0)
  }

  /** Counting distributes over concatenation. */
  lemma {:induction false} CountKindAppend(a: seq<RobotCommand>, b: seq<RobotCommand>, kind: CommandType)
    ensures CountKind(a + b, kind) == CountKind(a, kind) + CountKind(b, kind)
    decreases |b|
  {
    if |b| > 0 {
      var b0 := b[..|b| - 1];
      assert (a + b)[..|a + b| - 1] == a + b0;
      CountKindAppend(a, b0, kind);
    } else {
      assert a + b == a;
    }
  }

  /** No `move_backward`, and every turn is followed by a `move_forward` when anything
      follows it. Holds of every prefix of a list that has it. */
  predicate TurnsLeadToMoves(s: seq<RobotCommand>)
  {
    forall k :: 0 <= k < |s| ==>
      s[k].kind != MoveBackward &&
      (IsTurn(s[k].kind) && k + 1 < |s| ==> s[k + 1].kind == MoveForward)
  }

  /** The shape of a compiled list: no `move_backward`, every turn immediately followed
      by a `move_forward`; hence no two turns are adjacent and each move is preceded by
      at most one turn. */
  predicate WellFormed(s: seq<RobotCommand>)
  {
    TurnsLeadToMoves(s) && (|s| > 0 ==> !IsTurn(s[|s| - 1].kind))
  }

  /** Moves are at least 0.5 cm, turns between 5 and 180 degrees. */
  predicate ValuesInRange(s: seq<RobotCommand>)
  {
    forall k :: 0 <= k < |s| ==>
      (s[k].kind == MoveForward ==> s[k].value >= 0.5) &&
      (IsTurn(s[k].kind) ==> 5.0 <= s[k].value <= 180.0)
  }

  /** A turn in a well-formed list is never followed by another turn. */
  lemma WellFormedNoAdjacentTurns(s: seq<RobotCommand>, k: nat)
    requires WellFormed(s) && k + 1 < |s|
    ensures !(IsTurn(s[k].kind) && IsTurn(s[k + 1].kind))
  {
  }

  lemma WellFormedAppend(a: seq<RobotCommand>, b: seq<RobotCommand>)
    requires WellFormed(a) && WellFormed(b)
    ensures WellFormed(a + b)
  {
    var s := a + b;
    forall k | 0 <= k < |s|
      ensures s[k].kind != MoveBackward && (IsTurn(s[k].kind) && k + 1 < |s| ==> s[k + 1].kind == MoveForward)
    {
      if k < |a| {
        assert s[k] == a[k];
        if k + 1 < |a| {
          assert s[k + 1] == a[k + 1];
        }
      } else {
        assert s[k] == b[k - |a|];
        if k + 1 < |s| {
          assert s[k + 1] == b[k + 1 - |a|];
        }
      }
    }
  }

  lemma ValuesInRangeAppend(a: seq<RobotCommand>, b: seq<RobotCommand>)
    requires ValuesInRange(a) && ValuesInRange(b)
    ensures ValuesInRange(a + b)
  {
    var s := a + b;
    forall k | 0 <= k < |s|
      ensures (s[k].kind == MoveForward ==> s[k].value >= 0.5) && (IsTurn(s[k].kind) ==> 5.0 <= s[k].value <= 180.0)
    {
      if k < |a| {
        assert s[k] == a[k];
      } else {
        assert s[k] == b[k - |a|];
      }
    }
  }
}
