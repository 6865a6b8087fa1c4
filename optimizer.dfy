/** The command optimiser (`optimizeCommands`): a run-length merge that collapses each
    maximal run of adjacent commands with the same type into one command whose value
    is the run's sum. */
module Optimizer {
  import opened Commands

  /** What `optimizeCommands` returns, as a fold from the left over the input. */
  function Optimize(s: seq<RobotCommand>): (r: seq<RobotCommand>)
    ensures |r| <= |s|
    ensures |r| == 0 <==> |s| == 0
    ensures |s| > 0 ==> r[|r| - 1].kind == s[|s| - 1].kind
    decreases |s|
  {
    if |s| == 0 then [] else Absorb(Optimize(s[..|s| - 1]), s[|s| - 1])
  }

  /** Whether the next command joins the last output command: their types agree. */
  predicate Merges(done: seq<RobotCommand>, next: RobotCommand)
  {
    |done| > 0 && done[|done| - 1].kind == next.kind
  }

  /** One iteration of the loop: the next command either adds its value to the last
      output command, when their types agree, or is appended. */
  function Absorb(done: seq<RobotCommand>, next: RobotCommand): (r: seq<RobotCommand>)
    ensures 0 < |r| <= |done| + 1
    ensures r[|r| - 1].kind == next.kind
  {
    if Merges(done, next) then
      done[..|done| - 1] + [done[|done| - 1].(value := done[|done| - 1].value + next.value)]
    else done + [next]
  }

  /** Command j starts a maximal run of equal types. */
  predicate IsRunHead(s: seq<RobotCommand>, j: nat)
    requires j < |s|
  {
    j == 0 || s[j - 1].kind != s[j].kind
  }

  /** The positions where the maximal runs start, in order. */
  function RunHeads(s: seq<RobotCommand>): (h: seq<nat>)
    ensures forall k :: 0 <= k < |h| ==> h[k] < |s|
    decreases |s|
  {
    if |s| == 0 then []
    else RunHeads(s[..|s| - 1]) + (if IsRunHead(s, |s| - 1) then [|s| - 1] else [])
  }

  /** Where the k-th run ends: at the next run's start, or at the end of the list. */
  function RunEnd(h: seq<nat>, k: nat, n: nat): (e: nat)
    requires k < |h|
  {
    if k + 1 < |h| then h[k + 1] else n
  }

  /** The sum of the values of a list of commands. */
  function ValueSum(s: seq<RobotCommand>): (total: real)
  {
    if |s| == 0 then 0.0 else ValueSum(s[..|s| - 1]) + s[|s| - 1].value
  }

  /** Collapses adjacent duplicates of a sequence of tags. */
  function Collapse(t: seq<CommandType>): (c: seq<CommandType>)
  {
    if |t| <= 1 then t
    else if t[0] == t[1] then Collapse(t[1..])
    else [t[0]] + Collapse(t[1..])
  }

  /** The run starts strictly increase, the first is position 0, each one is a run
      start, and every run start is listed. */
  lemma {:induction false} RunHeadsSpec(s: seq<RobotCommand>)
    ensures |s| > 0 ==> |RunHeads(s)| > 0 && RunHeads(s)[0] == 0
    ensures forall k :: 0 < k < |RunHeads(s)| ==> RunHeads(s)[k - 1] < RunHeads(s)[k]
    ensures forall k :: 0 <= k < |RunHeads(s)| ==> IsRunHead(s, RunHeads(s)[k])
    ensures forall j :: 0 <= j < |s| && IsRunHead(s, j) ==> j in RunHeads(s)
    decreases |s|
  {
    if |s| > 0 {
      var q := s[..|s| - 1];
      RunHeadsSpec(q);
      assert forall j :: 0 <= j < |q| ==> (IsRunHead(q, j) <==> IsRunHead(s, j));
    }
  }

  /** Every command of t has the given type. */
  predicate AllOfKind(t: seq<RobotCommand>, kind: CommandType)
  {
    forall j :: 0 <= j < |t| ==> t[j].kind == kind
  }

  /** Command c stands for the k-th run of s, the run from h[k] up to the next run's
      start: every command of the run has c's type, and c's value is the sum of the
      run's values. */
  ghost predicate RunMerged(s: seq<RobotCommand>, h: seq<nat>, k: nat, c: RobotCommand)
    requires k < |h|
  {
    && h[k] < RunEnd(h, k, |s|) <= |s|
    && AllOfKind(s[h[k]..RunEnd(h, k, |s|)], c.kind)
    && c.value == ValueSum(s[h[k]..RunEnd(h, k, |s|)])
  }

  /** r merges the maximal runs of s that start at the positions h: r has one command
      per run, of the run's type, whose value is the sum of the run's values. */
  ghost predicate MergesRuns(s: seq<RobotCommand>, r: seq<RobotCommand>, h: seq<nat>)
  {
    |r| == |h| && forall k :: 0 <= k < |h| ==> RunMerged(s, h, k, r[k])
  }

  lemma ValueSumSingle(x: RobotCommand)
    ensures ValueSum([x]) == x.value
  {
    assert [x][..0] == [];
  }

  /** The last run grows by x. */
  lemma LastRunExtend(q: seq<RobotCommand>, a: nat, x: RobotCommand, kind: CommandType)
    requires a <= |q| && AllOfKind(q[a..|q|], kind) && x.kind == kind
    ensures AllOfKind((q + [x])[a..|q| + 1], kind)
    ensures ValueSum((q + [x])[a..|q| + 1]) == ValueSum(q[a..|q|]) + x.value
  {
    var t := (q + [x])[a..|q| + 1];
    assert t[..|t| - 1] == q[a..|q|] && t[|t| - 1] == x;
  }

  /** Appending x leaves a slice that ends inside q unchanged. */
  lemma SliceBeforeEnd(q: seq<RobotCommand>, x: RobotCommand, a: nat, b: nat)
    requires a <= b <= |q|
    ensures (q + [x])[a..b] == q[a..b]
  {
  }

  /** A merging step changes only the last output command, adding x's value to it. */
  lemma AbsorbMerged(r0: seq<RobotCommand>, x: RobotCommand)
    requires Merges(r0, x)
    ensures |Absorb(r0, x)| == |r0|
    ensures forall k :: 0 <= k < |r0| - 1 ==> Absorb(r0, x)[k] == r0[k]
    ensures Absorb(r0, x)[|r0| - 1] == r0[|r0| - 1].(value := r0[|r0| - 1].value + x.value)
  {
  }

  /** A run that ends before the last position of q is unchanged by appending x. */
  lemma EarlierRunKept(q: seq<RobotCommand>, x: RobotCommand, h: seq<nat>, k: nat, c: RobotCommand)
    requires k + 1 < |h| && RunMerged(q, h, k, c)
    ensures RunMerged(q + [x], h, k, c)
  {
    assert RunEnd(h, k, |q| + 1) == RunEnd(h, k, |q|) == h[k + 1];
    SliceBeforeEnd(q, x, h[k], h[k + 1]);
  }

  /** The last run of q, grown by a command x of its type. */
  lemma LastRunGrown(q: seq<RobotCommand>, x: RobotCommand, h: seq<nat>, c: RobotCommand)
    requires |h| > 0 && RunMerged(q, h, |h| - 1, c) && c.kind == x.kind
    ensures RunMerged(q + [x], h, |h| - 1, c.(value := c.value + x.value))
  {
    var k := |h| - 1;
    assert RunEnd(h, k, |q| + 1) == |q| + 1 && RunEnd(h, k, |q|) == |q|;
    LastRunExtend(q, h[k], x, c.kind);
  }

  /** Appending a command of the last run's type extends the last run. */
  lemma MergesRunsExtend(q: seq<RobotCommand>, r0: seq<RobotCommand>, h0: seq<nat>, x: RobotCommand)
    requires MergesRuns(q, r0, h0) && Merges(r0, x)
    ensures MergesRuns(q + [x], Absorb(r0, x), h0)
  {
    var r := Absorb(r0, x);
    AbsorbMerged(r0, x);
    forall k | 0 <= k < |h0|
      ensures RunMerged(q + [x], h0, k, r[k])
    {
      if k + 1 < |h0| {
        assert r[k] == r0[k];
        EarlierRunKept(q, x, h0, k, r0[k]);
      } else {
        LastRunGrown(q, x, h0, r0[k]);
      }
    }
  }

  /** A run of q keeps its extent when x starts a new run after it. */
  lemma RunKeptBeforeNew(q: seq<RobotCommand>, x: RobotCommand, h: seq<nat>, k: nat, c: RobotCommand)
    requires k < |h| && RunMerged(q, h, k, c)
    ensures RunMerged(q + [x], h + [|q|], k, c)
  {
    var h1 := h + [|q|];
    assert h1[k] == h[k];
    assert RunEnd(h1, k, |q| + 1) == RunEnd(h, k, |q|);
    SliceBeforeEnd(q, x, h[k], RunEnd(h, k, |q|));
  }

  /** The new run holds x alone. */
  lemma NewRun(q: seq<RobotCommand>, x: RobotCommand, h: seq<nat>)
    ensures RunMerged(q + [x], h + [|q|], |h|, x)
  {
    var h1 := h + [|q|];
    assert h1[|h|] == |q| && RunEnd(h1, |h|, |q| + 1) == |q| + 1;
    assert (q + [x])[|q|..|q| + 1] == [x];
    ValueSumSingle(x);
  }

  /** Appending a command of another type starts a new run. */
  lemma MergesRunsStart(q: seq<RobotCommand>, r0: seq<RobotCommand>, h0: seq<nat>, x: RobotCommand)
    requires MergesRuns(q, r0, h0) && !Merges(r0, x)
    ensures MergesRuns(q + [x], Absorb(r0, x), h0 + [|q|])
  {
    var r, h := Absorb(r0, x), h0 + [|q|];
    assert r == r0 + [x];
    forall k | 0 <= k < |h|
      ensures RunMerged(q + [x], h, k, r[k])
    {
      if k < |h0| {
        assert r[k] == r0[k];
        RunKeptBeforeNew(q, x, h0, k, r0[k]);
      } else {
        NewRun(q, x, h0);
      }
    }
  }

  /** Each output command is one maximal run of the input: of the run's type, its value
      the sum of the run's values; the runs start at the run heads, one after another. */
  lemma {:induction false} OptimizeMergesRuns(s: seq<RobotCommand>)
    ensures MergesRuns(s, Optimize(s), RunHeads(s))
    decreases |s|
  {
    if |s| > 0 {
      var q, x := s[..|s| - 1], s[|s| - 1];
      OptimizeMergesRuns(q);
      LastCommandStep(s);
      if Merges(Optimize(q), x) {
        MergesRunsExtend(q, Optimize(q), RunHeads(q), x);
      } else {
        MergesRunsStart(q, Optimize(q), RunHeads(q), x);
      }
    }
  }

  /** The last command of a list either joins the fold's last run or starts a new run
      at its own position. */
  lemma LastCommandStep(s: seq<RobotCommand>)
    requires |s| > 0
    ensures var q, x := s[..|s| - 1], s[|s| - 1];
      && s == q + [x]
      && Optimize(s) == Absorb(Optimize(q), x)
      && (Merges(Optimize(q), x) <==> !IsRunHead(s, |s| - 1))
      && RunHeads(s) == if IsRunHead(s, |s| - 1) then RunHeads(q) + [|q|] else RunHeads(q)
  {
    var q := s[..|s| - 1];
    assert s == q + [s[|s| - 1]];
    if |s| > 1 {
      assert q[|q| - 1] == s[|s| - 2];
    }
  }

  /** No two adjacent commands share a type. */
  predicate NoAdjacentRepeats(s: seq<RobotCommand>)
  {
    forall k :: 0 < k < |s| ==> s[k - 1].kind != s[k].kind
  }

  lemma AbsorbKinds(done: seq<RobotCommand>, x: RobotCommand)
    ensures Kinds(Absorb(done, x)) == if Merges(done, x) then Kinds(done) else Kinds(done) + [x.kind]
  {
    var r := Absorb(done, x);
    if Merges(done, x) {
      var p := done[..|done| - 1];
      assert r[..|r| - 1] == p;
      assert r[|r| - 1].kind == done[|done| - 1].kind;
    } else {
      assert r[..|r| - 1] == done;
    }
  }

  lemma AbsorbNoRepeats(done: seq<RobotCommand>, x: RobotCommand)
    requires NoAdjacentRepeats(done)
    ensures NoAdjacentRepeats(Absorb(done, x))
  {
    var r := Absorb(done, x);
    if Merges(done, x) {
      assert forall k :: 0 <= k < |r| ==> r[k].kind == done[k].kind;
    } else {
      assert forall k :: 0 <= k < |done| ==> r[k] == done[k];
    }
  }

  /** No two adjacent output commands share a type. */
  lemma {:induction false} OptimizeNoAdjacentRepeats(s: seq<RobotCommand>)
    ensures NoAdjacentRepeats(Optimize(s))
    decreases |s|
  {
    if |s| > 0 {
      var q := s[..|s| - 1];
      OptimizeNoAdjacentRepeats(q);
      AbsorbNoRepeats(Optimize(q), s[|s| - 1]);
    }
  }

  lemma {:induction false} CollapseSnoc(t: seq<CommandType>, a: CommandType)
    ensures |t| > 0 ==> |Collapse(t)| > 0 && Collapse(t)[|Collapse(t)| - 1] == t[|t| - 1]
    ensures Collapse(t + [a]) == if |t| > 0 && t[|t| - 1] == a then Collapse(t) else Collapse(t) + [a]
    decreases |t|
  {
    if |t| >= 2 {
      assert (t + [a])[1..] == t[1..] + [a];
      CollapseSnoc(t[1..], a);
    } else if |t| == 1 {
      assert (t + [a])[1..] == [a];
    }
  }

  /** The output's types are the input's types with adjacent duplicates collapsed. */
  lemma {:induction false} OptimizeKinds(s: seq<RobotCommand>)
    ensures Kinds(Optimize(s)) == Collapse(Kinds(s))
    decreases |s|
  {
    if |s| > 0 {
      var q, x := s[..|s| - 1], s[|s| - 1];
      var r0, t := Optimize(q), Kinds(q);
      OptimizeKinds(q);
      CollapseSnoc(t, x.kind);
      AbsorbKinds(r0, x);
      assert Kinds(s) == t + [x.kind];
      assert Optimize(s) == Absorb(r0, x);
      assert Merges(r0, x) <==> (|t| > 0 && t[|t| - 1] == x.kind);
    }
  }

  lemma AbsorbTotals(done: seq<RobotCommand>, x: RobotCommand, kind: CommandType)
    ensures TotalOf(Absorb(done, x), kind) == TotalOf(done, kind) + (if x.kind == kind then x.value else 0.0)
  {
    var r := Absorb(done, x);
    if Merges(done, x) {
      var p := done[..|done| - 1];
      assert r[..|r| - 1] == p;
      assert done[..|done| - 1] == p;
    } else {
      assert r[..|r| - 1] == done;
    }
  }

  /** For every type, the output's values of that type add up to the input's. */
  lemma {:induction false} OptimizeTotals(s: seq<RobotCommand>, kind: CommandType)
    ensures TotalOf(Optimize(s), kind) == TotalOf(s, kind)
    decreases |s|
  {
    if |s| > 0 {
      var q, x := s[..|s| - 1], s[|s| - 1];
      OptimizeTotals(q, kind);
      AbsorbTotals(Optimize(q), x, kind);
    }
  }

  /** A list made only of forward moves becomes one move covering the total distance. */
  lemma {:induction false} OptimizeMovesOnly(s: seq<RobotCommand>)
    requires |s| > 0
    requires forall k :: 0 <= k < |s| ==> s[k].kind == MoveForward
    ensures Optimize(s) == [RobotCommand(MoveForward, TotalOf(s, MoveForward))]
    decreases |s|
  {
    var q, x := s[..|s| - 1], s[|s| - 1];
    assert TotalOf(s, MoveForward) == TotalOf(q, MoveForward) + x.value;
    assert Optimize(s) == Absorb(Optimize(q), x);
    if |q| > 0 {
      assert forall k :: 0 <= k < |q| ==> q[k] == s[k];
      OptimizeMovesOnly(q);
      var done := Optimize(q);
      assert Merges(done, x);
      assert done[..|done| - 1] == [];
    }
  }

  lemma AbsorbKeepsShape(q: seq<RobotCommand>, done: seq<RobotCommand>, x: RobotCommand)
    requires TurnsLeadToMoves(q + [x]) && ValuesInRange(q + [x])
    requires TurnsLeadToMoves(done) && ValuesInRange(done)
    requires |q| > 0 <==> |done| > 0
    requires |q| > 0 ==> done[|done| - 1].kind == q[|q| - 1].kind
    ensures TurnsLeadToMoves(Absorb(done, x)) && ValuesInRange(Absorb(done, x))
  {
    var s, r := q + [x], Absorb(done, x);
    var n := |s|;
    assert s[n - 1] == x;
    if Merges(done, x) {
      assert s[n - 2] == q[|q| - 1];
      assert x.kind == MoveForward;
      assert forall k :: 0 <= k < |r| - 1 ==> r[k] == done[k];
    } else {
      assert forall k :: 0 <= k < |done| ==> r[k] == done[k];
      if |done| > 0 {
        assert s[n - 2] == q[|q| - 1];
      }
    }
  }

  /** Merging keeps a compiled list's shape: still no `move_backward`, every turn still
      followed by a move, and values still in range (turns are never merged, since a
      turn is always followed by a move). */
  lemma {:induction false} OptimizeKeepsShape(s: seq<RobotCommand>)
    requires TurnsLeadToMoves(s) && ValuesInRange(s)
    ensures TurnsLeadToMoves(Optimize(s)) && ValuesInRange(Optimize(s))
    ensures WellFormed(s) ==> WellFormed(Optimize(s))
    decreases |s|
  {
    if |s| > 0 {
      var n := |s|;
      var q, x := s[..n - 1], s[n - 1];
      assert q + [x] == s;
      assert forall k :: 0 <= k < |q| ==> q[k] == s[k];
      OptimizeKeepsShape(q);
      AbsorbKeepsShape(q, Optimize(q), x);
    }
  }

  /** Turns separated by a move are not adjacent and stay apart. */
  lemma SeparatedTurnsStayApart()
    ensures var s := [RobotCommand(TurnLeft, 10.0), RobotCommand(MoveForward, 5.0), RobotCommand(TurnLeft, 8.0)];
      Optimize(s) == s
  {
    var s := [RobotCommand(TurnLeft, 10.0), RobotCommand(MoveForward, 5.0), RobotCommand(TurnLeft, 8.0)];
    assert s[..2][..1] == s[..1];
    assert Optimize(s[..1]) == s[..1];
    assert Optimize(s[..2]) == s[..2];
  }

  /** How the fold grows by one input command. */
  lemma PrefixStep(s: seq<RobotCommand>, i: nat)
    requires 1 <= i < |s|
    ensures Optimize(s[..i + 1]) == Absorb(Optimize(s[..i]), s[i])
  {
    assert s[..i + 1][..i] == s[..i];
  }

  /** The run heads grow by i exactly when command i starts a run. */
  lemma HeadsStep(s: seq<RobotCommand>, i: nat)
    requires 1 <= i < |s|
    ensures RunHeads(s[..i + 1]) == if IsRunHead(s, i) then RunHeads(s[..i]) + [i] else RunHeads(s[..i])
  {
    assert s[..i + 1][..i] == s[..i];
  }

  /** One iteration of `optimizeCommands` on the fold: the next command merges into the
      current run's command when their types agree, and otherwise finishes it. */
  lemma AbsorbCurrent(optimized: seq<RobotCommand>, run: RobotCommand, next: RobotCommand)
    ensures Absorb(optimized + [run], next) ==
      if run.kind == next.kind then optimized + [run.(value := run.value + next.value)]
      else optimized + [run] + [next]
  {
    var done := optimized + [run];
    assert done[..|done| - 1] == optimized;
  }

  /** The fold after command i when it joins the current run. */
  lemma FoldMerge(s0: seq<RobotCommand>, i: nat, optimized: seq<RobotCommand>, run: RobotCommand, next: RobotCommand)
    requires 1 <= i < |s0| && optimized + [run] == Optimize(s0[..i]) && next == s0[i] && run.kind == next.kind
    ensures optimized + [run.(value := run.value + next.value)] == Optimize(s0[..i + 1])
  {
    PrefixStep(s0, i);
    AbsorbCurrent(optimized, run, next);
  }

  /** The fold after command i when it starts a new run. */
  lemma FoldStart(s0: seq<RobotCommand>, i: nat, optimized: seq<RobotCommand>, run: RobotCommand, next: RobotCommand)
    requires 1 <= i < |s0| && optimized + [run] == Optimize(s0[..i]) && next == s0[i] && run.kind != next.kind
    ensures optimized + [run] + [next] == Optimize(s0[..i + 1])
  {
    PrefixStep(s0, i);
    AbsorbCurrent(optimized, run, next);
  }

  /** The run head of the current run once the loop has seen the first i commands:
      the last run head before i. */
  function LastHead(s: seq<RobotCommand>, i: nat): (h: nat)
    requires 0 < i <= |s|
    ensures h < i && IsRunHead(s, h)
    decreases i
  {
    if IsRunHead(s, i - 1) then i - 1 else LastHead(s, i - 1)
  }

  /** The array's contents once the loop of `optimizeCommands` has seen the first i
      commands of s: command i - 1 either starts a run, and nothing is written, or its
      value is added to the command at the current run's head. */
  function InPlace(s: seq<RobotCommand>, i: nat): (a: seq<RobotCommand>)
    requires i <= |s|
    ensures |a| == |s|
    decreases i
  {
    if i <= 1 then s
    else
      var b := InPlace(s, i - 1);
      if IsRunHead(s, i - 1) then b
      else
        var h := LastHead(s, i - 1);
        b[h := b[h].(value := b[h].value + s[i - 1].value)]
  }

  /** The output commands finished once the loop has seen the first i commands: the
      current run's command is pushed when command i - 1 starts a new run. */
  function Finished(s: seq<RobotCommand>, i: nat): (done: seq<RobotCommand>)
    requires 0 < i <= |s|
    decreases i
  {
    if i == 1 then []
    else if IsRunHead(s, i - 1) then Finished(s, i - 1) + [InPlace(s, i - 1)[LastHead(s, i - 1)]]
    else Finished(s, i - 1)
  }

  /** One more command seen: how the array, the current run's head and the finished
      commands change. */
  lemma InPlaceStep(s: seq<RobotCommand>, i: nat)
    requires 0 < i < |s|
    ensures var a, h := InPlace(s, i), LastHead(s, i);
      if IsRunHead(s, i) then
        InPlace(s, i + 1) == a && LastHead(s, i + 1) == i && Finished(s, i + 1) == Finished(s, i) + [a[h]]
      else
        InPlace(s, i + 1) == a[h := a[h].(value := a[h].value + s[i].value)]
        && LastHead(s, i + 1) == h && Finished(s, i + 1) == Finished(s, i)
  {
  }

  /** Only run heads before i have been written, and the current run's head holds a
      command of the current run's type. */
  lemma {:induction false} InPlaceUntouched(s: seq<RobotCommand>, i: nat)
    requires 0 < i <= |s|
    ensures InPlace(s, i)[LastHead(s, i)].kind == s[i - 1].kind
    ensures forall j :: 0 <= j < |s| && !(j < i && IsRunHead(s, j)) ==> InPlace(s, i)[j] == s[j]
    decreases i
  {
    if i > 1 {
      var p := i - 1;
      InPlaceUntouched(s, p);
      InPlaceStep(s, p);
      var b, h, c := InPlace(s, p), LastHead(s, p), InPlace(s, i);
      forall j | 0 <= j < |s| && !(j < i && IsRunHead(s, j))
        ensures c[j] == s[j]
      {
        assert j != h && !(j < p && IsRunHead(s, j));
        assert c[j] == b[j];
      }
      if !IsRunHead(s, p) {
        assert c[h].kind == b[h].kind;
      }
    }
  }

  /** What one iteration reads: the current run's head holds a command of the current
      run's type, and command i has not been written. */
  lemma InPlaceCurrent(s: seq<RobotCommand>, i: nat)
    requires 0 < i < |s|
    ensures InPlace(s, i)[LastHead(s, i)].kind == s[i - 1].kind
    ensures InPlace(s, i)[i] == s[i]
  {
    InPlaceUntouched(s, i);
  }

  /** The finished commands followed by the command at the current run's head are the
      fold so far. */
  lemma {:induction false} InPlaceFold(s: seq<RobotCommand>, i: nat)
    requires 0 < i <= |s|
    ensures Finished(s, i) + [InPlace(s, i)[LastHead(s, i)]] == Optimize(s[..i])
    decreases i
  {
    if i == 1 {
      assert s[..1][..0] == [];
    } else {
      var j := i - 1;
      InPlaceFold(s, j);
      InPlaceCurrent(s, j);
      InPlaceStep(s, j);
      var b, h := InPlace(s, j), LastHead(s, j);
      if IsRunHead(s, j) {
        FoldStart(s, j, Finished(s, j), b[h], b[j]);
      } else {
        FoldMerge(s, j, Finished(s, j), b[h], b[j]);
      }
    }
  }

  /** The finished commands sit at the run heads before the current one, in order. */
  lemma {:induction false} InPlacePlaced(s: seq<RobotCommand>, i: nat)
    requires 0 < i <= |s|
    ensures |RunHeads(s[..i])| == |Finished(s, i)| + 1
    ensures RunHeads(s[..i])[|Finished(s, i)|] == LastHead(s, i)
    ensures forall k :: 0 <= k < |Finished(s, i)| ==>
      RunHeads(s[..i])[k] < LastHead(s, i) && InPlace(s, i)[RunHeads(s[..i])[k]] == Finished(s, i)[k]
    decreases i
  {
    if i == 1 {
      assert s[..1][..0] == [];
    } else {
      var j := i - 1;
      InPlacePlaced(s, j);
      HeadsStep(s, j);
      InPlaceStep(s, j);
      var b, h, heads, done := InPlace(s, j), LastHead(s, j), RunHeads(s[..j]), Finished(s, j);
      if IsRunHead(s, j) {
        forall k | 0 <= k < |done| + 1
          ensures (heads + [j])[k] < j && b[(heads + [j])[k]] == (done + [b[h]])[k]
        {
          if k < |done| {
            assert (heads + [j])[k] == heads[k] && (done + [b[h]])[k] == done[k];
          } else {
            assert (heads + [j])[k] == h;
          }
        }
      } else {
        var c := InPlace(s, i);
        forall k | 0 <= k < |done|
          ensures c[heads[k]] == done[k]
        {
          assert heads[k] < h;
        }
      }
    }
  }

  /** Once the loop has seen the first i commands, the command at each run head so far
      is the matching command of the fold so far. */
  lemma InPlaceHeads(s: seq<RobotCommand>, i: nat)
    requires 0 < i <= |s|
    ensures |RunHeads(s[..i])| == |Optimize(s[..i])|
    ensures forall k :: 0 <= k < |Optimize(s[..i])| ==> InPlace(s, i)[RunHeads(s[..i])[k]] == Optimize(s[..i])[k]
  {
    InPlaceFold(s, i);
    InPlacePlaced(s, i);
    var a, done, heads, o := InPlace(s, i), Finished(s, i), RunHeads(s[..i]), Optimize(s[..i]);
    var h := LastHead(s, i);
    assert o == done + [a[h]];
    forall k | 0 <= k < |o|
      ensures a[heads[k]] == o[k]
    {
      if k < |done| {
        assert o[k] == done[k];
      } else {
        assert k == |done| && o[k] == a[h] && heads[k] == h;
      }
    }
  }

  /** After the whole input: each output command is in the array at its run's head,
      and every other slot holds its input command. */
  lemma InPlaceDone(s: seq<RobotCommand>)
    ensures |RunHeads(s)| == |Optimize(s)|
    ensures forall k :: 0 <= k < |Optimize(s)| ==> InPlace(s, |s|)[RunHeads(s)[k]] == Optimize(s)[k]
    ensures forall j :: 0 <= j < |s| && !IsRunHead(s, j) ==> InPlace(s, |s|)[j] == s[j]
  {
    if |s| > 0 {
      InPlaceHeads(s, |s|);
      InPlaceUntouched(s, |s|);
      assert s[..|s|] == s;
    }
  }

  /** `optimizeCommands`. Its accumulator `current` is a reference into the
      input list, and `current.value += next.value` updates that list's command in
      place; here `current` is the index of that command in the array and the update
      writes the array. The result is the fold, and the array ends up as InPlace says:
      by InPlaceDone, its run-head slots hold the output commands and every other slot
      its input command. */
  method OptimizeCommands(commands: array<RobotCommand>) returns (optimized: seq<RobotCommand>)
    modifies commands
    ensures optimized == Optimize(old(commands[..]))
    ensures commands[..] == InPlace(old(commands[..]), commands.Length)
  {
    ghost var s0 := commands[..];
    if commands.Length == 0 {
      return [];
    }
    optimized := [];
    var current: nat := 0;
    for i := 1 to commands.Length
      invariant commands[..] == InPlace(s0, i)
      invariant current == LastHead(s0, i)
      invariant optimized == Finished(s0, i)
    {
      InPlaceCurrent(s0, i);
      InPlaceStep(s0, i);
      ghost var a := commands[..];
      var run, next := commands[current], commands[i];
      assert run == a[current] && next == a[i] == s0[i] && run.kind == s0[i - 1].kind;
      if run.kind == next.kind {
        commands[current] := run.(value := run.value + next.value);
        assert commands[..] == a[current := run.(value := run.value + next.value)];
      } else {
        optimized := optimized + [run];
        current := i;
      }
    }
    InPlaceFold(s0, commands.Length);
    assert s0[..commands.Length] == s0;
    optimized := optimized + [commands[current]];
  }
}
