/** The summary header: per-grade counts and rounded percentages over the
    current job's results, and when the progress card is shown
    (src/components/SummaryHeader.tsx). */
module SummaryHeader {
  import opened Wrappers
  import opened Seqs
  import opened Types

  /** The number of results whose grade is `g`. */
  function CountOf(results: seq<EvaluationResult>, g: Grade): nat
  {
    Count(results, (r: EvaluationResult) => r.grade == GradeLabel(g))
  }

  /** `getGradeCount`: 0 without a job. */
  function GradeCount(job: Option<JobStatus>, g: Grade): nat
  {
    match job
    case None => 0
    case Some(j) => CountOf(j.results, g)
  }

  /** `Math.round(count / total * 100)` in integer arithmetic: the largest
      integer not above `100 * count / total + 1/2`. */
  function RoundedPercent(count: nat, total: nat): nat
    requires total > 0
  {
    (200 * count + total) / (2 * total)
  }

  /** `getGradePercentage`: 0 without a job or without results. */
  function GradePercentage(job: Option<JobStatus>, g: Grade): (p: nat)
    ensures p <= 100
  {
    if job.None? || |job.value.results| == 0 then 0
    else
      var total := |job.value.results|;
      RoundedPercentAtMost100(GradeCount(job, g), total);
      RoundedPercent(GradeCount(job, g), total)
  }

  /** The progress card is shown while the job is running. */
  predicate ShowsProgress(job: Option<JobStatus>)
  {
    job.Some? && job.value.status == Running
  }

  // ----- rounding -----

  lemma RoundedPercentAtMost100(count: nat, total: nat)
    requires 0 < total && count <= total
    ensures RoundedPercent(count, total) <= 100
  {
    RoundedPercentNearest(count, total);
    var p: int := RoundedPercent(count, total);
    assert total * (2 * p - 1) < total * 201;
    CancelFactor(total, 2 * p - 1, 201);
  }

  lemma CancelFactor(t: int, x: int, y: int)
    requires t > 0 && t * x < t * y
    ensures x < y
  {
    assert t * y - t * x == t * (y - x);
  }

  /** The percentage is the integer nearest to `100 * count / total`, halves
      rounded up, as `Math.round` does. */
  lemma RoundedPercentNearest(count: nat, total: nat)
    requires total > 0
    ensures var p := RoundedPercent(count, total);
            total * (2 * p - 1) <= 200 * count < total * (2 * p + 1)
  {
    var p: int := RoundedPercent(count, total);
    var n := 200 * count + total;
    assert 2 * total * p <= n < 2 * total * p + 2 * total;
  }

  /** That nearest integer is unique: any `q` within half a unit is the
      computed percentage. */
  lemma RoundedPercentUnique(count: nat, total: nat, q: int)
    requires total > 0
    requires total * (2 * q - 1) <= 200 * count < total * (2 * q + 1)
    ensures q == RoundedPercent(count, total)
  {
    var p: int := RoundedPercent(count, total);
    RoundedPercentNearest(count, total);
    assert total * (2 * q - 1) < total * (2 * p + 1);
    CancelFactor(total, 2 * q - 1, 2 * p + 1);
    assert total * (2 * p - 1) < total * (2 * q + 1);
    CancelFactor(total, 2 * p - 1, 2 * q + 1);
  }

  /** For a fixed total, a larger count never gives a smaller percentage. */
  lemma RoundedPercentMonotone(c1: nat, c2: nat, total: nat)
    requires total > 0 && c1 <= c2
    ensures RoundedPercent(c1, total) <= RoundedPercent(c2, total)
  {
    var p1: int, p2: int := RoundedPercent(c1, total), RoundedPercent(c2, total);
    RoundedPercentNearest(c1, total);
    RoundedPercentNearest(c2, total);
    assert total * (2 * p1 - 1) < total * (2 * p2 + 1);
    CancelFactor(total, 2 * p1 - 1, 2 * p2 + 1);
  }

  /** The percentage shown for `g` is the rounded share of results graded `g`. */
  lemma GradePercentageSpec(job: Option<JobStatus>, g: Grade)
    ensures job.None? || |job.value.results| == 0 ==> GradePercentage(job, g) == 0
    ensures job.Some? && |job.value.results| > 0 ==>
      var total, p := |job.value.results|, GradePercentage(job, g);
      total * (2 * p - 1) <= 200 * CountOf(job.value.results, g) < total * (2 * p + 1)
  {
    if job.Some? && |job.value.results| > 0 {
      RoundedPercentNearest(CountOf(job.value.results, g), |job.value.results|);
    }
  }

  // ----- the counts add up -----

  /** The counts of the grades in `gs`, summed. */
  function SumCounts(results: seq<EvaluationResult>, gs: seq<Grade>): nat
  {
    if gs == [] then 0 else CountOf(results, gs[0]) + SumCounts(results, gs[1..])
  }

  /** The number of results whose grade is none of the six. */
  function OffScale(results: seq<EvaluationResult>): nat
  {
    Count(results, (r: EvaluationResult) => !IsGradeLabel(r.grade))
  }

  /** How many of the grades in `gs` are spelled `grade`. */
  function Hits(grade: string, gs: seq<Grade>): nat
  {
    if gs == [] then 0 else (if grade == GradeLabel(gs[0]) then 1 else 0) + Hits(grade, gs[1..])
  }

  lemma {:induction false} SumCountsCons(x: EvaluationResult, rest: seq<EvaluationResult>, gs: seq<Grade>)
    ensures SumCounts([x] + rest, gs) == Hits(x.grade, gs) + SumCounts(rest, gs)
    decreases |gs|
  {
    if gs != [] {
      assert ([x] + rest)[0] == x && ([x] + rest)[1..] == rest;
      SumCountsCons(x, rest, gs[1..]);
    }
  }

  lemma {:induction false} SumCountsAll(results: seq<EvaluationResult>)
    ensures SumCounts(results, GRADES) + OffScale(results) == |results|
    decreases |results|
  {
    if results != [] {
      var x, rest := results[0], results[1..];
      assert results == [x] + rest;
      assert OffScale(results) == (if IsGradeLabel(x.grade) then 0 else 1) + OffScale(rest);
      SumCountsCons(x, rest, GRADES);
      SumCountsAll(rest);
      HitsGrades(x.grade);
    } else {
      SumCountsEmpty(GRADES);
    }
  }

  lemma {:induction false} SumCountsEmpty(gs: seq<Grade>)
    ensures SumCounts([], gs) == 0
    decreases |gs|
  {
    if gs != [] {
      SumCountsEmpty(gs[1..]);
    }
  }

  /** A string is the spelling of at most one grade. */
  lemma HitsGrades(grade: string)
    ensures Hits(grade, GRADES) == if IsGradeLabel(grade) then 1 else 0
  {
    var g6: seq<Grade> := [NotApplicable];
    var g5 := [F] + g6;
    var g4 := [D] + g5;
    var g3 := [C] + g4;
    var g2 := [B] + g3;
    var g1 := [A] + g2;
    assert g6[1..] == [] && g5[1..] == g6 && g4[1..] == g5 && g3[1..] == g4 && g2[1..] == g3 && g1[1..] == g2;
    assert Hits(grade, g6) == (if grade == "N/A" then 1 else 0);
    assert Hits(grade, g5) == (if grade == "F" || grade == "N/A" then 1 else 0);
    assert Hits(grade, g4) == (if grade == "D" || grade == "F" || grade == "N/A" then 1 else 0);
    assert Hits(grade, g3) == (if grade == "C" || grade == "D" || grade == "F" || grade == "N/A" then 1 else 0);
    assert Hits(grade, g2) == (if grade == "B" || grade == "C" || grade == "D" || grade == "F" || grade == "N/A" then 1 else 0);
    assert g1 == GRADES;
  }

  /** Summed over the six grades, the counts equal the number of results
      exactly when every result carries one of the six grades. */
  lemma GradeCountsSum(job: Option<JobStatus>)
    requires job.Some?
    ensures SumCounts(job.value.results, GRADES) == |job.value.results| <==>
      forall r :: r in job.value.results ==> IsGradeLabel(r.grade)
  {
    var results := job.value.results;
    SumCountsAll(results);
    var off := Filter(results, (r: EvaluationResult) => !IsGradeLabel(r.grade));
    assert OffScale(results) == |off|;
    if exists r :: r in results && !IsGradeLabel(r.grade) {
      var r :| r in results && !IsGradeLabel(r.grade);
      var i :| 0 <= i < |results| && results[i] == r;
      assert r in off;
    } else {
      FilterEmpty(results, (r: EvaluationResult) => !IsGradeLabel(r.grade));
    }
  }

  /** Without a job every count is 0. */
  lemma NoJobNoCounts(g: Grade)
    ensures GradeCount(None, g) == 0 && GradePercentage(None, g) == 0
  {
  }
}
