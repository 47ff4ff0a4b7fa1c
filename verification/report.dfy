/** The summary of the extracted report of one upload: the goal and BMP
    counts and the completion rate, the mean of the goals' progress
    percentages. */
module Report {
  import opened Wrappers

  /** The two places a goal row may carry a progress percentage. */
  datatype Progress = Progress(value: Option<real>, unit: Option<string>)
  datatype GoalFacts = GoalFacts(progressPercent: Option<real>, progress: Option<Progress>)

  /** The six category lists fetched for the upload; rows other than goals
      are passed through untouched, so their shape is a type parameter. */
  datatype Fetched<T> = Fetched(
    goals: seq<GoalFacts>, bmps: seq<T>, implementation: seq<T>,
    monitoring: seq<T>, outreach: seq<T>, geographicAreas: seq<T>)

  datatype Summary = Summary(totalGoals: nat, totalBMPs: nat, completionRate: real)

  datatype ExtractedReport<T> = ExtractedReport(
    summary: Summary,
    goals: seq<GoalFacts>, bmps: seq<T>, implementation: seq<T>,
    monitoring: seq<T>, outreach: seq<T>, geographicAreas: seq<T>)

  /** A goal's percentage: `progressPercent` when it is a number, otherwise
      `progress.value` when `progress.unit` contains a '%'. */
  function Percent(g: GoalFacts): (pct: Option<real>)
    ensures g.progressPercent.Some? ==> pct == g.progressPercent
    ensures g.progressPercent.None? && pct.Some? ==>
      g.progress.Some? && g.progress.value.value == pct
    ensures g.progressPercent.None? ==>
      (pct.Some? <==> g.progress.Some? && g.progress.value.value.Some?
                      && g.progress.value.unit.Some? && '%' in g.progress.value.unit.value)
  {
    if g.progressPercent.Some? then g.progressPercent
    else match g.progress
      case Some(Progress(Some(v), Some(u))) => if '%' in u then Some(v) else None
      case _ => None
  }

  /** The percentages of the contributing goals, in goal order. */
  function Percents(goals: seq<GoalFacts>): (pcts: seq<real>)
    ensures |pcts| <= |goals|
    ensures pcts == [] <==> forall k :: 0 <= k < |goals| ==> Percent(goals[k]).None?
    ensures forall x :: x in pcts ==> exists g :: g in goals && Percent(g) == Some(x)
    ensures forall k :: 0 <= k < |goals| && Percent(goals[k]).Some? ==> Percent(goals[k]).value in pcts
  {
    if goals == [] then []
    else
      var init := goals[..|goals| - 1];
      var last := goals[|goals| - 1];
      assert forall g :: g in init ==> g in goals;
      assert forall k :: 0 <= k < |init| ==> init[k] == goals[k];
      match Percent(last)
        case Some(p) => Percents(init) + [p]
        case None => Percents(init)
  }

  /** The percentages of consecutive goal lists follow one another. */
  lemma {:induction false} PercentsAppend(a: seq<GoalFacts>, b: seq<GoalFacts>)
    ensures Percents(a + b) == Percents(a) + Percents(b)
  {
    if b != [] {
      PercentsAppend(a, b[..|b| - 1]);
      assert (a + b)[..|a + b| - 1] == a + b[..|b| - 1];
      assert (a + b)[|a + b| - 1] == b[|b| - 1];
    } else {
      assert a + b == a;
    }
  }

  /** Every goal contributes exactly its own percentage, if it has one, at
      its own place among the others: one value per contributing goal. */
  lemma PercentsOnePerGoal(a: seq<GoalFacts>, g: GoalFacts, b: seq<GoalFacts>)
    ensures Percents(a + [g] + b) ==
      Percents(a) + (if Percent(g).Some? then [Percent(g).value] else []) + Percents(b)
  {
    PercentsAppend(a + [g], b);
    PercentsAppend(a, [g]);
    assert [g][..0] == [];
  }

  function Sum(xs: seq<real>): real
  {
    if xs == [] then 0.0 else xs[0] + Sum(xs[1..])
  }

  /** The average of the percentages, or 0 when there are none. */
  function Mean(xs: seq<real>): (m: real)
    ensures xs == [] ==> m == 0.0
  {
    if xs == [] then 0.0 else Sum(xs) / (|xs| as real)
  }

  lemma {:induction false} SumBounds(xs: seq<real>, lo: real, hi: real)
    requires forall k :: 0 <= k < |xs| ==> lo <= xs[k] <= hi
    ensures (|xs| as real) * lo <= Sum(xs) <= (|xs| as real) * hi
  {
    if xs != [] {
      SumBounds(xs[1..], lo, hi);
    }
  }

  /** The mean lies between any lower and upper bound of its values, in
      particular between their minimum and maximum. */
  lemma MeanBetween(xs: seq<real>, lo: real, hi: real)
    requires xs != []
    requires forall k :: 0 <= k < |xs| ==> lo <= xs[k] <= hi
    ensures lo <= Mean(xs) <= hi
  {
    SumBounds(xs, lo, hi);
    var n := |xs| as real;
    assert n > 0.0;
    assert Mean(xs) * n == Sum(xs);
  }

  /** A mean of equal values is that value. */
  lemma MeanOfConstant(xs: seq<real>, v: real)
    requires xs != []
    requires forall k :: 0 <= k < |xs| ==> xs[k] == v
    ensures Mean(xs) == v
  {
    MeanBetween(xs, v, v);
  }

  /** The loop over the goals pushing each contributing percentage. */
  method CollectPercents(goals: seq<GoalFacts>) returns (pcts: seq<real>)
    ensures pcts == Percents(goals)
  {
    pcts := [];
    var i := 0;
    while i < |goals|
      invariant 0 <= i <= |goals|
      invariant pcts == Percents(goals[..i])
    {
      assert goals[..i + 1][..i] == goals[..i];
      var pct := Percent(goals[i]);
      if pct.Some? {
        pcts := pcts + [pct.value];
      }
      i := i + 1;
    }
    assert goals[..i] == goals;
  }

  /** `getExtractedReportByUploadId` over the already fetched lists. */
  method GetExtractedReport<T>(f: Fetched<T>) returns (rep: ExtractedReport<T>)
    ensures rep.summary.totalGoals == |f.goals| && rep.summary.totalBMPs == |f.bmps|
    ensures rep.summary.completionRate == Mean(Percents(f.goals))
    ensures (forall k :: 0 <= k < |f.goals| ==> Percent(f.goals[k]).None?) ==> rep.summary.completionRate == 0.0
    ensures rep.goals == f.goals && rep.bmps == f.bmps && rep.implementation == f.implementation
      && rep.monitoring == f.monitoring && rep.outreach == f.outreach
      && rep.geographicAreas == f.geographicAreas
  {
    var pcts := CollectPercents(f.goals);
    var rate := if |pcts| > 0 then Sum(pcts) / (|pcts| as real) else 0.0;
    rep := ExtractedReport(Summary(|f.goals|, |f.bmps|, rate),
      f.goals, f.bmps, f.implementation, f.monitoring, f.outreach, f.geographicAreas);
  }

  /** When at least one goal contributes, the completion rate lies between
      the smallest and the largest contributing percentage. */
  lemma CompletionRateBetween(goals: seq<GoalFacts>, lo: real, hi: real)
    requires Percents(goals) != []
    requires forall k :: 0 <= k < |goals| && Percent(goals[k]).Some? ==> lo <= Percent(goals[k]).value <= hi
    ensures lo <= Mean(Percents(goals)) <= hi
  {
    var pcts := Percents(goals);
    forall k | 0 <= k < |pcts|
      ensures lo <= pcts[k] <= hi
    {
      assert pcts[k] in pcts;
      var g :| g in goals && Percent(g) == Some(pcts[k]);
      var j :| 0 <= j < |goals| && goals[j] == g;
    }
    MeanBetween(pcts, lo, hi);
  }
}
