/** The soak verifier of the arXiv schedule: consecutive days, one finished run on each. */
module ArxivSoak {
  import opened Windows

  type Date = int

  /** A scheduled incremental run; runs are listed in the order they started. */
  datatype Run = Run(startedAt: Instant, finished: bool, running: bool)

  datatype Verdict = Rejected | Pending | Failed | Passed

  function StartDay(r: Run): Date { DayOf(r.startedAt) }

  function Count(runs: seq<Run>, d: Date): nat {
    if runs == [] then 0 else Count(runs[..|runs| - 1], d) + if StartDay(runs[|runs| - 1]) == d then 1 else 0
  }

  predicate HasRun(runs: seq<Run>, d: Date) {
    Count(runs, d) >= 1
  }

  predicate Repeated(runs: seq<Run>, d: Date) {
    Count(runs, d) > 1
  }

  /** The runs of a day beyond the first, over the days in [from, until). */
  function Duplicates(runs: seq<Run>, from: Date, until: Date): nat
    decreases until - from
  {
    if until <= from then 0
    else
      var n := Count(runs, until - 1);
      Duplicates(runs, from, until - 1) + if n > 1 then n - 1 else 0
  }

  predicate Anomalous(r: Run) {
    !r.finished || r.running
  }

  function Anomalies(runs: seq<Run>, from: Date, until: Date): nat {
    if runs == [] then 0
    else
      var r := runs[|runs| - 1];
      Anomalies(runs[..|runs| - 1], from, until) + if from <= StartDay(r) < until && Anomalous(r) then 1 else 0
  }

  /** The days in [from, until) on which a run started. */
  function DaysRun(runs: seq<Run>, from: Date, until: Date): set<Date> {
    set i | 0 <= i < |runs| && from <= StartDay(runs[i]) < until :: StartDay(runs[i])
  }

  lemma {:induction false} CountMeans(runs: seq<Run>, d: Date)
    ensures Count(runs, d) > 0 <==> exists i :: 0 <= i < |runs| && StartDay(runs[i]) == d
  {
    if runs != [] { CountMeans(runs[..|runs| - 1], d); }
  }

  lemma {:induction false} NoDuplicates(runs: seq<Run>, from: Date, until: Date)
    requires from <= until
    ensures Duplicates(runs, from, until) == 0 <==> forall d :: from <= d < until ==> !Repeated(runs, d)
    decreases until - from
  {
    if from < until {
      NoDuplicates(runs, from, until - 1);
      assert Duplicates(runs, from, until) == 0 <==> Duplicates(runs, from, until - 1) == 0 && !Repeated(runs, until - 1);
      hide Duplicates, Repeated;
    }
  }

  lemma {:induction false} NoAnomalies(runs: seq<Run>, from: Date, until: Date)
    ensures Anomalies(runs, from, until) == 0 <==>
            forall i :: 0 <= i < |runs| && from <= StartDay(runs[i]) < until ==> !Anomalous(runs[i])
  {
    if runs != [] { NoAnomalies(runs[..|runs| - 1], from, until); }
  }

  function DaySet(from: Date, until: Date): (days: set<Date>)
    requires from <= until
    ensures |days| == until - from && forall d :: d in days <==> from <= d < until
    decreases until - from
  {
    if from == until then {} else DaySet(from, until - 1) + {until - 1}
  }

  lemma AllOfThem(part: set<Date>, whole: set<Date>)
    requires part <= whole && |part| >= |whole|
    ensures part == whole
  {
    assert whole == part + (whole - part);
  }

  lemma DaysRunMeans(runs: seq<Run>, from: Date, until: Date, d: Date)
    ensures d in DaysRun(runs, from, until) <==> from <= d < until && HasRun(runs, d)
  {
    CountMeans(runs, d);
  }

  /** As many days with a run as there are days: every day has one. */
  lemma EveryDayRun(runs: seq<Run>, from: Date, until: Date)
    requires from <= until
    ensures |DaysRun(runs, from, until)| >= until - from <==> forall d :: from <= d < until ==> HasRun(runs, d)
  {
    hide DaysRun, HasRun;
    var days, all := DaysRun(runs, from, until), DaySet(from, until);
    forall d ensures d in days <==> from <= d < until && HasRun(runs, d) {
      DaysRunMeans(runs, from, until, d);
    }
    if |days| >= until - from {
      AllOfThem(days, all);
    } else if days == all {
      assert false;
    }
  }

  /** The verdict. It is a pass exactly when each of the days from the first run on has exactly
      one run and that run has ended; the days already due play no part in it. */
  method Verify(runs: seq<Run>, days: int, due: Date -> bool) returns (verdict: Verdict)
    ensures verdict == Rejected <==> !(1 <= days <= 90)
    ensures verdict == Passed <==>
              1 <= days <= 90 && runs != [] &&
              var first := StartDay(runs[0]);
              && (forall d :: first <= d < first + days ==> HasRun(runs, d) && !Repeated(runs, d))
              && (forall i :: 0 <= i < |runs| && first <= StartDay(runs[i]) < first + days ==> !Anomalous(runs[i]))
    ensures verdict == Failed <==>
              1 <= days <= 90 && runs != [] &&
              var first := StartDay(runs[0]);
              || (exists d :: first <= d < first + days && due(d) && !HasRun(runs, d))
              || (exists d :: first <= d < first + days && Repeated(runs, d))
              || (exists i :: 0 <= i < |runs| && first <= StartDay(runs[i]) < first + days && Anomalous(runs[i]))
  {
    hide HasRun, Repeated, DaysRun, Duplicates, Anomalies, Anomalous;
    if days < 1 || days > 90 { return Rejected; }
    if runs == [] { return Pending; }
    var first := StartDay(runs[0]);
    var missing: seq<Date> := [];
    for d := first to first + days
      invariant missing == [] <==> forall e :: first <= e < d && due(e) ==> HasRun(runs, e)
      invariant forall k :: 0 <= k < |missing| ==> first <= missing[k] < d && due(missing[k]) && !HasRun(runs, missing[k])
    {
      if due(d) && !HasRun(runs, d) { missing := missing + [d]; }
    }
    NoDuplicates(runs, first, first + days);
    NoAnomalies(runs, first, first + days);
    EveryDayRun(runs, first, first + days);
    var duplicates := Duplicates(runs, first, first + days);
    var anomalies := Anomalies(runs, first, first + days);
    var complete := |DaysRun(runs, first, first + days)| >= days;
    if missing != [] || duplicates > 0 || anomalies > 0 {
      verdict := Failed;
    } else {
      verdict := if complete then Passed else Pending;
    }
  }
}
