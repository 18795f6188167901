/** The rate-limited detector loop. Its only state is the time of the last
    evaluation; on each pass it reads the clock and the latest hand position,
    and when more than MinInterval milliseconds have passed it runs the
    matcher against the registry, resets the timer and reports a match. */
module Detection {
  import opened Zones
  import opened ZoneRegistry

  /** Milliseconds that must have passed (strictly) before the next evaluation. */
  const MinInterval: int := 250

  /** The outcome of one pass: the new last-evaluation time, whether the
      matcher ran, and the name reported (if any). */
  datatype TickResult = TickResult(last: int, evaluated: bool, report: Option<string>)

  /** One pass of the loop at clock time now (milliseconds) with hand position p. */
  function Step(last: int, now: int, p: Point, zs: seq<Zone>): (r: TickResult)
    ensures r.evaluated <==> now - last > MinInterval
    ensures r.last == (if r.evaluated then now else last)
    ensures r.report.Some? ==> r.evaluated && r.report.value != ""
    ensures r.report.Some? ==> exists i :: 0 <= i < |zs| && zs[i].name == r.report.value && InBox(zs[i].center, p)
                                 && forall j :: 0 <= j < i ==> !InBox(zs[j].center, p)
    ensures forall i :: (&& r.evaluated
                         && 0 <= i < |zs| && InBox(zs[i].center, p) && zs[i].name != ""
                         && (forall j :: 0 <= j < i ==> !InBox(zs[j].center, p)))
                        ==> r.report == Some(zs[i].name)
  {
    if now - last > MinInterval then TickResult(now, true, Reported(FirstMatch(zs, p)))
    else TickResult(last, false, None)
  }

  /** One observation of the loop: the clock reading and the latest position. */
  datatype Sample = Sample(now: int, point: Point)

  /** The run of the loop over a sequence of samples: the final timer value,
      the names reported, and the times at which the matcher ran. */
  datatype Trace = Trace(last: int, reports: seq<string>, evals: seq<int>)

  function Run(last: int, zs: seq<Zone>, samples: seq<Sample>): Trace
    decreases |samples|
  {
    if samples == [] then Trace(last, [], [])
    else
      var t := Run(last, zs, samples[..|samples| - 1]);
      var s := samples[|samples| - 1];
      var r := Step(t.last, s.now, s.point, zs);
      Trace(r.last,
            t.reports + (if r.report.Some? then [r.report.value] else []),
            t.evals + (if r.evaluated then [s.now] else []))
  }

  /** The rate limit: the matcher runs more than MinInterval after the start
      and more than MinInterval after its previous run, and the timer holds
      the time of the latest run. This holds whatever the clock does. */
  lemma {:induction false} RunIsRateLimited(last: int, zs: seq<Zone>, samples: seq<Sample>)
    ensures var t := Run(last, zs, samples);
            && (|t.evals| > 0 ==> t.evals[0] - last > MinInterval)
            && (forall k :: 0 < k < |t.evals| ==> t.evals[k] - t.evals[k - 1] > MinInterval)
            && t.last == (if t.evals == [] then last else t.evals[|t.evals| - 1])
    decreases |samples|
  {
    if samples != [] {
      RunIsRateLimited(last, zs, samples[..|samples| - 1]);
    }
  }

  /** At most one report per evaluation, at most one evaluation per sample. */
  lemma {:induction false} RunReportsBounded(last: int, zs: seq<Zone>, samples: seq<Sample>)
    ensures var t := Run(last, zs, samples);
            |t.reports| <= |t.evals| <= |samples|
    decreases |samples|
  {
    if samples != [] {
      RunReportsBounded(last, zs, samples[..|samples| - 1]);
    }
  }

  /** Every report names a registered zone, and never the empty name. */
  lemma {:induction false} RunReportsRegistered(last: int, zs: seq<Zone>, samples: seq<Sample>)
    ensures forall n :: n in Run(last, zs, samples).reports ==> n in Labels(zs) && n != ""
    decreases |samples|
  {
    if samples != [] {
      RunReportsRegistered(last, zs, samples[..|samples| - 1]);
    }
  }

  /** With an empty registry nothing is ever reported. */
  lemma {:induction false} EmptyRegistryReportsNothing(last: int, samples: seq<Sample>)
    ensures Run(last, [], samples).reports == []
    decreases |samples|
  {
    if samples != [] {
      EmptyRegistryReportsNothing(last, samples[..|samples| - 1]);
    }
  }

  /** The detector's timer; the registry is only read. */
  class Detector {
    var lastEvent: int

    /** The timer starts at the clock time the loop is entered. */
    constructor (start: int)
      ensures lastEvent == start
    {
      lastEvent := start;
    }

    /** One pass of the loop at clock time now with hand position p. */
    method Tick(now: int, p: Point, registry: Registry) returns (report: Option<string>)
      modifies this
      ensures var r := Step(old(lastEvent), now, p, registry.entries);
              lastEvent == r.last && report == r.report
      ensures now - old(lastEvent) > MinInterval ==> lastEvent == now
      ensures now - old(lastEvent) <= MinInterval ==> lastEvent == old(lastEvent) && report == None
      ensures registry.entries == old(registry.entries)
    {
      report := None;
      if now - lastEvent > MinInterval {
        lastEvent := now;
        var first := FirstMatch(registry.entries, p);
        if first.Some? && first.value.name != "" {
          report := Some(first.value.name);
        }
      }
    }

    /** The loop while the session is active, over the samples it observes. */
    method Loop(registry: Registry, samples: seq<Sample>) returns (reports: seq<string>)
      modifies this
      ensures var t := Run(old(lastEvent), registry.entries, samples);
              lastEvent == t.last && reports == t.reports
      ensures registry.entries == old(registry.entries)
    {
      reports := [];
      var i := 0;
      while i < |samples|
        invariant 0 <= i <= |samples|
        invariant var t := Run(old(lastEvent), registry.entries, samples[..i]);
                  lastEvent == t.last && reports == t.reports
      {
        assert samples[..i + 1][..i] == samples[..i];
        var report := Tick(samples[i].now, samples[i].point, registry);
        if report.Some? {
          reports := reports + [report.value];
        }
        i := i + 1;
      }
      assert samples[..|samples|] == samples;
    }
  }

  /** The program end to end: after setup of the ingredient list, a hand held
      at a captured position is reported by the first pass that clears the
      rate limit, under that ingredient's name or an earlier one. */
  lemma SetupThenDetect(captured: seq<Point>, last: int, now: int, k: nat)
    requires |captured| == |Ingredients| && k < |captured|
    requires now - last > MinInterval
    ensures var r := Step(last, now, captured[k], Populate([], Ingredients, captured).0);
            r.report.Some? && r.report.value in Ingredients[..k + 1]
  {
    IngredientSetup(captured);
    var zs := [Zone("Lettuce", captured[0]), Zone("Tomato", captured[1])];
    assert Populate([], Ingredients, captured).0 == zs;
    var p := captured[k];
    CentreInBox(p);
    if k == 0 || InBox(captured[0], p) {
      assert FirstMatch(zs, p) == Some(zs[0]);
    } else {
      assert FirstMatch(zs, p) == Some(zs[1]);
    }
  }
}
