/**
  From the schedule of a worker pool to the utilisation of a pooled row: whatever the schedules of the passes were, the
  concurrency that a row reports never exceeds the concurrency it was offered.
 */
module PooledUtilization {
  import opened Common
  import Replay
  import opened CellSummary
  import opened PooledGates
  import opened GateGuarantees
  import Pool = WorkerPool
  import PoolGuarantees

  /** One run of the pool, stopped at any reachable state. */
  datatype PoolRun = PoolRun(job: Pool.Job, start: real, events: seq<Pool.Event>, state: Pool.State)

  ghost predicate Produced(run: PoolRun, cell: Cell) {
    Pool.Reaches(run.job, run.start, run.events, run.state)
    && cell.concurrency == run.job.concurrency
    && cell.summary == Summarize(Pool.CellRequests(run.state), cell.concurrency)
  }

  function Busy(run: PoolRun): real {
    TotalElapsed(Pool.CellRequests(run.state))
  }

  lemma RunIsBusyWithin(run: PoolRun, cell: Cell)
    requires Produced(run, cell)
    ensures BusyWithin(cell, Busy(run), cell.concurrency)
  {
    hide TotalElapsed, Window, Summarize, Pool.Reaches, Pool.CellRequests;
    SummaryTimes(Pool.CellRequests(run.state), cell.concurrency);
    PoolGuarantees.ElapsedIsBounded(run.job, run.start, run.events, run.state);
    PoolGuarantees.ElapsedIsNonnegative(run.job, run.start, run.events, run.state);
    var window := Window(Pool.CellRequests(run.state));
    Widen(Busy(run), Pool.WorkerCount(run.job) as real, cell.concurrency as real, window);
  }

  lemma SummaryTimes(requests: seq<Replay.Request>, offered: nat)
    ensures Summarize(requests, offered).windowSeconds == Window(requests)
    ensures Summarize(requests, offered).meanInFlight == MeanInFlight(requests)
  {
    hide Window, MeanInFlight;
  }

  lemma Widen(total: real, workers: real, offered: real, window: real)
    requires 0.0 <= window && workers <= offered && total <= workers * window
    ensures total <= offered * window
  {
    if window > 0.0 && workers < offered {
      ProductPositive(offered - workers, window);
    }
  }

  lemma {:induction false} NoWindowNoMean(cells: seq<Cell>, runs: seq<PoolRun>)
    requires |runs| == |cells| && forall i :: 0 <= i < |cells| ==> Produced(runs[i], cells[i])
    ensures SumOfReals(WindowTotal(), cells) >= 0.0
    ensures SumOfReals(WindowTotal(), cells) == 0.0 ==>
              forall i :: 0 <= i < |cells| ==> cells[i].summary.meanInFlight == None
  {
    hide Produced;
    if cells == [] {
    } else {
      var k := |cells| - 1;
      NoWindowNoMean(cells[..k], runs[..k]);
      RunIsBusyWithin(runs[k], cells[k]);
      LastSum(WindowTotal(), cells);
      forall i | 0 <= i < k ensures cells[..k][i] == cells[i] {
      }
    }
  }

  lemma {:induction false} NothingPresent(values: seq<Option<real>>)
    requires forall i :: 0 <= i < |values| ==> values[i] == None
    ensures Present(values) == []
  {
    if values == [] {
    } else {
      NothingPresent(values[..|values| - 1]);
    }
  }

  /** For every combination of schedules, the pooled row stays within the offered concurrency. */
  lemma RowStaysWithinConcurrency(key: Key, cells: seq<Cell>, runs: seq<PoolRun>)
    requires |runs| == |cells| && key.concurrency > 0
    requires forall i :: 0 <= i < |cells| ==> Produced(runs[i], cells[i]) && cells[i].concurrency == key.concurrency
    ensures RowOf(key, cells).meanInFlight.Some? ==>
              0.0 <= RowOf(key, cells).meanInFlight.value <= key.concurrency as real
    ensures RowOf(key, cells).utilizationPct.Some? ==> RowOf(key, cells).utilizationPct.value <= 100.0
  {
    hide Produced, RowOf, BusyWithin;
    RowConcurrency(key, cells);
    NoWindowNoMean(cells, runs);
    if SumOfReals(WindowTotal(), cells) > 0.0 {
      var busy := seq(|runs|, i requires 0 <= i < |runs| => Busy(runs[i]));
      forall i | 0 <= i < |cells| ensures BusyWithin(cells[i], busy[i], key.concurrency) {
        RunIsBusyWithin(runs[i], cells[i]);
      }
      PooledConcurrency(key, cells, busy);
    } else {
      NothingPresent(MapSeq((cell: Cell) => cell.summary.meanInFlight, cells));
    }
  }
}
