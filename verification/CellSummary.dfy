/**
  The summary of one measured cell: counts, identities, token totals and how busy the workers were. Sorted lists of
  identifiers are kept as bags, since only their contents are ever compared.
 */
module CellSummary {
  import opened Common
  import opened Replay

  datatype Summary = Summary(
    requests: nat,
    successful: nat,
    failed: nat,
    failedIds: multiset<string>,
    successIds: multiset<string>,
    contentHashes: map<string, string>,
    promptTokens: nat,
    cachedTokens: nat,
    promptMin: Option<nat>,
    promptMax: Option<nat>,
    windowSeconds: real,
    ttft: seq<real>,
    ttftP50: Option<real>,
    meanInFlight: Option<real>,
    utilizationPct: Option<real>)

  function IsSuccess(): Request -> bool {
    (r: Request) => r.outcome.Success?
  }

  function IsFailure(): Request -> bool {
    (r: Request) => r.outcome.Failed?
  }

  function Successes(requests: seq<Request>): seq<Request> {
    Filter(IsSuccess(), requests)
  }

  function Failures(requests: seq<Request>): seq<Request> {
    Filter(IsFailure(), requests)
  }

  // ---- time ---------------------------------------------------------------------------

  function Elapsed(r: Request): real {
    if r.outcome.Success? then r.outcome.served.completed - r.outcome.served.started else 0.0
  }

  /** Summed elapsed time of the successful requests. */
  function TotalElapsed(requests: seq<Request>): real {
    if requests == [] then 0.0
    else TotalElapsed(requests[..|requests| - 1]) + Elapsed(requests[|requests| - 1])
  }

  function EarliestStart(served: seq<Request>): real
    requires served != [] && forall r :: r in served ==> r.outcome.Success?
  {
    var first := served[0].outcome.served.started;
    if |served| == 1 then first
    else
      assert forall r :: r in served[1..] ==> r in served;
      var rest := EarliestStart(served[1..]);
      if first <= rest then first else rest
  }

  function LatestCompletion(served: seq<Request>): real
    requires served != [] && forall r :: r in served ==> r.outcome.Success?
  {
    var first := served[0].outcome.served.completed;
    if |served| == 1 then first
    else
      assert forall r :: r in served[1..] ==> r in served;
      var rest := LatestCompletion(served[1..]);
      if first >= rest then first else rest
  }

  lemma {:induction false} ExtremesBound(served: seq<Request>)
    requires served != [] && forall r :: r in served ==> r.outcome.Success?
    ensures forall r :: r in served ==>
              EarliestStart(served) <= r.outcome.served.started && r.outcome.served.completed <= LatestCompletion(served)
    ensures exists r :: r in served && r.outcome.served.started == EarliestStart(served)
    ensures exists r :: r in served && r.outcome.served.completed == LatestCompletion(served)
  {
    assert served[0] in served;
    if |served| == 1 {
    } else {
      var tail := served[1..];
      assert forall r :: r in tail ==> r in served;
      ExtremesBound(tail);
      assert served == [served[0]] + tail;
    }
  }

  lemma AllSuccessful(requests: seq<Request>)
    ensures forall r :: r in Successes(requests) <==> r in requests && r.outcome.Success?
    ensures forall r :: r in Failures(requests) <==> r in requests && r.outcome.Failed?
  {
    forall r ensures r in Successes(requests) <==> r in requests && r.outcome.Success?
             ensures r in Failures(requests) <==> r in requests && r.outcome.Failed? {
      FilterMember(IsSuccess(), requests, r);
      FilterMember(IsFailure(), requests, r);
    }
  }

  /** From the first start to the last completion of a successful request; zero when nothing succeeded. */
  function Window(requests: seq<Request>): real {
    AllSuccessful(requests);
    var served := Successes(requests);
    if served == [] then 0.0 else LatestCompletion(served) - EarliestStart(served)
  }

  /** Average number of requests in flight; unknown when the window is empty. */
  function MeanInFlight(requests: seq<Request>): Option<real> {
    if Window(requests) > 0.0 then Some(TotalElapsed(requests) / Window(requests)) else None
  }

  function UtilizationPct(requests: seq<Request>, offered: nat): Option<real> {
    match MeanInFlight(requests)
    case Some(mean) => if offered > 0 then Some(100.0 * mean / offered as real) else None
    case None => None
  }

  // ---- identities ----------------------------------------------------------------------

  /** `{id: sha}` over the successful requests that have both; a later request overwrites an earlier one. */
  function ContentHashes(requests: seq<Request>): map<string, string> {
    if requests == [] then map[]
    else
      var last, before := requests[|requests| - 1], ContentHashes(requests[..|requests| - 1]);
      if last.outcome.Success? && last.requestId != "" && last.outcome.served.contentSha != ""
      then before[last.requestId := last.outcome.served.contentSha] else before
  }

  function FailedIds(requests: seq<Request>): multiset<string> {
    if requests == [] then multiset{}
    else
      var last := requests[|requests| - 1];
      FailedIds(requests[..|requests| - 1]) + (if last.outcome.Failed? then multiset{last.requestId} else multiset{})
  }

  function SuccessIds(requests: seq<Request>): multiset<string> {
    if requests == [] then multiset{}
    else
      var last := requests[|requests| - 1];
      SuccessIds(requests[..|requests| - 1])
      + (if last.outcome.Success? && last.requestId != "" then multiset{last.requestId} else multiset{})
  }

  // ---- tokens and latency ------------------------------------------------------------------

  function PromptSum(requests: seq<Request>): nat {
    if requests == [] then 0
    else
      var last := requests[|requests| - 1];
      PromptSum(requests[..|requests| - 1]) + (if last.outcome.Success? then last.outcome.served.promptTokens else 0)
  }

  function CachedSum(requests: seq<Request>): nat {
    if requests == [] then 0
    else
      var last := requests[|requests| - 1];
      CachedSum(requests[..|requests| - 1]) + (if last.outcome.Success? then last.outcome.served.cachedTokens else 0)
  }

  function PromptMin(requests: seq<Request>): Option<nat> {
    if requests == [] then None
    else
      var last, before := requests[|requests| - 1], PromptMin(requests[..|requests| - 1]);
      if last.outcome.Failed? then before
      else Some(Min(before.GetOr(last.outcome.served.promptTokens), last.outcome.served.promptTokens))
  }

  function PromptMax(requests: seq<Request>): Option<nat> {
    if requests == [] then None
    else
      var last, before := requests[|requests| - 1], PromptMax(requests[..|requests| - 1]);
      if last.outcome.Failed? then before
      else Some(Max(before.GetOr(last.outcome.served.promptTokens), last.outcome.served.promptTokens))
  }

  /** The extremes bound every successful prompt, and exist as soon as one request succeeded. */
  lemma {:induction false} PromptExtremes(requests: seq<Request>, r: Request)
    requires r in requests && r.outcome.Success?
    ensures PromptMin(requests).Some? && PromptMax(requests).Some?
    ensures PromptMin(requests).value <= r.outcome.served.promptTokens <= PromptMax(requests).value
  {
    var front, last := requests[..|requests| - 1], requests[|requests| - 1];
    assert requests == front + [last];
    if r in front {
      PromptExtremes(front, r);
    }
  }

  // ---- percentiles -------------------------------------------------------------------------

  function InsertReal(sorted: seq<real>, x: real): seq<real> {
    if sorted == [] || sorted[|sorted| - 1] <= x then sorted + [x]
    else InsertReal(sorted[..|sorted| - 1], x) + [sorted[|sorted| - 1]]
  }

  function SortReals(values: seq<real>): (sorted: seq<real>)
    ensures |sorted| == |values|
  {
    if values == [] then []
    else
      var front := SortReals(values[..|values| - 1]);
      InsertLength(front, values[|values| - 1]);
      InsertReal(front, values[|values| - 1])
  }

  lemma {:induction false} InsertLength(sorted: seq<real>, x: real)
    ensures |InsertReal(sorted, x)| == |sorted| + 1
  {
    if sorted != [] && sorted[|sorted| - 1] > x {
      InsertLength(sorted[..|sorted| - 1], x);
    }
  }

  function Ceiling(x: real): int {
    -((-x).Floor)
  }

  /** The one-based rank that a fraction selects among `n` values. */
  function Rank(n: nat, fraction: real): int
    requires n > 0
  {
    Max(Min(Ceiling(n as real * fraction), n), 1)
  }

  function Percentile(values: seq<real>, fraction: real): Option<real> {
    if values == [] then None
    else
      var index := Min(Ceiling(|values| as real * fraction) - 1, |values| - 1);
      Some(SortReals(values)[Max(index, 0)])
  }

  ghost predicate Ascending(values: seq<real>) {
    forall i, j :: 0 <= i < j < |values| ==> values[i] <= values[j]
  }

  lemma {:induction false} InsertBag(sorted: seq<real>, x: real)
    ensures multiset(InsertReal(sorted, x)) == multiset(sorted) + multiset{x}
  {
    if sorted != [] && sorted[|sorted| - 1] > x {
      assert sorted == sorted[..|sorted| - 1] + [sorted[|sorted| - 1]];
      InsertBag(sorted[..|sorted| - 1], x);
    }
  }

  lemma {:induction false} InsertAscending(sorted: seq<real>, x: real)
    requires Ascending(sorted)
    ensures Ascending(InsertReal(sorted, x))
  {
    if sorted != [] && sorted[|sorted| - 1] > x {
      var front, last := sorted[..|sorted| - 1], sorted[|sorted| - 1];
      InsertAscending(front, x);
      InsertBag(front, x);
      var r := InsertReal(front, x);
      forall i | 0 <= i < |r| ensures r[i] <= last {
        assert r[i] in multiset(r);
        assert r[i] == x || r[i] in front;
      }
    }
  }

  lemma {:induction false} SortRealsSorts(values: seq<real>)
    ensures Ascending(SortReals(values)) && multiset(SortReals(values)) == multiset(values)
  {
    if values == [] {
    } else {
      var front, last := values[..|values| - 1], values[|values| - 1];
      assert values == front + [last];
      SortRealsSorts(front);
      InsertAscending(SortReals(front), last);
      InsertBag(SortReals(front), last);
    }
  }

  function AtMost(v: real): real -> bool {
    x => x <= v
  }

  function Below(v: real): real -> bool {
    x => x < v
  }

  lemma CountsAtRank(sorted: seq<real>, rank: nat)
    requires Ascending(sorted) && 1 <= rank <= |sorted|
    ensures Count(AtMost(sorted[rank - 1]), sorted) >= rank
    ensures Count(Below(sorted[rank - 1]), sorted) < rank
  {
    var v := sorted[rank - 1];
    CountSplit(AtMost(v), sorted, rank);
    CountSplit(Below(v), sorted, rank - 1);
    hide Count;
    forall x | x in sorted[..rank] ensures AtMost(v)(x) {
    }
    CountBounds(AtMost(v), sorted[..rank]);
    forall x | x in sorted[rank - 1..] ensures !Below(v)(x) {
    }
    CountBounds(Below(v), sorted[rank - 1..]);
    CountBounds(Below(v), sorted[..rank - 1]);
  }

  lemma CountSplit(p: real -> bool, s: seq<real>, i: nat)
    requires i <= |s|
    ensures Count(p, s) == Count(p, s[..i]) + Count(p, s[i..])
  {
    assert s == s[..i] + s[i..];
    CountAppend(p, s[..i], s[i..]);
  }

  lemma PercentileAtRank(values: seq<real>, fraction: real)
    requires values != []
    ensures Percentile(values, fraction) == Some(SortReals(values)[Rank(|values|, fraction) - 1])
  {
    var c := Ceiling(|values| as real * fraction);
    assert Max(Min(c - 1, |values| - 1), 0) == Max(Min(c, |values|), 1) - 1;
  }

  /** Nearest rank: the percentile is a sample, at least `rank` samples reach it and fewer than `rank` lie below it. */
  lemma PercentileIsNearestRank(values: seq<real>, fraction: real)
    requires values != []
    ensures Percentile(values, fraction).Some?
    ensures var v, rank := Percentile(values, fraction).value, Rank(|values|, fraction);
            v in values && Count(AtMost(v), values) >= rank && Count(Below(v), values) < rank
  {
    hide Percentile, SortReals, Rank, Count;
    PercentileAtRank(values, fraction);
    SortRealsSorts(values);
    RankInRange(|values|, fraction);
    var sorted, rank := SortReals(values), Rank(|values|, fraction);
    CountsAtRank(sorted, rank);
    var v := sorted[rank - 1];
    assert v in multiset(sorted);
    CountOfBag(AtMost(v), sorted, values);
    CountOfBag(Below(v), sorted, values);
  }

  lemma RankInRange(n: nat, fraction: real)
    requires n > 0
    ensures 1 <= Rank(n, fraction) <= n
  {
  }

  /** The rank is the fraction of the count, rounded up: at one half, the third of five and the third of six. */
  lemma RankMeaning(n: nat, fraction: real)
    requires n > 0 && 0.0 < fraction <= 1.0
    ensures (Rank(n, fraction) - 1) as real < n as real * fraction <= Rank(n, fraction) as real
  {
    var x := n as real * fraction;
    ScaledFraction(n as real, fraction);
    var c := Ceiling(x);
    assert (c - 1) as real < x <= c as real;
    assert 1 <= c <= n;
  }

  lemma ScaledFraction(n: real, fraction: real)
    requires n > 0.0 && 0.0 < fraction <= 1.0
    ensures 0.0 < n * fraction <= n
  {
    ProductPositive(n, fraction);
    if fraction < 1.0 {
      ProductPositive(n, 1.0 - fraction);
    }
  }

  // ---- what the figures are ---------------------------------------------------------------------

  function FailedAs(id: string): Request -> bool {
    (r: Request) => r.outcome.Failed? && r.requestId == id
  }

  function SucceededAs(id: string): Request -> bool {
    (r: Request) => r.outcome.Success? && r.requestId == id
  }

  /** The two bags hold an identifier as often as requests failed or succeeded under it; only successes need one. */
  lemma {:induction false} IdsAreCounted(requests: seq<Request>, id: string)
    ensures FailedIds(requests)[id] == Count(FailedAs(id), requests)
    ensures SuccessIds(requests)[id] == if id == "" then 0 else Count(SucceededAs(id), requests)
  {
    if requests == [] {
    } else {
      IdsAreCounted(requests[..|requests| - 1], id);
    }
  }

  /** From start to completion, of every successful request. */
  function Spans(requests: seq<Request>): seq<real> {
    if requests == [] then []
    else
      (match requests[0].outcome
       case Success(served) => [served.completed - served.started]
       case Failed(_) => [])
      + Spans(requests[1..])
  }

  lemma {:induction false} SpansAppend(a: seq<Request>, b: seq<Request>)
    ensures Spans(a + b) == Spans(a) + Spans(b)
  {
    if a == [] {
      assert a + b == b;
    } else {
      assert (a + b)[1..] == a[1..] + b;
      SpansAppend(a[1..], b);
    }
  }

  lemma {:induction false} TotalIsSpans(requests: seq<Request>)
    ensures TotalElapsed(requests) == SumReal(Spans(requests))
  {
    if requests == [] {
    } else {
      var front, last := requests[..|requests| - 1], requests[|requests| - 1];
      TotalIsSpans(front);
      assert requests == front + [last];
      hide Spans, SumReal;
      SpansAppend(front, [last]);
      SumRealAppend(Spans(front), Spans([last]));
      OneSpan(last);
    }
  }

  lemma OneSpan(r: Request)
    ensures SumReal(Spans([r])) == Elapsed(r)
  {
    assert [r][1..] == [] && Spans([]) == [];
    assert Spans([r]) == (if r.outcome.Success? then [Elapsed(r)] else []) + [];
    assert SumReal([Elapsed(r)]) == Elapsed(r) + SumReal([]);
  }

  /** `first` is the earliest start and `last` the latest completion among the successful requests. */
  ghost predicate IsWindow(requests: seq<Request>, first: real, last: real) {
    (exists r :: r in requests && r.outcome.Success? && r.outcome.served.started == first)
    && (exists r :: r in requests && r.outcome.Success? && r.outcome.served.completed == last)
    && forall r :: r in requests && r.outcome.Success? ==>
         first <= r.outcome.served.started && r.outcome.served.completed <= last
  }

  /** The window and the average in flight, in terms of the recorded times alone. */
  lemma MeanInFlightMeans(requests: seq<Request>, first: real, last: real)
    requires IsWindow(requests, first, last)
    ensures Window(requests) == last - first
    ensures MeanInFlight(requests) == if last > first then Some(SumReal(Spans(requests)) / (last - first)) else None
    ensures forall offered: nat :: offered > 0 && last > first ==>
              UtilizationPct(requests, offered) == Some(100.0 * (SumReal(Spans(requests)) / (last - first)) / offered as real)
  {
    hide EarliestStart, LatestCompletion, Successes, Spans, TotalElapsed, SumReal;
    AllSuccessful(requests);
    var served := Successes(requests);
    var one :| one in requests && one.outcome.Success? && one.outcome.served.started == first;
    assert one in served;
    ExtremesBound(served);
    TotalIsSpans(requests);
  }

  // ---- the summary -----------------------------------------------------------------------------

  function Ttft(requests: seq<Request>): seq<real> {
    if requests == [] then []
    else
      var last := requests[|requests| - 1];
      Ttft(requests[..|requests| - 1])
      + (if last.outcome.Success? then [last.outcome.served.firstTokenAt - last.outcome.served.started] else [])
  }

  /** `statistics.median`: the middle sample, or the mean of the two middle samples. */
  function Median(values: seq<real>): Option<real> {
    var sorted, n := SortReals(values), |values|;
    if n == 0 then None
    else if n % 2 == 1 then Some(sorted[n / 2])
    else Some((sorted[n / 2 - 1] + sorted[n / 2]) / 2.0)
  }

  lemma {:induction false} SuccessesAndFailures(requests: seq<Request>)
    ensures |Successes(requests)| + |Failures(requests)| == |requests|
  {
    if requests == [] {
    } else {
      SuccessesAndFailures(requests[1..]);
    }
  }

  function FailureCount(requests: seq<Request>): (n: nat)
    ensures n == |Failures(requests)|
  {
    SuccessesAndFailures(requests);
    |requests| - |Successes(requests)|
  }

  function Summarize(requests: seq<Request>, offered: nat): Summary {
    Summary(
      |requests|,
      |Successes(requests)|,
      FailureCount(requests),
      FailedIds(requests),
      SuccessIds(requests),
      ContentHashes(requests),
      PromptSum(requests),
      CachedSum(requests),
      PromptMin(requests),
      PromptMax(requests),
      Window(requests),
      Ttft(requests),
      Median(Ttft(requests)),
      MeanInFlight(requests),
      UtilizationPct(requests, offered))
  }
}
