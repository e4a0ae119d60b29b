/**
  Selecting disjoint cohorts of recorded sessions in one pass over the dataset: per-framework caps, an early exit and
  a final slicing, against the declarative reading "the first eligible rows of each framework, cut into windows".
 */
module CohortAllocator {
  import opened Common

  /** A dataset row; `turns` is `None` when its messages do not validate, else its assistant turn count. */
  datatype Row = Row(sessionId: string, framework: string, turns: Option<nat>)

  datatype Error =
    | BadArguments
    | TooFewSessions
    | InvalidMessages(sessionId: string)
    | Short(framework: string, available: nat, required: nat)

  datatype Request = Request(cohorts: seq<string>, frameworks: seq<string>, perFramework: int, minTurns: int,
                             sessionsPerCohort: Option<int>)

  // ---- quotas -------------------------------------------------------------------------------

  /** Sessions of framework number `i` in each cohort: a fixed count, or an equal share with the remainder in front. */
  function Quota(q: Request, i: nat): int
    requires |q.frameworks| > 0
  {
    match q.sessionsPerCohort
    case None => q.perFramework
    case Some(n) => n / |q.frameworks| + (if i < n % |q.frameworks| then 1 else 0)
  }

  predicate ArgumentsOk(q: Request) {
    q.cohorts != [] && q.frameworks != [] && q.perFramework > 0 && q.minTurns > 0
  }

  predicate EnoughSessions(q: Request) {
    q.sessionsPerCohort.Some? ==> q.sessionsPerCohort.value >= |q.frameworks|
  }

  predicate Accepted(q: Request) {
    ArgumentsOk(q) && EnoughSessions(q)
  }

  function QuotaSum(q: Request, count: nat): int
    requires |q.frameworks| > 0
  {
    if count == 0 then 0 else QuotaSum(q, count - 1) + Quota(q, count - 1)
  }

  lemma {:induction false} QuotaSumOfFirst(q: Request, count: nat)
    requires Accepted(q) && q.sessionsPerCohort.Some? && count <= |q.frameworks|
    ensures var n, f := q.sessionsPerCohort.value, |q.frameworks|;
            QuotaSum(q, count) == count * (n / f) + Min(count, n % f)
  {
    if count == 0 {
    } else {
      QuotaSumOfFirst(q, count - 1);
      var share := q.sessionsPerCohort.value / |q.frameworks|;
      assert count * share == (count - 1) * share + share;
    }
  }

  /** A cohort's session count is shared out completely and as evenly as possible, earlier frameworks first. */
  lemma QuotasShareEvenly(q: Request, i: nat, j: nat)
    requires Accepted(q) && q.sessionsPerCohort.Some? && i <= j < |q.frameworks|
    ensures QuotaSum(q, |q.frameworks|) == q.sessionsPerCohort.value
    ensures Quota(q, j) <= Quota(q, i) <= Quota(q, j) + 1
    ensures Quota(q, j) >= 1
  {
    QuotaSumOfFirst(q, |q.frameworks|);
    var n, f := q.sessionsPerCohort.value, |q.frameworks|;
    assert n == f * (n / f) + n % f;
    AtLeastOne(n, f);
  }

  lemma AtLeastOne(n: int, f: int)
    requires 0 < f <= n
    ensures n / f >= 1
  {
    var k := n / f;
    assert n == f * k + n % f;
    MultipleBound(f, k);
  }

  lemma QuotaPositive(q: Request, i: nat)
    requires Accepted(q) && i < |q.frameworks|
    ensures Quota(q, i) >= 1
  {
    if q.sessionsPerCohort.Some? {
      QuotasShareEvenly(q, i, i);
    }
  }

  /** The dict of quotas: a repeated framework name keeps the last quota computed for it. */
  function Allocation(q: Request, count: nat): map<string, int>
    requires count <= |q.frameworks|
  {
    if count == 0 then map[]
    else Allocation(q, count - 1)[q.frameworks[count - 1] := Quota(q, count - 1)]
  }

  lemma {:induction false} AllocationAt(q: Request, count: nat, i: nat)
    requires Accepted(q) && Distinct(q.frameworks) && i < count <= |q.frameworks|
    ensures q.frameworks[i] in Allocation(q, count) && Allocation(q, count)[q.frameworks[i]] == Quota(q, i)
  {
    if i == count - 1 {
    } else {
      AllocationAt(q, count - 1, i);
      assert q.frameworks[i] != q.frameworks[count - 1];
    }
  }

  lemma {:induction false} AllocationKeys(q: Request, count: nat)
    requires Accepted(q) && count <= |q.frameworks|
    ensures forall f :: f in Allocation(q, count) <==> f in q.frameworks[..count]
    ensures forall f :: f in Allocation(q, count) ==> Allocation(q, count)[f] >= 1
  {
    if count == 0 {
    } else {
      AllocationKeys(q, count - 1);
      QuotaPositive(q, count - 1);
      assert q.frameworks[..count] == q.frameworks[..count - 1] + [q.frameworks[count - 1]];
    }
  }

  // ---- the one-pass selection ---------------------------------------------------------------------

  type Caps = map<string, int>

  datatype Scan = Scan(seen: set<string>, picked: map<string, seq<Row>>)

  predicate Full(caps: Caps, picked: map<string, seq<Row>>, f: string) {
    f in caps ==> |Lookup(picked, f)| >= caps[f]
  }

  predicate Skipped(caps: Caps, s: Scan, row: Row) {
    row.framework !in caps || Full(caps, s.picked, row.framework) || row.sessionId in s.seen
  }

  function Step(caps: Caps, minTurns: int, s: Scan, row: Row): Result<Scan, Error> {
    if Skipped(caps, s, row) then Ok(s)
    else if row.turns.None? then Err(InvalidMessages(row.sessionId))
    else
      var seen := s.seen + {row.sessionId};
      if row.turns.value < minTurns then Ok(Scan(seen, s.picked))
      else Ok(Scan(seen, s.picked[row.framework := Lookup(s.picked, row.framework) + [row]]))
  }

  /** The scan without early exit. */
  function ScanAll(caps: Caps, minTurns: int, rows: seq<Row>): Result<Scan, Error> {
    if rows == [] then Ok(Scan({}, map[]))
    else
      match ScanAll(caps, minTurns, rows[..|rows| - 1])
      case Err(e) => Err(e)
      case Ok(s) => Step(caps, minTurns, s, rows[|rows| - 1])
  }

  ghost predicate AllFull(caps: Caps, picked: map<string, seq<Row>>) {
    forall f :: f in caps ==> Full(caps, picked, f)
  }

  lemma FullSkips(caps: Caps, minTurns: int, s: Scan, row: Row)
    requires AllFull(caps, s.picked)
    ensures Step(caps, minTurns, s, row) == Ok(s)
  {
  }

  /** Once every framework is full, no later row can matter: the early exit changes nothing. */
  lemma {:induction false} EarlyExitChangesNothing(caps: Caps, minTurns: int, rows: seq<Row>, k: nat)
    requires k <= |rows| && ScanAll(caps, minTurns, rows[..k]).Ok?
    requires AllFull(caps, ScanAll(caps, minTurns, rows[..k]).value.picked)
    ensures ScanAll(caps, minTurns, rows) == ScanAll(caps, minTurns, rows[..k])
    decreases |rows| - k
  {
    if k == |rows| {
      assert rows[..k] == rows;
    } else {
      assert rows[..k + 1][..k] == rows[..k];
      FullSkips(caps, minTurns, ScanAll(caps, minTurns, rows[..k]).value, rows[k]);
      EarlyExitChangesNothing(caps, minTurns, rows, k + 1);
    }
  }

  lemma {:induction false} ErrorStays(caps: Caps, minTurns: int, rows: seq<Row>, k: nat)
    requires k <= |rows| && ScanAll(caps, minTurns, rows[..k]).Err?
    ensures ScanAll(caps, minTurns, rows) == ScanAll(caps, minTurns, rows[..k])
    decreases |rows| - k
  {
    if k == |rows| {
      assert rows[..k] == rows;
    } else {
      assert rows[..k + 1][..k] == rows[..k];
      ErrorStays(caps, minTurns, rows, k + 1);
    }
  }

  /** The loop over rows, with its skips and its early exit. */
  method SelectRows(caps: Caps, frameworks: seq<string>, minTurns: int, rows: seq<Row>) returns (r: Result<Scan, Error>)
    requires forall f :: f in caps <==> f in frameworks
    ensures r == ScanAll(caps, minTurns, rows)
  {
    hide ScanAll;
    var s := Scan({}, map[]);
    ScanNone(caps, minTurns, rows);
    for i := 0 to |rows|
      invariant ScanAll(caps, minTurns, rows[..i]) == Ok(s)
    {
      var row := rows[i];
      ghost var before := s;
      ScanNext(caps, minTurns, rows, i, before);
      if Skipped(caps, s, row) {
        continue;
      }
      if row.turns.None? {
        ErrorStays(caps, minTurns, rows, i + 1);
        return Err(InvalidMessages(row.sessionId));
      }
      s := s.(seen := s.seen + {row.sessionId});
      if row.turns.value < minTurns {
        continue;
      }
      s := s.(picked := s.picked[row.framework := Lookup(s.picked, row.framework) + [row]]);
      if forall k :: 0 <= k < |frameworks| ==> Full(caps, s.picked, frameworks[k]) {
        EarlyExitChangesNothing(caps, minTurns, rows, i + 1);
        return Ok(s);
      }
    }
    assert rows[..|rows|] == rows;
    r := Ok(s);
  }

  lemma ScanNone(caps: Caps, minTurns: int, rows: seq<Row>)
    ensures ScanAll(caps, minTurns, rows[..0]) == Ok(Scan({}, map[]))
  {
  }

  lemma ScanNext(caps: Caps, minTurns: int, rows: seq<Row>, i: nat, s: Scan)
    requires i < |rows| && ScanAll(caps, minTurns, rows[..i]) == Ok(s)
    ensures ScanAll(caps, minTurns, rows[..i + 1]) == Step(caps, minTurns, s, rows[i])
  {
    assert rows[..i + 1][..i] == rows[..i];
  }

  // ---- cutting the picks into cohorts ------------------------------------------------------------------

  function Window(available: seq<Row>, cohort: nat, quota: int): seq<Row>
    requires quota >= 0
  {
    var start := cohort * quota;
    MultipleNonnegative(cohort, quota);
    available[Min(start, |available|)..Min(start + quota, |available|)]
  }

  lemma MultipleNonnegative(a: nat, b: int)
    requires b >= 0
    ensures a * b >= 0
  {
  }

  /** One cohort gets one window of each framework, in framework order. */
  function CohortOf(q: Request, allocation: map<string, int>, picked: map<string, seq<Row>>, cohort: nat, count: nat): seq<Row>
    requires count <= |q.frameworks| && forall i :: 0 <= i < count ==> q.frameworks[i] in allocation
    requires forall f :: f in allocation ==> allocation[f] >= 0
  {
    if count == 0 then []
    else
      var f := q.frameworks[count - 1];
      CohortOf(q, allocation, picked, cohort, count - 1) + Window(Lookup(picked, f), cohort, allocation[f])
  }

  function Required(q: Request, allocation: map<string, int>): Caps {
    map f | f in allocation :: |q.cohorts| * allocation[f]
  }

  function ShortFramework(q: Request, caps: Caps, picked: map<string, seq<Row>>, count: nat): Option<Error>
    requires count <= |q.frameworks| && forall i :: 0 <= i < count ==> q.frameworks[i] in caps
  {
    if count == 0 then None
    else
      match ShortFramework(q, caps, picked, count - 1)
      case Some(e) => Some(e)
      case None =>
        var f := q.frameworks[count - 1];
        if |Lookup(picked, f)| < caps[f] then Some(Short(f, |Lookup(picked, f)|, caps[f])) else None
  }

  /** What the allocator returns, for cohort names without repetition. */
  function BuildCohortsSpec(q: Request, rows: seq<Row>): Result<seq<seq<Row>>, Error> {
    if !ArgumentsOk(q) then Err(BadArguments)
    else if !EnoughSessions(q) then Err(TooFewSessions)
    else
      AllocationKeys(q, |q.frameworks|);
      assert q.frameworks[..|q.frameworks|] == q.frameworks;
      var allocation := Allocation(q, |q.frameworks|);
      var caps := Required(q, allocation);
      match ScanAll(caps, q.minTurns, rows)
      case Err(e) => Err(e)
      case Ok(s) =>
        match ShortFramework(q, caps, s.picked, |q.frameworks|)
        case Some(e) => Err(e)
        case None =>
          Ok(seq(|q.cohorts|, c requires 0 <= c < |q.cohorts| =>
                 CohortOf(q, allocation, s.picked, c, |q.frameworks|)))
  }

  method BuildCohorts(q: Request, rows: seq<Row>) returns (r: Result<seq<seq<Row>>, Error>)
    ensures r == BuildCohortsSpec(q, rows)
  {
    if !ArgumentsOk(q) {
      return Err(BadArguments);
    }
    if !EnoughSessions(q) {
      return Err(TooFewSessions);
    }
    var n := |q.frameworks|;
    var allocation: map<string, int> := map[];
    for i := 0 to n
      invariant allocation == Allocation(q, i)
    {
      allocation := allocation[q.frameworks[i] := Quota(q, i)];
    }
    AllocationKeys(q, n);
    assert q.frameworks[..n] == q.frameworks;
    var caps := Required(q, allocation);
    var scan := SelectRows(caps, q.frameworks, q.minTurns, rows);
    if scan.Err? {
      return Err(scan.error);
    }
    r := Distribute(q, allocation, caps, scan.value.picked);
  }

  /** The loop that checks each framework and extends every cohort with its window. */
  method Distribute(q: Request, allocation: map<string, int>, caps: Caps, picked: map<string, seq<Row>>)
    returns (r: Result<seq<seq<Row>>, Error>)
    requires forall f :: f in q.frameworks ==> f in allocation && f in caps
    requires forall f :: f in allocation ==> allocation[f] >= 0
    ensures r == match ShortFramework(q, caps, picked, |q.frameworks|)
                 case Some(e) => Err(e)
                 case None => Ok(seq(|q.cohorts|, c requires 0 <= c < |q.cohorts| =>
                                     CohortOf(q, allocation, picked, c, |q.frameworks|)))
  {
    var cohorts: seq<seq<Row>> := seq(|q.cohorts|, c => []);
    for i := 0 to |q.frameworks|
      invariant ShortFramework(q, caps, picked, i) == None
      invariant |cohorts| == |q.cohorts|
      invariant forall c :: 0 <= c < |cohorts| ==> cohorts[c] == CohortOf(q, allocation, picked, c, i)
    {
      var f := q.frameworks[i];
      var available := Lookup(picked, f);
      if |available| < caps[f] {
        ShortStays(q, caps, picked, i + 1, |q.frameworks|);
        return Err(Short(f, |available|, caps[f]));
      }
      for c := 0 to |q.cohorts|
        invariant |cohorts| == |q.cohorts|
        invariant forall d :: 0 <= d < |cohorts| ==>
                    cohorts[d] == CohortOf(q, allocation, picked, d, if d < c then i + 1 else i)
      {
        cohorts := cohorts[c := cohorts[c] + Window(available, c, allocation[f])];
      }
    }
    assert cohorts == seq(|q.cohorts|, c requires 0 <= c < |q.cohorts| =>
                            CohortOf(q, allocation, picked, c, |q.frameworks|));
    r := Ok(cohorts);
  }

  lemma {:induction false} ShortStays(q: Request, caps: Caps, picked: map<string, seq<Row>>, i: nat, n: nat)
    requires i <= n <= |q.frameworks| && forall k :: 0 <= k < n ==> q.frameworks[k] in caps
    requires ShortFramework(q, caps, picked, i).Some?
    ensures ShortFramework(q, caps, picked, n) == ShortFramework(q, caps, picked, i)
    decreases n - i
  {
    if i == n {
    } else {
      ShortStays(q, caps, picked, i, n - 1);
    }
  }

  // ---- the declarative reading ---------------------------------------------------------------------------

  predicate Eligible(row: Row, f: string, minTurns: int) {
    row.framework == f && row.turns.Some? && row.turns.value >= minTurns
  }

  function EligibleRows(f: string, minTurns: int, rows: seq<Row>): seq<Row> {
    if rows == [] then []
    else
      var last := rows[|rows| - 1];
      EligibleRows(f, minTurns, rows[..|rows| - 1]) + (if Eligible(last, f, minTurns) then [last] else [])
  }

  function Capped(caps: Caps, f: string, minTurns: int, rows: seq<Row>): seq<Row> {
    var eligible := EligibleRows(f, minTurns, rows);
    if f in caps then eligible[..Min(Max(0, caps[f]), |eligible|)] else []
  }

  ghost predicate DistinctSessions(rows: seq<Row>) {
    forall i, j :: 0 <= i < j < |rows| ==> rows[i].sessionId != rows[j].sessionId
  }

  /** A row is looked at when its framework is wanted and the rows before it do not already fill its cap. */
  predicate Examined(caps: Caps, minTurns: int, rows: seq<Row>, i: nat)
    requires i < |rows|
  {
    rows[i].framework in caps
    && |EligibleRows(rows[i].framework, minTurns, rows[..i])| < caps[rows[i].framework]
  }

  ghost predicate NoInvalidExamined(caps: Caps, minTurns: int, rows: seq<Row>) {
    forall i :: 0 <= i < |rows| && Examined(caps, minTurns, rows, i) ==> rows[i].turns.Some?
  }

  ghost predicate ScanIsFilter(caps: Caps, minTurns: int, rows: seq<Row>, s: Scan) {
    (forall f :: Lookup(s.picked, f) == Capped(caps, f, minTurns, rows))
    && forall id :: id in s.seen <==> WasRead(caps, minTurns, rows, id)
  }

  /** One of the rows that are looked at belongs to this session. */
  predicate WasRead(caps: Caps, minTurns: int, rows: seq<Row>, id: string) {
    exists i :: 0 <= i < |rows| && rows[i].sessionId == id && Examined(caps, minTurns, rows, i)
  }

  /** No session comes back after one of its rows was looked at. */
  ghost predicate NothingReread(caps: Caps, minTurns: int, rows: seq<Row>) {
    forall i, j :: 0 <= i < j < |rows| && rows[i].sessionId == rows[j].sessionId ==> !Examined(caps, minTurns, rows, i)
  }

  lemma ExaminedInFront(caps: Caps, minTurns: int, rows: seq<Row>, k: nat, i: nat)
    requires i < k <= |rows|
    ensures Examined(caps, minTurns, rows[..k], i) <==> Examined(caps, minTurns, rows, i)
  {
    assert rows[..k][..i] == rows[..i] && rows[..k][i] == rows[i];
  }

  lemma WasReadNext(caps: Caps, minTurns: int, rows: seq<Row>, id: string)
    requires rows != []
    ensures var k := |rows| - 1;
            WasRead(caps, minTurns, rows, id) <==>
              WasRead(caps, minTurns, rows[..k], id) || (rows[k].sessionId == id && Examined(caps, minTurns, rows, k))
  {
    hide Examined;
    var k := |rows| - 1;
    var front := rows[..k];
    if WasRead(caps, minTurns, rows, id) {
      var i :| 0 <= i < |rows| && rows[i].sessionId == id && Examined(caps, minTurns, rows, i);
      if i < k {
        ExaminedInFront(caps, minTurns, rows, k, i);
        assert front[i] == rows[i];
      }
    }
    if WasRead(caps, minTurns, front, id) {
      var i :| 0 <= i < |front| && front[i].sessionId == id && Examined(caps, minTurns, front, i);
      ExaminedInFront(caps, minTurns, rows, k, i);
      assert rows[i] == front[i];
    }
  }

  lemma UnreadFront(caps: Caps, minTurns: int, rows: seq<Row>)
    requires rows != []
    ensures var k := |rows| - 1;
            NothingReread(caps, minTurns, rows) <==>
              NothingReread(caps, minTurns, rows[..k]) && !WasRead(caps, minTurns, rows[..k], rows[k].sessionId)
  {
    hide Examined;
    var k := |rows| - 1;
    var front := rows[..k];
    forall i | 0 <= i < k ensures Examined(caps, minTurns, front, i) <==> Examined(caps, minTurns, rows, i) {
      ExaminedInFront(caps, minTurns, rows, k, i);
    }
    if NothingReread(caps, minTurns, rows) {
      forall i | 0 <= i < |front| && front[i].sessionId == rows[k].sessionId ensures !Examined(caps, minTurns, front, i) {
        assert rows[i] == front[i];
      }
      forall i, j | 0 <= i < j < |front| && front[i].sessionId == front[j].sessionId
        ensures !Examined(caps, minTurns, front, i)
      {
        assert rows[i] == front[i] && rows[j] == front[j];
      }
    }
    if NothingReread(caps, minTurns, front) && !WasRead(caps, minTurns, front, rows[k].sessionId) {
      forall i, j | 0 <= i < j < |rows| && rows[i].sessionId == rows[j].sessionId
        ensures !Examined(caps, minTurns, rows, i)
      {
        assert front[i] == rows[i];
        assert j < k ==> front[j] == rows[j];
      }
    }
  }

  /**
    Where no session comes back after it was looked at, the scan succeeds exactly when no examined row is invalid, and
    what it picks for each framework is then the first eligible rows, up to the cap.
   */
  lemma {:induction false} ScanOfUnread(caps: Caps, minTurns: int, rows: seq<Row>)
    requires NothingReread(caps, minTurns, rows) && forall f :: f in caps ==> caps[f] >= 0
    ensures ScanAll(caps, minTurns, rows).Ok? <==> NoInvalidExamined(caps, minTurns, rows)
    ensures ScanAll(caps, minTurns, rows).Ok? ==> ScanIsFilter(caps, minTurns, rows, ScanAll(caps, minTurns, rows).value)
  {
    if rows == [] {
    } else {
      UnreadFront(caps, minTurns, rows);
      ExaminedNext(caps, minTurns, rows);
      hide Examined, Step, NothingReread, WasRead;
      var front := rows[..|rows| - 1];
      ScanOfUnread(caps, minTurns, front);
      if ScanAll(caps, minTurns, front).Ok? {
        StepIsFilter(caps, minTurns, rows, ScanAll(caps, minTurns, front).value);
      }
    }
  }

  lemma ExaminedNext(caps: Caps, minTurns: int, rows: seq<Row>)
    requires rows != []
    ensures var k := |rows| - 1;
            NoInvalidExamined(caps, minTurns, rows) <==>
              NoInvalidExamined(caps, minTurns, rows[..k]) && (Examined(caps, minTurns, rows, k) ==> rows[k].turns.Some?)
  {
    hide EligibleRows;
    var k := |rows| - 1;
    var front := rows[..k];
    forall i | 0 <= i < k ensures Examined(caps, minTurns, front, i) <==> Examined(caps, minTurns, rows, i) {
      assert front[..i] == rows[..i] && front[i] == rows[i];
    }
    hide Examined;
    if NoInvalidExamined(caps, minTurns, rows) {
      forall i | 0 <= i < |front| && Examined(caps, minTurns, front, i) ensures front[i].turns.Some? {
        assert Examined(caps, minTurns, rows, i);
      }
    }
    if NoInvalidExamined(caps, minTurns, front) && (Examined(caps, minTurns, rows, k) ==> rows[k].turns.Some?) {
      forall i | 0 <= i < |rows| && Examined(caps, minTurns, rows, i) ensures rows[i].turns.Some? {
        if i < k {
          assert Examined(caps, minTurns, front, i);
        }
      }
    }
  }

  lemma StepIsFilter(caps: Caps, minTurns: int, rows: seq<Row>, s: Scan)
    requires rows != [] && (forall f :: f in caps ==> caps[f] >= 0)
    requires rows[|rows| - 1].sessionId !in s.seen && ScanIsFilter(caps, minTurns, rows[..|rows| - 1], s)
    ensures var r := Step(caps, minTurns, s, rows[|rows| - 1]);
            (r.Ok? <==> (Examined(caps, minTurns, rows, |rows| - 1) ==> rows[|rows| - 1].turns.Some?))
            && (r.Ok? ==> ScanIsFilter(caps, minTurns, rows, r.value))
  {
    var k := |rows| - 1;
    var front, row := rows[..k], rows[k];
    var r := Step(caps, minTurns, s, row);
    assert Lookup(s.picked, row.framework) == Capped(caps, row.framework, minTurns, front);
    hide WasRead;
    if r.Ok? {
      forall f ensures Lookup(r.value.picked, f) == Capped(caps, f, minTurns, rows) {
        assert Lookup(s.picked, f) == Capped(caps, f, minTurns, front);
        if f == row.framework && Eligible(row, f, minTurns) && f in caps {
          CapNext(EligibleRows(f, minTurns, front), row, caps[f]);
        }
      }
      forall id ensures id in r.value.seen <==> WasRead(caps, minTurns, rows, id) {
        WasReadNext(caps, minTurns, rows, id);
      }
    }
  }

  lemma CapNext(eligible: seq<Row>, row: Row, cap: int)
    requires cap >= 0
    ensures (eligible + [row])[..Min(Max(0, cap), |eligible| + 1)]
         == eligible[..Min(Max(0, cap), |eligible|)] + (if |eligible| < cap then [row] else [])
  {
  }

  // ---- the allocator against its specification ------------------------------------------------------------------

  lemma {:induction false} ShortMeans(q: Request, caps: Caps, picked: map<string, seq<Row>>, count: nat)
    requires count <= |q.frameworks| && forall i :: 0 <= i < count ==> q.frameworks[i] in caps
    ensures ShortFramework(q, caps, picked, count) == None <==>
              forall i :: 0 <= i < count ==> |Lookup(picked, q.frameworks[i])| >= caps[q.frameworks[i]]
  {
    if count == 0 {
    } else {
      ShortMeans(q, caps, picked, count - 1);
    }
  }

  /** How many sessions of framework `i` all cohorts together need. */
  function Need(q: Request, i: nat): int
    requires |q.frameworks| > 0
  {
    |q.cohorts| * Quota(q, i)
  }

  function CapsOf(q: Request): Caps {
    Required(q, Allocation(q, |q.frameworks|))
  }

  /** What the allocator promises for some rows: when it succeeds, and which windows the cohorts get. */
  ghost predicate MeetsSpec(q: Request, r: Result<seq<seq<Row>>, Error>, rows: seq<Row>)
    requires Accepted(q)
  {
    (r.Ok? <==>
       NoInvalidExamined(CapsOf(q), q.minTurns, rows)
       && forall i :: 0 <= i < |q.frameworks| ==> |EligibleRows(q.frameworks[i], q.minTurns, rows)| >= Need(q, i))
    && (r.Ok? ==>
          |r.value| == |q.cohorts|
          && forall c :: 0 <= c < |q.cohorts| ==> r.value[c] == Ideal(q, rows, c, |q.frameworks|))
  }

  lemma AllocatorOnUnread(q: Request, rows: seq<Row>)
    requires Accepted(q) && Distinct(q.frameworks) && NothingReread(CapsOf(q), q.minTurns, rows)
    ensures MeetsSpec(q, BuildCohortsSpec(q, rows), rows)
  {
    hide CohortOf, Ideal, ScanAll, ShortFramework, EligibleRows, NoInvalidExamined, NothingReread, Distinct;
    var n := |q.frameworks|;
    var allocation := Allocation(q, n);
    var caps := Required(q, allocation);
    AllocationKeys(q, n);
    assert q.frameworks[..n] == q.frameworks;
    CapsNonnegative(q, allocation);
    ScanOfUnread(caps, q.minTurns, rows);
    if ScanAll(caps, q.minTurns, rows).Ok? {
      var s := ScanAll(caps, q.minTurns, rows).value;
      EnoughMeans(q, rows, s.picked);
      if BuildCohortsSpec(q, rows).Ok? {
        forall c | 0 <= c < |q.cohorts| ensures BuildCohortsSpec(q, rows).value[c] == Ideal(q, rows, c, n) {
          CohortIsIdeal(q, rows, s.picked, c, n);
        }
      }
    }
  }

  lemma EnoughMeans(q: Request, rows: seq<Row>, picked: map<string, seq<Row>>)
    requires Accepted(q) && Distinct(q.frameworks)
    requires forall i :: 0 <= i < |q.frameworks| ==> q.frameworks[i] in CapsOf(q)
    requires forall f :: Lookup(picked, f) == Capped(CapsOf(q), f, q.minTurns, rows)
    ensures ShortFramework(q, CapsOf(q), picked, |q.frameworks|) == None <==>
              forall i :: 0 <= i < |q.frameworks| ==> |EligibleRows(q.frameworks[i], q.minTurns, rows)| >= Need(q, i)
  {
    hide ShortFramework, EligibleRows;
    var n := |q.frameworks|;
    ShortMeans(q, CapsOf(q), picked, n);
    forall i | 0 <= i < n
      ensures |Lookup(picked, q.frameworks[i])| >= CapsOf(q)[q.frameworks[i]]
              <==> |EligibleRows(q.frameworks[i], q.minTurns, rows)| >= Need(q, i)
    {
      NeedIsCap(q, i);
    }
  }

  lemma NeedIsCap(q: Request, i: nat)
    requires Accepted(q) && Distinct(q.frameworks) && i < |q.frameworks|
    ensures q.frameworks[i] in CapsOf(q) && CapsOf(q)[q.frameworks[i]] == Need(q, i)
  {
    AllocationAt(q, |q.frameworks|, i);
  }

  lemma CapsNonnegative(q: Request, allocation: map<string, int>)
    requires forall f :: f in allocation ==> allocation[f] >= 1
    ensures forall f :: f in Required(q, allocation) ==> Required(q, allocation)[f] >= 0
  {
    forall f | f in allocation ensures |q.cohorts| * allocation[f] >= 0 {
      MultipleNonnegative(|q.cohorts|, allocation[f]);
    }
  }

  /** The windows of the eligible rows that cohort `c` should get. */
  function Ideal(q: Request, rows: seq<Row>, c: nat, count: nat): seq<Row>
    requires Accepted(q) && count <= |q.frameworks|
  {
    if count == 0 then []
    else
      QuotaPositive(q, count - 1);
      Ideal(q, rows, c, count - 1)
      + Window(EligibleRows(q.frameworks[count - 1], q.minTurns, rows), c, Quota(q, count - 1))
  }

  lemma {:induction false} CohortIsIdeal(q: Request, rows: seq<Row>, picked: map<string, seq<Row>>, c: nat, count: nat)
    requires Accepted(q) && Distinct(q.frameworks) && c < |q.cohorts| && count <= |q.frameworks|
    requires var allocation := Allocation(q, |q.frameworks|);
             (forall f :: f in allocation <==> f in q.frameworks) && (forall f :: f in allocation ==> allocation[f] >= 1)
             && forall f :: Lookup(picked, f) == Capped(Required(q, allocation), f, q.minTurns, rows)
    ensures CohortOf(q, Allocation(q, |q.frameworks|), picked, c, count) == Ideal(q, rows, c, count)
  {
    hide EligibleRows;
    if count == 0 {
    } else {
      CohortIsIdeal(q, rows, picked, c, count - 1);
      var f := q.frameworks[count - 1];
      var allocation := Allocation(q, |q.frameworks|);
      AllocationAt(q, |q.frameworks|, count - 1);
      QuotaPositive(q, count - 1);
      assert Lookup(picked, f) == Capped(Required(q, allocation), f, q.minTurns, rows);
      WindowInsideCap(EligibleRows(f, q.minTurns, rows), c, |q.cohorts|, Quota(q, count - 1));
    }
  }

  lemma WindowInsideCap(eligible: seq<Row>, c: nat, cohorts: nat, quota: int)
    requires quota >= 0 && c < cohorts
    ensures cohorts * quota >= 0
    ensures Window(eligible[..Min(Max(0, cohorts * quota), |eligible|)], c, quota) == Window(eligible, c, quota)
  {
    MultipleNonnegative(cohorts, quota);
    MultipleNonnegative(c, quota);
    assert c * quota + quota <= cohorts * quota by {
      MultipleNonnegative(cohorts - c - 1, quota);
      assert cohorts * quota == c * quota + quota + (cohorts - c - 1) * quota;
    }
    SliceOfPrefix(eligible, c * quota, c * quota + quota, cohorts * quota);
  }

  lemma SliceOfPrefix(s: seq<Row>, from: nat, to: nat, cap: nat)
    requires from <= to <= cap
    ensures var prefix := s[..Min(Max(0, cap), |s|)];
            prefix[Min(from, |prefix|)..Min(to, |prefix|)] == s[Min(from, |s|)..Min(to, |s|)]
  {
  }

  /**
    On rows with distinct sessions the allocator fails exactly when a row that it has to look at is invalid or some
    framework has fewer eligible rows than all cohorts need, and otherwise cohort `c` receives of each framework the
    `c`-th window of its first eligible rows.
   */
  lemma AllocatorOnDistinct(q: Request, rows: seq<Row>)
    requires Accepted(q) && Distinct(q.frameworks) && DistinctSessions(rows)
    ensures MeetsSpec(q, BuildCohortsSpec(q, rows), rows)
  {
    hide MeetsSpec, BuildCohortsSpec;
    AllocatorOnUnread(q, rows);
  }

  // ---- datasets that repeat a session ----------------------------------------------------------------

  /**
    The rows that can matter: of a wanted framework, and of a session of which no earlier one was looked at. A session
    that was passed over because its framework was full may still serve under another framework.
   */
  function Kept(caps: Caps, minTurns: int, rows: seq<Row>): seq<Row> {
    if rows == [] then []
    else
      var kept, last := Kept(caps, minTurns, rows[..|rows| - 1]), rows[|rows| - 1];
      kept + (if last.framework !in caps || WasRead(caps, minTurns, kept, last.sessionId) then [] else [last])
  }

  lemma {:induction false} KeptIsUnread(caps: Caps, minTurns: int, rows: seq<Row>)
    ensures NothingReread(caps, minTurns, Kept(caps, minTurns, rows))
  {
    hide NothingReread, WasRead;
    if rows == [] {
      NothingIsUnread(caps, minTurns);
    } else {
      var kept, last := Kept(caps, minTurns, rows[..|rows| - 1]), rows[|rows| - 1];
      KeptIsUnread(caps, minTurns, rows[..|rows| - 1]);
      var longer := kept + [last];
      assert longer[..|longer| - 1] == kept;
      UnreadFront(caps, minTurns, longer);
      assert kept + [] == kept;
    }
  }

  lemma NothingIsUnread(caps: Caps, minTurns: int)
    ensures NothingReread(caps, minTurns, [])
  {
  }

  /** The scan reads the kept rows and nothing else, on every dataset. */
  lemma {:induction false} ScanReadsKept(caps: Caps, minTurns: int, rows: seq<Row>)
    requires forall f :: f in caps ==> caps[f] >= 0
    ensures ScanAll(caps, minTurns, rows) == ScanAll(caps, minTurns, Kept(caps, minTurns, rows))
  {
    hide NothingReread, WasRead, NoInvalidExamined;
    if rows == [] {
    } else {
      var front, last := rows[..|rows| - 1], rows[|rows| - 1];
      var kept := Kept(caps, minTurns, front);
      ScanReadsKept(caps, minTurns, front);
      KeptIsUnread(caps, minTurns, front);
      ScanOfUnread(caps, minTurns, kept);
      if last.framework in caps && !WasRead(caps, minTurns, kept, last.sessionId) {
        assert (kept + [last])[..|kept|] == kept;
      } else {
        assert kept + [] == kept;
      }
    }
  }

  /** The scan on any dataset at all. */
  lemma ScanIsFilterAndTake(caps: Caps, minTurns: int, rows: seq<Row>)
    requires forall f :: f in caps ==> caps[f] >= 0
    ensures var kept := Kept(caps, minTurns, rows);
            (ScanAll(caps, minTurns, rows).Ok? <==> NoInvalidExamined(caps, minTurns, kept))
            && (ScanAll(caps, minTurns, rows).Ok? ==>
                  forall f :: Lookup(ScanAll(caps, minTurns, rows).value.picked, f) == Capped(caps, f, minTurns, kept))
  {
    hide NoInvalidExamined, NothingReread, Capped;
    ScanReadsKept(caps, minTurns, rows);
    KeptIsUnread(caps, minTurns, rows);
    ScanOfUnread(caps, minTurns, Kept(caps, minTurns, rows));
  }

  /** The allocator against its specification, on any dataset at all: it works on the kept rows. */
  lemma AllocatorMeetsSpec(q: Request, rows: seq<Row>)
    requires Accepted(q) && Distinct(q.frameworks)
    ensures MeetsSpec(q, BuildCohortsSpec(q, rows), Kept(CapsOf(q), q.minTurns, rows))
  {
    var n := |q.frameworks|;
    AllocationKeys(q, n);
    assert q.frameworks[..n] == q.frameworks;
    CapsNonnegative(q, Allocation(q, n));
    ScanReadsKept(CapsOf(q), q.minTurns, rows);
    KeptIsUnread(CapsOf(q), q.minTurns, rows);
    var kept := Kept(CapsOf(q), q.minTurns, rows);
    assert BuildCohortsSpec(q, rows) == BuildCohortsSpec(q, kept) by {
      hide ScanAll, CohortOf, ShortFramework, Kept;
    }
    hide BuildCohortsSpec, MeetsSpec, NothingReread;
    AllocatorOnUnread(q, kept);
  }

  // ---- who is in which cohort ------------------------------------------------------------------------

  lemma {:induction false} FixedQuotaSum(q: Request, count: nat)
    requires q.sessionsPerCohort.None? && |q.frameworks| > 0
    ensures QuotaSum(q, count) == count * q.perFramework
  {
    if count == 0 {
    } else {
      FixedQuotaSum(q, count - 1);
      assert count * q.perFramework == (count - 1) * q.perFramework + q.perFramework;
    }
  }

  lemma WindowRows(eligible: seq<Row>, c: nat, cohorts: nat, quota: int)
    requires quota >= 0 && c < cohorts && |eligible| >= cohorts * quota
    ensures 0 <= c * quota && c * quota + quota <= |eligible|
    ensures Window(eligible, c, quota) == eligible[c * quota..c * quota + quota]
  {
    MultipleNonnegative(c, quota);
    MultipleNonnegative(cohorts - c - 1, quota);
    assert cohorts * quota == c * quota + quota + (cohorts - c - 1) * quota;
  }

  /** The eligible rows of framework number `i`. */
  function RowsFor(q: Request, rows: seq<Row>, i: nat): seq<Row>
    requires i < |q.frameworks|
  {
    EligibleRows(q.frameworks[i], q.minTurns, rows)
  }

  ghost predicate Enough(q: Request, rows: seq<Row>) {
    |q.frameworks| > 0 && forall i :: 0 <= i < |q.frameworks| ==> |RowsFor(q, rows, i)| >= |q.cohorts| * Quota(q, i)
  }

  /** Row `j` of framework `i` in cohort `c`, by its place in the eligible rows. */
  ghost predicate Holds(q: Request, rows: seq<Row>, c: nat, cohort: seq<Row>, i: nat, j: nat)
    requires i < |q.frameworks|
  {
    0 <= QuotaSum(q, i) + j < |cohort| && 0 <= c * Quota(q, i) + j < |RowsFor(q, rows, i)|
    && cohort[QuotaSum(q, i) + j] == RowsFor(q, rows, i)[c * Quota(q, i) + j]
  }

  lemma {:induction false} IdealRows(q: Request, rows: seq<Row>, c: nat, count: nat)
    requires Accepted(q) && Enough(q, rows) && c < |q.cohorts| && count <= |q.frameworks|
    ensures |Ideal(q, rows, c, count)| == QuotaSum(q, count)
    ensures forall i: nat, j: nat :: i < count && j < Quota(q, i) ==> Holds(q, rows, c, Ideal(q, rows, c, count), i, j)
  {
    hide Window, EligibleRows, Quota;
    if count == 0 {
    } else {
      var k := count - 1;
      var before, after := Ideal(q, rows, c, k), Ideal(q, rows, c, count);
      IdealRows(q, rows, c, k);
      QuotaPositive(q, k);
      WindowRows(RowsFor(q, rows, k), c, |q.cohorts|, Quota(q, k));
      forall i: nat, j: nat | i < count && j < Quota(q, i) ensures Holds(q, rows, c, after, i, j) {
        if i < k {
          assert Holds(q, rows, c, before, i, j);
        }
      }
    }
  }

  /** The rows that matter for a request. */
  function KeptRows(q: Request, rows: seq<Row>): seq<Row> {
    Kept(CapsOf(q), q.minTurns, rows)
  }

  /**
    Who is in which cohort. On success every cohort has as many rows as were asked for, and row `j` that it holds of
    framework `i` is number `c * quota + j` of that framework's eligible rows, counted over the kept rows.
   */
  lemma CohortsHoldTheirRows(q: Request, rows: seq<Row>, c: nat)
    requires Accepted(q) && Distinct(q.frameworks) && BuildCohortsSpec(q, rows).Ok? && c < |q.cohorts|
    ensures |BuildCohortsSpec(q, rows).value| == |q.cohorts|
    ensures |BuildCohortsSpec(q, rows).value[c]|
         == match q.sessionsPerCohort case Some(n) => n case None => |q.frameworks| * q.perFramework
    ensures forall i: nat, j: nat :: i < |q.frameworks| && j < Quota(q, i) ==>
              Holds(q, KeptRows(q, rows), c, BuildCohortsSpec(q, rows).value[c], i, j)
  {
    hide BuildCohortsSpec, Kept, Holds, Ideal, EligibleRows, NoInvalidExamined, Distinct;
    AllocatorMeetsSpec(q, rows);
    IdealRows(q, Kept(CapsOf(q), q.minTurns, rows), c, |q.frameworks|);
    if q.sessionsPerCohort.Some? {
      QuotasShareEvenly(q, 0, 0);
    } else {
      FixedQuotaSum(q, |q.frameworks|);
    }
  }

  lemma {:induction false} LocateInCohort(q: Request, count: nat, p: nat) returns (i: nat, j: nat)
    requires Accepted(q) && count <= |q.frameworks| && p < QuotaSum(q, count)
    ensures i < count && j < Quota(q, i) && p == QuotaSum(q, i) + j
  {
    assert count > 0;
    if p >= QuotaSum(q, count - 1) {
      i, j := count - 1, p - QuotaSum(q, count - 1);
    } else {
      i, j := LocateInCohort(q, count - 1, p);
    }
  }

  lemma LocateInEligible(k: nat, cohorts: nat, quota: int) returns (c: nat, j: nat)
    requires quota >= 0 && k < cohorts * quota
    ensures c < cohorts && j < quota && k == c * quota + j
  {
    assert quota > 0;
    c, j := k / quota, k % quota;
    assert k == c * quota + j;
    MultipleBound(quota, c - cohorts + 1);
    assert quota * (c - cohorts + 1) == c * quota - cohorts * quota + quota;
  }

  lemma InsideNeed(c: nat, cohorts: nat, quota: int, j: nat)
    requires c < cohorts && j < quota
    ensures 0 <= c * quota + j < cohorts * quota
  {
    MultipleNonnegative(c, quota);
    MultipleNonnegative(cohorts - c - 1, quota);
    assert cohorts * quota == c * quota + quota + (cohorts - c - 1) * quota;
  }

  /** The row is number `k` of framework `i`, among the first ones that all cohorts together need. */
  ghost predicate IsFirstRow(q: Request, rows: seq<Row>, row: Row, i: nat, k: nat) {
    i < |q.frameworks| && k < |q.cohorts| * Quota(q, i) && k < |RowsFor(q, rows, i)| && RowsFor(q, rows, i)[k] == row
  }

  ghost predicate Serves(cohorts: seq<seq<Row>>, c: nat, row: Row) {
    c < |cohorts| && row in cohorts[c]
  }

  /** All cohorts together hold exactly the first rows of each framework that they need. */
  lemma CohortsHoldTheFirstRows(q: Request, rows: seq<Row>, row: Row)
    requires Accepted(q) && Distinct(q.frameworks) && BuildCohortsSpec(q, rows).Ok?
    ensures (exists c: nat :: Serves(BuildCohortsSpec(q, rows).value, c, row))
            <==> exists i: nat, k: nat :: IsFirstRow(q, KeptRows(q, rows), row, i, k)
  {
    hide BuildCohortsSpec, Distinct, IsFirstRow, KeptRows;
    var kept, cohorts := KeptRows(q, rows), BuildCohortsSpec(q, rows).value;
    assert q.cohorts != [];
    CohortsHoldTheirRows(q, rows, 0);
    if c: nat :| Serves(cohorts, c, row) {
      CohortsHoldTheirRows(q, rows, c);
      var i, k := HeldIsFirst(q, kept, c, cohorts[c], row);
      assert IsFirstRow(q, kept, row, i, k);
    }
    if i: nat, k: nat :| IsFirstRow(q, kept, row, i, k) {
      var c := FirstIsHeld(q, kept, row, i, k);
      CohortsHoldTheirRows(q, rows, c);
      CellHolds(q, kept, c, cohorts[c], row, i, k);
      assert Serves(cohorts, c, row);
    }
  }

  lemma HeldIsFirst(q: Request, kept: seq<Row>, c: nat, cohort: seq<Row>, row: Row) returns (i: nat, k: nat)
    requires Accepted(q) && c < |q.cohorts| && row in cohort
    requires |cohort| == match q.sessionsPerCohort case Some(n) => n case None => |q.frameworks| * q.perFramework
    requires forall i: nat, j: nat :: i < |q.frameworks| && j < Quota(q, i) ==> Holds(q, kept, c, cohort, i, j)
    ensures IsFirstRow(q, kept, row, i, k)
  {
    SizeIsQuotaSum(q);
    var p: nat :| p < |cohort| && cohort[p] == row;
    hide Quota, RowsFor;
    var j: nat;
    i, j := LocateInCohort(q, |q.frameworks|, p);
    assert Holds(q, kept, c, cohort, i, j);
    InsideNeed(c, |q.cohorts|, Quota(q, i), j);
    k := c * Quota(q, i) + j;
  }

  lemma FirstIsHeld(q: Request, kept: seq<Row>, row: Row, i: nat, k: nat) returns (c: nat)
    requires Accepted(q) && IsFirstRow(q, kept, row, i, k)
    ensures c < |q.cohorts| && c * Quota(q, i) <= k < c * Quota(q, i) + Quota(q, i)
  {
    QuotaPositive(q, i);
    hide Quota, RowsFor;
    var j: nat;
    c, j := LocateInEligible(k, |q.cohorts|, Quota(q, i));
  }

  lemma CellHolds(q: Request, kept: seq<Row>, c: nat, cohort: seq<Row>, row: Row, i: nat, k: nat)
    requires IsFirstRow(q, kept, row, i, k) && c * Quota(q, i) <= k < c * Quota(q, i) + Quota(q, i)
    requires forall i: nat, j: nat :: i < |q.frameworks| && j < Quota(q, i) ==> Holds(q, kept, c, cohort, i, j)
    ensures row in cohort
  {
    hide Quota, RowsFor, QuotaSum;
    var j: nat := k - c * Quota(q, i);
    assert Holds(q, kept, c, cohort, i, j);
    assert cohort[QuotaSum(q, i) + j] == row;
  }

  lemma SizeIsQuotaSum(q: Request)
    requires Accepted(q)
    ensures QuotaSum(q, |q.frameworks|)
         == match q.sessionsPerCohort case Some(n) => n case None => |q.frameworks| * q.perFramework
  {
    if q.sessionsPerCohort.Some? {
      QuotasShareEvenly(q, 0, 0);
    } else {
      FixedQuotaSum(q, |q.frameworks|);
    }
  }

  // ---- what the errors say ---------------------------------------------------------------------------

  /** The two refusals of the arguments, and that every other error speaks of the dataset. */
  lemma RefusalsMeanArguments(q: Request, rows: seq<Row>)
    ensures BuildCohortsSpec(q, rows) == Err(BadArguments)
            <==> |q.cohorts| == 0 || |q.frameworks| == 0 || q.perFramework <= 0 || q.minTurns <= 0
    ensures BuildCohortsSpec(q, rows) == Err(TooFewSessions)
            <==> |q.cohorts| > 0 && |q.frameworks| > 0 && q.perFramework > 0 && q.minTurns > 0
                 && q.sessionsPerCohort.Some? && q.sessionsPerCohort.value < |q.frameworks|
  {
    hide CohortOf;
    if Accepted(q) {
      AllocationKeys(q, |q.frameworks|);
      assert q.frameworks[..|q.frameworks|] == q.frameworks;
      assert CapsOf(q) == Required(q, Allocation(q, |q.frameworks|));
      ScanErrors(CapsOf(q), q.minTurns, rows);
      if ScanAll(CapsOf(q), q.minTurns, rows).Ok? {
        ShortErrors(q, CapsOf(q), ScanAll(CapsOf(q), q.minTurns, rows).value.picked, |q.frameworks|);
      }
    }
  }

  lemma {:induction false} ScanErrors(caps: Caps, minTurns: int, rows: seq<Row>)
    ensures ScanAll(caps, minTurns, rows).Err? ==>
              exists row :: row in rows && row.turns.None? && row.framework in caps
                && ScanAll(caps, minTurns, rows).error == InvalidMessages(row.sessionId)
  {
    if rows == [] {
    } else {
      ScanErrors(caps, minTurns, rows[..|rows| - 1]);
      assert rows[|rows| - 1] in rows && forall row :: row in rows[..|rows| - 1] ==> row in rows;
    }
  }

  /** The reported framework is the first one that is short, with what it has and what it needs. */
  lemma {:induction false} ShortErrors(q: Request, caps: Caps, picked: map<string, seq<Row>>, count: nat)
    requires count <= |q.frameworks| && forall i :: 0 <= i < count ==> q.frameworks[i] in caps
    ensures ShortFramework(q, caps, picked, count).Some? ==>
              exists i: nat :: i < count && |Lookup(picked, q.frameworks[i])| < caps[q.frameworks[i]]
                && (forall k :: 0 <= k < i ==> |Lookup(picked, q.frameworks[k])| >= caps[q.frameworks[k]])
                && ShortFramework(q, caps, picked, count).value
                   == Short(q.frameworks[i], |Lookup(picked, q.frameworks[i])|, caps[q.frameworks[i]])
  {
    if count == 0 {
    } else {
      ShortErrors(q, caps, picked, count - 1);
      ShortMeans(q, caps, picked, count - 1);
    }
  }

  // ---- stability ---------------------------------------------------------------------------------------------------

  /** Appending rows to an input that already suffices leaves the cohorts as they were, whatever the new rows hold. */
  lemma AppendingRowsChangesNothing(q: Request, rows: seq<Row>, more: seq<Row>)
    requires BuildCohortsSpec(q, rows).Ok?
    ensures BuildCohortsSpec(q, rows + more) == BuildCohortsSpec(q, rows)
  {
    var n := |q.frameworks|;
    var allocation := Allocation(q, n);
    var caps := Required(q, allocation);
    AllocationKeys(q, n);
    assert q.frameworks[..n] == q.frameworks;
    var s := ScanAll(caps, q.minTurns, rows).value;
    ShortMeans(q, caps, s.picked, n);
    assert (rows + more)[..|rows|] == rows;
    forall f | f in caps ensures Full(caps, s.picked, f) {
      var i :| 0 <= i < n && q.frameworks[i] == f;
    }
    EarlyExitChangesNothing(caps, q.minTurns, rows + more, |rows|);
  }

  // ---- disjointness ---------------------------------------------------------------------------------------------------

  ghost predicate PickedOnce(s: Scan) {
    (forall f, k :: f in s.picked && 0 <= k < |s.picked[f]| ==>
       s.picked[f][k].framework == f && s.picked[f][k].sessionId in s.seen)
    && (forall f, g, j, k :: f in s.picked && g in s.picked && 0 <= j < |s.picked[f]| && 0 <= k < |s.picked[g]| ==>
          s.picked[f][j].sessionId == s.picked[g][k].sessionId ==> f == g && j == k)
  }

  /** No session is ever picked twice, even when the dataset repeats it. */
  lemma {:induction false} SessionsPickedOnce(caps: Caps, minTurns: int, rows: seq<Row>)
    requires ScanAll(caps, minTurns, rows).Ok?
    ensures PickedOnce(ScanAll(caps, minTurns, rows).value)
  {
    if rows == [] {
    } else {
      SessionsPickedOnce(caps, minTurns, rows[..|rows| - 1]);
    }
  }

  /** A row of cohort `c` is one of the picks of a framework, inside the cohort's window of it. */
  ghost predicate From(q: Request, allocation: map<string, int>, picked: map<string, seq<Row>>, c: nat, count: nat, row: Row)
    requires count <= |q.frameworks| && forall i :: 0 <= i < count ==> q.frameworks[i] in allocation
  {
    exists k, p :: 0 <= k < count && 0 <= p < |Lookup(picked, q.frameworks[k])|
      && Lookup(picked, q.frameworks[k])[p] == row
      && c * allocation[q.frameworks[k]] <= p < c * allocation[q.frameworks[k]] + allocation[q.frameworks[k]]
  }

  lemma {:induction false} CohortFrom(q: Request, allocation: map<string, int>, picked: map<string, seq<Row>>,
                                      c: nat, count: nat, row: Row)
    requires count <= |q.frameworks| && forall i :: 0 <= i < count ==> q.frameworks[i] in allocation
    requires forall f :: f in allocation ==> allocation[f] >= 0
    requires row in CohortOf(q, allocation, picked, c, count)
    ensures From(q, allocation, picked, c, count, row)
  {
    var f := q.frameworks[count - 1];
    var available, quota := Lookup(picked, f), allocation[f];
    MultipleNonnegative(c, quota);
    if row in CohortOf(q, allocation, picked, c, count - 1) {
      CohortFrom(q, allocation, picked, c, count - 1, row);
    } else {
      var window := Window(available, c, quota);
      var w :| 0 <= w < |window| && window[w] == row;
      assert available[c * quota + w] == row;
    }
  }

  lemma WindowsApart(a: nat, b: nat, quota: int, p: int)
    requires quota >= 0 && a * quota <= p < a * quota + quota && b * quota <= p < b * quota + quota
    ensures a == b
  {
    assert quota > 0;
    DivModUnique(quota, p, a, p - a * quota);
    DivModUnique(quota, p, b, p - b * quota);
  }

  lemma {:induction false} CohortHasNoRepeat(q: Request, allocation: map<string, int>, s: Scan, c: nat, count: nat)
    requires Distinct(q.frameworks) && PickedOnce(s)
    requires count <= |q.frameworks| && forall i :: 0 <= i < count ==> q.frameworks[i] in allocation
    requires forall f :: f in allocation ==> allocation[f] >= 0
    ensures DistinctSessions(CohortOf(q, allocation, s.picked, c, count))
  {
    if count == 0 {
    } else {
      CohortHasNoRepeat(q, allocation, s, c, count - 1);
      var f := q.frameworks[count - 1];
      var front := CohortOf(q, allocation, s.picked, c, count - 1);
      var window := Window(Lookup(s.picked, f), c, allocation[f]);
      WindowHasNoRepeat(s, f, c, allocation[f]);
      forall i, j | 0 <= i < |front| && 0 <= j < |window| ensures front[i].sessionId != window[j].sessionId {
        CohortFrom(q, allocation, s.picked, c, count - 1, front[i]);
        var k, p :| 0 <= k < count - 1 && 0 <= p < |Lookup(s.picked, q.frameworks[k])|
          && Lookup(s.picked, q.frameworks[k])[p] == front[i]
          && c * allocation[q.frameworks[k]] <= p < c * allocation[q.frameworks[k]] + allocation[q.frameworks[k]];
        assert q.frameworks[k] != f;
        WindowElement(s, f, c, allocation[f], j);
      }
    }
  }

  lemma WindowElement(s: Scan, f: string, c: nat, quota: int, j: nat)
    requires quota >= 0 && j < |Window(Lookup(s.picked, f), c, quota)|
    ensures f in s.picked && 0 <= c * quota + j < |s.picked[f]|
    ensures Window(Lookup(s.picked, f), c, quota)[j] == s.picked[f][c * quota + j]
  {
    MultipleNonnegative(c, quota);
  }

  lemma WindowHasNoRepeat(s: Scan, f: string, c: nat, quota: int)
    requires PickedOnce(s) && quota >= 0
    ensures DistinctSessions(Window(Lookup(s.picked, f), c, quota))
  {
    var window := Window(Lookup(s.picked, f), c, quota);
    forall i, j | 0 <= i < j < |window| ensures window[i].sessionId != window[j].sessionId {
      WindowElement(s, f, c, quota, i);
      WindowElement(s, f, c, quota, j);
    }
  }

  /**
    Cohorts are disjoint and free of repetitions, on every input that the allocator accepts: no session id occurs
    twice anywhere in the output, even when the dataset itself repeats sessions.
   */
  lemma CohortsAreDisjoint(q: Request, rows: seq<Row>, c: nat, d: nat, i: nat, j: nat)
    requires Distinct(q.frameworks) && BuildCohortsSpec(q, rows).Ok?
    requires c < |q.cohorts| && d < |q.cohorts|
    requires |BuildCohortsSpec(q, rows).value| == |q.cohorts|
    requires i < |BuildCohortsSpec(q, rows).value[c]| && j < |BuildCohortsSpec(q, rows).value[d]|
    requires BuildCohortsSpec(q, rows).value[c][i].sessionId == BuildCohortsSpec(q, rows).value[d][j].sessionId
    ensures c == d && i == j
  {
    var n := |q.frameworks|;
    var allocation := Allocation(q, n);
    AllocationKeys(q, n);
    assert q.frameworks[..n] == q.frameworks;
    var s := ScanAll(CapsOf(q), q.minTurns, rows).value;
    SessionsPickedOnce(CapsOf(q), q.minTurns, rows);
    hide ScanAll;
    var a, b := CohortOf(q, allocation, s.picked, c, n), CohortOf(q, allocation, s.picked, d, n);
    assert BuildCohortsSpec(q, rows).value[c] == a && BuildCohortsSpec(q, rows).value[d] == b;
    SameSessionSameCohort(q, allocation, s, c, d, a[i], b[j]);
    CohortHasNoRepeat(q, allocation, s, c, n);
  }

  lemma SameSessionSameCohort(q: Request, allocation: map<string, int>, s: Scan, c: nat, d: nat, x: Row, y: Row)
    requires Distinct(q.frameworks) && PickedOnce(s) && x.sessionId == y.sessionId
    requires (forall i :: 0 <= i < |q.frameworks| ==> q.frameworks[i] in allocation)
    requires forall f :: f in allocation ==> allocation[f] >= 0
    requires x in CohortOf(q, allocation, s.picked, c, |q.frameworks|)
    requires y in CohortOf(q, allocation, s.picked, d, |q.frameworks|)
    ensures c == d
  {
    var n := |q.frameworks|;
    CohortFrom(q, allocation, s.picked, c, n, x);
    CohortFrom(q, allocation, s.picked, d, n, y);
    hide CohortOf, PickedOnce;
    var k, p :| 0 <= k < n && 0 <= p < |Lookup(s.picked, q.frameworks[k])|
      && Lookup(s.picked, q.frameworks[k])[p] == x
      && c * allocation[q.frameworks[k]] <= p < c * allocation[q.frameworks[k]] + allocation[q.frameworks[k]];
    var l, r :| 0 <= l < n && 0 <= r < |Lookup(s.picked, q.frameworks[l])|
      && Lookup(s.picked, q.frameworks[l])[r] == y
      && d * allocation[q.frameworks[l]] <= r < d * allocation[q.frameworks[l]] + allocation[q.frameworks[l]];
    SamePlace(s, q.frameworks[k], q.frameworks[l], p, r);
    WindowsApart(c, d, allocation[q.frameworks[k]], p);
  }

  lemma SamePlace(s: Scan, f: string, g: string, p: nat, r: nat)
    requires PickedOnce(s) && p < |Lookup(s.picked, f)| && r < |Lookup(s.picked, g)|
    requires Lookup(s.picked, f)[p].sessionId == Lookup(s.picked, g)[r].sessionId
    ensures f == g && p == r
  {
  }

  ghost predicate NoSessionTwice(cohorts: seq<seq<Row>>) {
    forall c, d, i, j ::
      0 <= c < |cohorts| && 0 <= d < |cohorts| && 0 <= i < |cohorts[c]| && 0 <= j < |cohorts[d]|
      && cohorts[c][i].sessionId == cohorts[d][j].sessionId ==>
        c == d && i == j
  }

  lemma {:induction false} CohortGrows(q: Request, allocation: map<string, int>, picked: map<string, seq<Row>>, c: nat,
                                       k: nat, n: nat)
    requires k <= n <= |q.frameworks| && forall i :: 0 <= i < n ==> q.frameworks[i] in allocation
    requires forall f :: f in allocation ==> allocation[f] >= 0
    ensures CohortOf(q, allocation, picked, c, k) <= CohortOf(q, allocation, picked, c, n)
  {
    hide Window;
    if k == n {
    } else {
      CohortGrows(q, allocation, picked, c, k, n - 1);
    }
  }

  /** The first cohort starts each framework's window with that framework's first pick. */
  lemma FirstOfWindow(q: Request, allocation: map<string, int>, picked: map<string, seq<Row>>, k: nat)
    requires k < |q.frameworks| && forall i :: 0 <= i < |q.frameworks| ==> q.frameworks[i] in allocation
    requires forall f :: f in allocation ==> allocation[f] >= 1
    requires Lookup(picked, q.frameworks[k]) != []
    ensures var here, all := |CohortOf(q, allocation, picked, 0, k)|, CohortOf(q, allocation, picked, 0, |q.frameworks|);
            here < |CohortOf(q, allocation, picked, 0, k + 1)| <= |all|
            && all[here] == Lookup(picked, q.frameworks[k])[0]
  {
    var f := q.frameworks[k];
    CohortGrows(q, allocation, picked, 0, k + 1, |q.frameworks|);
    FirstWindow(Lookup(picked, f), allocation[f]);
    var front := CohortOf(q, allocation, picked, 0, k);
    var next := CohortOf(q, allocation, picked, 0, k + 1);
    hide Window, CohortOf;
    assert next[|front|] == Window(Lookup(picked, f), 0, allocation[f])[0];
  }

  lemma FirstWindow(available: seq<Row>, quota: int)
    requires available != [] && quota >= 1
    ensures Window(available, 0, quota) != [] && Window(available, 0, quota)[0] == available[0]
  {
  }

  /** A framework named twice puts its first session into the first cohort twice, on every input that succeeds. */
  lemma RepeatedNameRepeatsSession(q: Request, rows: seq<Row>, i: nat, j: nat)
    requires BuildCohortsSpec(q, rows).Ok? && i < j < |q.frameworks| && q.frameworks[i] == q.frameworks[j]
    ensures !NoSessionTwice(BuildCohortsSpec(q, rows).value)
  {
    var n := |q.frameworks|;
    var allocation := Allocation(q, n);
    AllocationKeys(q, n);
    assert q.frameworks[..n] == q.frameworks;
    var s := ScanAll(CapsOf(q), q.minTurns, rows).value;
    ShortMeans(q, CapsOf(q), s.picked, n);
    ProductAtLeastOne(|q.cohorts|, allocation[q.frameworks[i]]);
    assert |Lookup(s.picked, q.frameworks[i])| >= CapsOf(q)[q.frameworks[i]] >= 1;
    assert BuildCohortsSpec(q, rows).value[0] == CohortOf(q, allocation, s.picked, 0, n);
    hide *;
    var x, y := SameFirst(q, allocation, s.picked, i, j);
    TwiceInOne(BuildCohortsSpec(q, rows).value, x, y);
  }

  lemma TwiceInOne(cohorts: seq<seq<Row>>, x: nat, y: nat)
    requires cohorts != [] && x < y < |cohorts[0]| && cohorts[0][x] == cohorts[0][y]
    ensures !NoSessionTwice(cohorts)
  {
    assert cohorts[0][x].sessionId == cohorts[0][y].sessionId;
  }

  lemma SameFirst(q: Request, allocation: map<string, int>, picked: map<string, seq<Row>>, i: nat, j: nat)
    returns (x: nat, y: nat)
    requires i < j < |q.frameworks| && forall k :: 0 <= k < |q.frameworks| ==> q.frameworks[k] in allocation
    requires forall f :: f in allocation ==> allocation[f] >= 1
    requires q.frameworks[i] == q.frameworks[j] && Lookup(picked, q.frameworks[i]) != []
    ensures var all := CohortOf(q, allocation, picked, 0, |q.frameworks|);
            x < y < |all| && all[x] == all[y]
  {
    hide CohortOf;
    FirstOfWindow(q, allocation, picked, i);
    FirstOfWindow(q, allocation, picked, j);
    CohortGrows(q, allocation, picked, 0, i + 1, j);
    x, y := |CohortOf(q, allocation, picked, 0, i)|, |CohortOf(q, allocation, picked, 0, j)|;
  }

  lemma ProductAtLeastOne(a: int, b: int)
    requires a >= 1 && b >= 1
    ensures a * b >= 1
  {
  }

  /**
    The exact condition: on every input that succeeds, no session id occurs twice in the output if and only if the
    framework names are distinct. Repetitions in the dataset and in the cohort names play no role.
   */
  lemma DisjointIffDistinctFrameworks(q: Request, rows: seq<Row>)
    requires BuildCohortsSpec(q, rows).Ok?
    ensures NoSessionTwice(BuildCohortsSpec(q, rows).value) <==> Distinct(q.frameworks)
  {
    var cohorts: seq<seq<Row>> := BuildCohortsSpec(q, rows).value;
    assert |cohorts| == |q.cohorts| by {
      hide ScanAll, CohortOf;
    }
    hide BuildCohortsSpec;
    if Distinct(q.frameworks) {
      forall c: nat, d: nat, i: nat, j: nat |
        c < |cohorts| && d < |cohorts| && i < |cohorts[c]| && j < |cohorts[d]|
                          && cohorts[c][i].sessionId == cohorts[d][j].sessionId
        ensures c == d && i == j
      {
        CohortsAreDisjoint(q, rows, c, d, i, j);
      }
    } else {
      var i, j :| 0 <= i < j < |q.frameworks| && q.frameworks[i] == q.frameworks[j];
      RepeatedNameRepeatsSession(q, rows, i, j);
    }
  }

  /** For example, one session serves twice when its framework is named twice. */
  lemma RepeatedFrameworkRepeatsSessions()
    ensures var q := Request(["c"], ["f", "f"], 1, 1, None);
            var row := Row("s", "f", Some(1));
            BuildCohortsSpec(q, [row]) == Ok([[row, row]])
  {
    var q, row := Request(["c"], ["f", "f"], 1, 1, None), Row("s", "f", Some(1));
    var caps: Caps := map["f" := 1];
    assert Allocation(q, 1) == caps && Allocation(q, 2) == caps;
    assert Required(q, caps) == caps;
    assert ArgumentsOk(q) && EnoughSessions(q);
    assert q.frameworks[..2] == q.frameworks;
    var s := ScanOneRow(caps, row);
    OneRowTwice(q, caps, s.picked, row);
    hide ScanAll, CohortOf, ShortFramework, Allocation, Required;
    assert BuildCohortsSpec(q, [row]).Ok?;
    assert BuildCohortsSpec(q, [row]).value == [CohortOf(q, caps, s.picked, 0, 2)];
  }

  lemma OneRowTwice(q: Request, caps: Caps, picked: map<string, seq<Row>>, row: Row)
    requires q.frameworks == [row.framework, row.framework] && caps == map[row.framework := 1]
    requires Lookup(picked, row.framework) == [row]
    ensures CohortOf(q, caps, picked, 0, 2) == [row, row] && ShortFramework(q, caps, picked, 2) == None
  {
    assert Window([row], 0, 1) == [row];
    assert CohortOf(q, caps, picked, 0, 1) == [] + [row];
    assert CohortOf(q, caps, picked, 0, 2) == [row] + [row];
    assert ShortFramework(q, caps, picked, 1) == None;
  }

  lemma ScanOneRow(caps: Caps, row: Row) returns (s: Scan)
    requires caps == map[row.framework := 1] && row.turns == Some(1)
    ensures ScanAll(caps, 1, [row]) == Ok(s)
    ensures Lookup(s.picked, row.framework) == [row]
  {
    var none: map<string, seq<Row>> := map[];
    s := Scan({} + {row.sessionId}, none[row.framework := Lookup(none, row.framework) + [row]]);
    assert [row][..0] == [];
    assert ScanAll(caps, 1, []) == Ok(Scan({}, none));
    assert Step(caps, 1, Scan({}, none), row) == Ok(s);
  }
}
