/**
 * The three record kinds of a DAGMan node-status file (`DagStatus`, `NodeStatus`,
 * `StatusEnd` in `DAGstatus.py`), the conversions their constructors apply to the raw
 * field texts, and the derived count `job_procs_running`.
 */
module Records {
  import opened PyStrings
  import opened Results
  import opened Tokenizer

  // ---------------------------------------------------------------------------
  // int()

  predicate IsDigit(ch: char) {
    '0' <= ch <= '9'
  }

  predicate AllDigits(s: string) {
    forall i :: 0 <= i < |s| ==> IsDigit(s[i])
  }

  /** The number a string of decimal digits denotes. */
  function DigitsValue(ds: string): nat
    requires AllDigits(ds)
  {
    if ds == [] then 0
    else DigitsValue(ds[..|ds| - 1]) * 10 + (ds[|ds| - 1] as int - '0' as int)
  }

  /** The digits after an optional leading sign. */
  function Unsigned(t: string): string {
    if |t| > 0 && (t[0] == '+' || t[0] == '-') then t[1..] else t
  }

  /** What `int()` accepts once surrounding whitespace is gone: an optional sign
      followed by at least one decimal digit. */
  predicate IsIntLiteral(t: string) {
    Unsigned(t) != [] && AllDigits(Unsigned(t))
  }

  /** `int(s)` on a string, in base 10: whitespace around the literal is ignored,
      anything else that is not a literal raises ValueError. */
  function ParseInt(s: string): (r: Result<int>)
    ensures r.Ok? <==> IsIntLiteral(Strip(s))
    ensures r.Err? ==> r.error == NotAnInteger(s)
  {
    var t := Strip(s);
    var ds := Unsigned(t);
    if ds != [] && AllDigits(ds) then
      var magnitude: int := DigitsValue(ds);
      Ok(if t[0] == '-' then -magnitude else magnitude)
    else
      Err(NotAnInteger(s))
  }

  function DigitChar(d: nat): (ch: char)
    requires d < 10
    ensures IsDigit(ch) && ch as int - '0' as int == d
  {
    ('0' as int + d) as char
  }

  /** The decimal digits of `n`, most significant first. */
  function NatDigits(n: nat): (ds: string)
    ensures ds != [] && AllDigits(ds)
  {
    if n < 10 then [DigitChar(n)] else NatDigits(n / 10) + [DigitChar(n % 10)]
  }

  /** `str(n)` for an integer. */
  function FormatInt(n: int): string {
    if n < 0 then "-" + NatDigits(-n) else NatDigits(n)
  }

  lemma {:induction false} DigitsValueNatDigits(n: nat)
    ensures DigitsValue(NatDigits(n)) == n
  {
    var ds := NatDigits(n);
    if n >= 10 {
      assert ds[..|ds| - 1] == NatDigits(n / 10);
      DigitsValueNatDigits(n / 10);
    }
  }

  /** `int(str(n)) == n` */
  lemma ParseFormatIntBare(n: int)
    ensures ParseInt(FormatInt(n)) == Ok(n)
  {
    var f := FormatInt(n);
    var m: nat := if n < 0 then -n else n;
    assert f[0] == '-' || IsDigit(f[0]);
    assert IsDigit(f[|f| - 1]);
    StrippedFixed(f);
    assert Unsigned(f) == NatDigits(m) by {
      if n < 0 {
        assert f[1..] == NatDigits(m);
      }
    }
    DigitsValueNatDigits(m);
  }

  /** Whitespace around a literal does not change what `int()` makes of it. */
  lemma ParseIntPadded(lead: string, s: string, trail: string)
    requires AllSpace(lead) && AllSpace(trail)
    ensures ParseInt(lead + s + trail).Ok? == ParseInt(s).Ok?
    ensures ParseInt(s).Ok? ==> ParseInt(lead + s + trail).value == ParseInt(s).value
  {
    assert lead + s + trail == lead + (s + trail);
    StripLeadingSpaces(lead, s + trail);
    StripTrailingSpaces(s, trail);
  }

  /** `int(str(n)) == n`, also with whitespace around the digits. */
  lemma ParseFormatInt(n: int, lead: string, trail: string)
    requires AllSpace(lead) && AllSpace(trail)
    ensures ParseInt(lead + FormatInt(n) + trail) == Ok(n)
  {
    ParseFormatIntBare(n);
    ParseIntPadded(lead, FormatInt(n), trail);
  }

  // ---------------------------------------------------------------------------
  // The records

  /** One job node of the DAG (`NodeStatus`, lines 121-136). */
  datatype NodeStatus = NodeStatus(
    node: string,
    nodeStatus: string,
    statusDetails: string,
    retryCount: int,
    jobProcsQueued: int,
    jobProcsHeld: int)

  /** The DAG as a whole (`DagStatus`, lines 76-108); `nodeStatuses` is attached after
      the whole file has been read. */
  datatype DagStatus = DagStatus(
    timestamp: string,
    dagStatus: string,
    nodesTotal: int,
    nodesDone: int,
    nodesPre: int,
    nodesQueued: int,
    nodesPost: int,
    nodesReady: int,
    nodesUnready: int,
    nodesFailed: int,
    jobProcsHeld: int,
    jobProcsIdle: int,
    nodeStatuses: seq<NodeStatus>)

  /** When the report was written and when the next one is due (`StatusEnd`, lines 139-146). */
  datatype StatusEnd = StatusEnd(endTime: string, nextUpdate: string)

  /** The ten count texts of a `DagStatus` block, in the order the constructor converts them. */
  datatype DagCounts = DagCounts(
    nodesTotal: string,
    nodesDone: string,
    nodesPre: string,
    nodesQueued: string,
    nodesPost: string,
    nodesReady: string,
    nodesUnready: string,
    nodesFailed: string,
    jobProcsHeld: string,
    jobProcsIdle: string)

  predicate CountsAreInts(c: DagCounts) {
    && ParseInt(c.nodesTotal).Ok? && ParseInt(c.nodesDone).Ok? && ParseInt(c.nodesPre).Ok?
    && ParseInt(c.nodesQueued).Ok? && ParseInt(c.nodesPost).Ok? && ParseInt(c.nodesReady).Ok?
    && ParseInt(c.nodesUnready).Ok? && ParseInt(c.nodesFailed).Ok?
    && ParseInt(c.jobProcsHeld).Ok? && ParseInt(c.jobProcsIdle).Ok?
  }

  /**
   * The least magnitude a Python long cannot be converted to a float at: `float(n)` rounds
   * to the nearest double (ties to even), and from 2^1024 - 2^970 on, halfway between the
   * largest double and 2^1024, it rounds up to 2^1024 and raises OverflowError.
   */
  const FloatBound: int := Pow2(1024) - Pow2(970)

  function Pow2(n: nat): (p: nat)
    ensures p >= 1
  {
    if n == 0 then 1 else 2 * Pow2(n - 1)
  }

  /** `float(n)` succeeds. */
  predicate FitsFloat(n: int) {
    -FloatBound < n < FloatBound
  }

  /** What `100. * nodes_done / nodes_total` needs of the two counts it converts. */
  predicate PercentDefined(done: int, total: int) {
    FitsFloat(done) && FitsFloat(total) && total != 0
  }

  /** The ten counts are integers and the done percentage can be computed from them. */
  predicate CountsUsable(c: DagCounts) {
    CountsAreInts(c) && PercentDefined(ParseInt(c.nodesDone).value, ParseInt(c.nodesTotal).value)
  }

  /**
   * The `DagStatus` constructor: quotes are stripped from the status, `int()` is applied
   * to every count in turn (the first that is not an integer raises ValueError), and
   * `nodes_done_percent` computes `100. * nodes_done / nodes_total`. That converts
   * `nodes_done`, then `nodes_total`, to a float (OverflowError when either is too large),
   * then divides (ZeroDivisionError on a total of 0). The node list starts empty.
   */
  function NewDagStatus(timestamp: string, dagStatus: string, c: DagCounts): (r: Result<DagStatus>)
    ensures !CountsAreInts(c) ==> r.Err? && r.error.NotAnInteger?
    ensures r.Ok? <==> CountsUsable(c)
    ensures r == Err(FloatOverflow) <==>
              CountsAreInts(c)
              && !(FitsFloat(ParseInt(c.nodesDone).value) && FitsFloat(ParseInt(c.nodesTotal).value))
    ensures r == Err(ZeroNodesTotal) <==>
              CountsAreInts(c)
              && FitsFloat(ParseInt(c.nodesDone).value) && FitsFloat(ParseInt(c.nodesTotal).value)
              && ParseInt(c.nodesTotal).value == 0
    ensures r.Ok? ==> && PercentDefined(r.value.nodesDone, r.value.nodesTotal)
                      && r.value.nodeStatuses == []
                      && r.value.timestamp == timestamp && '"' !in r.value.dagStatus
  {
    var total :- ParseInt(c.nodesTotal);
    var done :- ParseInt(c.nodesDone);
    var pre :- ParseInt(c.nodesPre);
    var queued :- ParseInt(c.nodesQueued);
    var post :- ParseInt(c.nodesPost);
    var ready :- ParseInt(c.nodesReady);
    var unready :- ParseInt(c.nodesUnready);
    var failed :- ParseInt(c.nodesFailed);
    var held :- ParseInt(c.jobProcsHeld);
    var idle :- ParseInt(c.jobProcsIdle);
    if !FitsFloat(done) || !FitsFloat(total) then
      Err(FloatOverflow)
    else if total == 0 then
      Err(ZeroNodesTotal)
    else
      Ok(DagStatus(timestamp, StripDoubleQuotes(dagStatus), total, done, pre, queued, post,
                   ready, unready, failed, held, idle, []))
  }

  /** The `NodeStatus` constructor: quotes stripped from the three strings, `int()` on the
      retry count and the two job counts. */
  function NewNodeStatus(node: string, nodeStatus: string, statusDetails: string,
                         retryCount: string, jobProcsQueued: string, jobProcsHeld: string)
    : (r: Result<NodeStatus>)
    ensures r.Ok? <==> ParseInt(retryCount).Ok? && ParseInt(jobProcsQueued).Ok? && ParseInt(jobProcsHeld).Ok?
    ensures r.Ok? ==> '"' !in r.value.node && '"' !in r.value.nodeStatus && '"' !in r.value.statusDetails
  {
    var retries :- ParseInt(retryCount);
    var queued :- ParseInt(jobProcsQueued);
    var held :- ParseInt(jobProcsHeld);
    Ok(NodeStatus(StripDoubleQuotes(node), StripDoubleQuotes(nodeStatus),
                  StripDoubleQuotes(statusDetails), retries, queued, held))
  }

  /** The `StatusEnd` constructor: quotes stripped from both times. */
  function NewStatusEnd(endTime: string, nextUpdate: string): (r: StatusEnd)
    ensures '"' !in r.endTime && '"' !in r.nextUpdate
  {
    StatusEnd(StripDoubleQuotes(endTime), StripDoubleQuotes(nextUpdate))
  }

  /** An end marker whose fields hold no `"` comes back from its own fields. */
  lemma NewStatusEndOfFields(e: StatusEnd)
    requires '"' !in e.endTime && '"' !in e.nextUpdate
    ensures NewStatusEnd(e.endTime, e.nextUpdate) == e
  {
    StripDoubleQuotesLaws(e.endTime, "");
    StripDoubleQuotesLaws(e.nextUpdate, "");
  }

  // ---------------------------------------------------------------------------
  // Writing records back as field texts: the constructors invert this

  function CountsOf(d: DagStatus): DagCounts {
    DagCounts(FormatInt(d.nodesTotal), FormatInt(d.nodesDone), FormatInt(d.nodesPre),
              FormatInt(d.nodesQueued), FormatInt(d.nodesPost), FormatInt(d.nodesReady),
              FormatInt(d.nodesUnready), FormatInt(d.nodesFailed), FormatInt(d.jobProcsHeld),
              FormatInt(d.jobProcsIdle))
  }

  /** A `DagStatus` whose done percentage is defined and whose status is quote-free comes
      back from its own field texts. */
  lemma NewDagStatusOfCounts(d: DagStatus)
    requires PercentDefined(d.nodesDone, d.nodesTotal) && '"' !in d.dagStatus && d.nodeStatuses == []
    ensures NewDagStatus(d.timestamp, d.dagStatus, CountsOf(d)) == Ok(d)
  {
    ParseFormatIntBare(d.nodesTotal);
    ParseFormatIntBare(d.nodesDone);
    ParseFormatIntBare(d.nodesPre);
    ParseFormatIntBare(d.nodesQueued);
    ParseFormatIntBare(d.nodesPost);
    ParseFormatIntBare(d.nodesReady);
    ParseFormatIntBare(d.nodesUnready);
    ParseFormatIntBare(d.nodesFailed);
    ParseFormatIntBare(d.jobProcsHeld);
    ParseFormatIntBare(d.jobProcsIdle);
    StripDoubleQuotesLaws(d.dagStatus, "");
  }

  /** A `NodeStatus` with quote-free strings comes back from its own field texts. */
  lemma NewNodeStatusOfFields(n: NodeStatus)
    requires '"' !in n.node && '"' !in n.nodeStatus && '"' !in n.statusDetails
    ensures NewNodeStatus(n.node, n.nodeStatus, n.statusDetails, FormatInt(n.retryCount),
                          FormatInt(n.jobProcsQueued), FormatInt(n.jobProcsHeld)) == Ok(n)
  {
    ParseFormatIntBare(n.retryCount);
    ParseFormatIntBare(n.jobProcsQueued);
    ParseFormatIntBare(n.jobProcsHeld);
    StripDoubleQuotesLaws(n.node, "");
    StripDoubleQuotesLaws(n.nodeStatus, "");
    StripDoubleQuotesLaws(n.statusDetails, "");
  }

  // ---------------------------------------------------------------------------
  // job_procs_running

  /** A node counted as running: submitted and not idle. */
  predicate IsRunning(n: NodeStatus) {
    n.nodeStatus == "STATUS_SUBMITTED" && n.statusDetails == "not_idle"
  }

  /** `len([n for n in nodes if <running>])` */
  function CountRunning(nodes: seq<NodeStatus>): (k: nat)
    ensures k <= |nodes|
  {
    if nodes == [] then 0
    else CountRunning(nodes[..|nodes| - 1]) + (if IsRunning(nodes[|nodes| - 1]) then 1 else 0)
  }

  /** `DagStatus.job_procs_running` */
  function JobProcsRunning(d: DagStatus): (k: nat)
    ensures k <= |d.nodeStatuses|
  {
    CountRunning(d.nodeStatuses)
  }

  /** The positions of the running nodes. */
  function RunningIndices(nodes: seq<NodeStatus>): set<int> {
    set i | 0 <= i < |nodes| && IsRunning(nodes[i])
  }

  /** The running count is the number of positions holding a running node. */
  lemma {:induction false} CountRunningIsSize(nodes: seq<NodeStatus>)
    ensures CountRunning(nodes) == |RunningIndices(nodes)|
  {
    if nodes != [] {
      var n := |nodes| - 1;
      var prefix := nodes[..n];
      CountRunningIsSize(prefix);
      var before := RunningIndices(prefix);
      assert before == set i | 0 <= i < n && IsRunning(nodes[i]);
      if IsRunning(nodes[n]) {
        assert RunningIndices(nodes) == before + {n};
        assert n !in before;
      } else {
        assert RunningIndices(nodes) == before;
      }
    }
  }

  /** Counting over a concatenation adds the counts. */
  lemma {:induction false} CountRunningConcat(a: seq<NodeStatus>, b: seq<NodeStatus>)
    ensures CountRunning(a + b) == CountRunning(a) + CountRunning(b)
    decreases |b|
  {
    if b == [] {
      assert a + b == a;
    } else {
      var c := a + b;
      assert c[..|c| - 1] == a + b[..|b| - 1];
      assert c[|c| - 1] == b[|b| - 1];
      CountRunningConcat(a, b[..|b| - 1]);
    }
  }

  /** Every node is running exactly when the count reaches the list's length. */
  lemma {:induction false} CountRunningAll(nodes: seq<NodeStatus>)
    ensures CountRunning(nodes) == |nodes| <==> forall i :: 0 <= i < |nodes| ==> IsRunning(nodes[i])
  {
    if nodes != [] {
      var n := |nodes| - 1;
      CountRunningAll(nodes[..n]);
      assert forall i :: 0 <= i < n ==> nodes[..n][i] == nodes[i];
    }
  }
}
