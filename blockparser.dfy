/**
 * The block parser of `process` in `DAGstatus.py` (lines 170-222): a loop over the
 * lines of a DAGMan node-status file that collects tokenized body lines into a
 * dictionary while a `store_contents` flag is set, and on each `]` line turns the
 * dictionary into a `DagStatus`, `NodeStatus` or `StatusEnd` record according to its
 * `Type` field.
 *
 * `Step`, `Run` and `Parse` say what the loop computes; `Process` is the loop itself.
 */
module BlockParser {
  import opened PyStrings
  import opened Results
  import opened Tokenizer
  import opened Records

  // ---------------------------------------------------------------------------
  // Line classes, tested in the order the loop tests them

  /** `line.startswith("[") or "}" in line`: start (or resume) storing. */
  predicate OpensBody(line: string) {
    StartsWith(line, "[") || '}' in line
  }

  /** `line.startswith("]")`: the block is complete. */
  predicate ClosesBlock(line: string) {
    StartsWith(line, "]")
  }

  /** `"{" in line`: stop storing until the matching `}`. */
  predicate PausesBody(line: string) {
    '{' in line
  }

  /** A line that none of the three boundary tests matches. */
  predicate IsBodyLine(line: string) {
    !OpensBody(line) && !ClosesBlock(line) && !PausesBody(line)
  }

  /** A line the loop treats as a block close (it is not taken by the first test). */
  predicate IsCloseLine(line: string) {
    !OpensBody(line) && ClosesBlock(line)
  }

  // ---------------------------------------------------------------------------
  // Building a record from the collected fields

  /** `contents[key]` */
  function Lookup(contents: map<string, Line>, key: string): Result<Line> {
    if key in contents then Ok(contents[key]) else Err(MissingKey(key))
  }

  /** The record a completed block stands for. */
  datatype Block =
    | DagBlock(dag: DagStatus)
    | NodeBlock(node: NodeStatus)
    | EndBlock(statusEnd: StatusEnd)

  /** Every one of `keys` is in the dictionary. */
  predicate Present(contents: map<string, Line>, keys: seq<string>) {
    forall i :: 0 <= i < |keys| ==> keys[i] in contents
  }

  /** The position of the first of `keys` the dictionary lacks. */
  function FirstAbsent(contents: map<string, Line>, keys: seq<string>): (i: nat)
    requires !Present(contents, keys)
    ensures i < |keys| && keys[i] !in contents
    ensures forall j :: 0 <= j < i ==> keys[j] in contents
    decreases |keys|
  {
    if keys[0] !in contents then
      0
    else
      assert !Present(contents, keys[1..]) by {
        var k :| 0 <= k < |keys| && keys[k] !in contents;
        assert keys[1..][k - 1] == keys[k];
      }
      1 + FirstAbsent(contents, keys[1..])
  }

  /** `contents[k]` for each of `keys` in turn; the first missing key raises KeyError. */
  function LookupAll(contents: map<string, Line>, keys: seq<string>): (r: Result<seq<Line>>)
    ensures r.Ok? <==> Present(contents, keys)
    ensures r.Ok? ==> |r.value| == |keys|
                      && forall i :: 0 <= i < |keys| ==> r.value[i] == contents[keys[i]]
    ensures r.Err? ==> r.error == MissingKey(keys[FirstAbsent(contents, keys)])
    decreases |keys|
  {
    if keys == [] then
      Ok([])
    else
      var l :- Lookup(contents, keys[0]);
      var ls :- LookupAll(contents, keys[1..]);
      Ok([l] + ls)
  }

  /** The keys the `DagStatus` call looks up, in argument order (lines 185-196). */
  const DagKeys: seq<string> :=
    ["Timestamp", "DagStatus", "NodesTotal", "NodesDone", "NodesPre", "NodesQueued",
     "NodesPost", "NodesReady", "NodesUnready", "NodesFailed", "JobProcsHeld", "JobProcsIdle"]

  /** The keys the `NodeStatus` call looks up, in argument order (lines 198-203). */
  const NodeKeys: seq<string> :=
    ["Node", "NodeStatus", "StatusDetails", "RetryCount", "JobProcsQueued", "JobProcsHeld"]

  /** The keys the `StatusEnd` call looks up, in argument order (lines 206-207). */
  const EndKeys: seq<string> := ["EndTime", "NextUpdate"]

  /** The block has every key the `DagStatus` call looks up. */
  predicate HasDagKeys(contents: map<string, Line>): (b: bool)
    ensures b <==> && "Timestamp" in contents && "DagStatus" in contents
                   && "NodesTotal" in contents && "NodesDone" in contents
                   && "NodesPre" in contents && "NodesQueued" in contents
                   && "NodesPost" in contents && "NodesReady" in contents
                   && "NodesUnready" in contents && "NodesFailed" in contents
                   && "JobProcsHeld" in contents && "JobProcsIdle" in contents
  {
    assert DagKeys[0] == "Timestamp" && DagKeys[1] == "DagStatus" && DagKeys[2] == "NodesTotal"
           && DagKeys[3] == "NodesDone" && DagKeys[4] == "NodesPre" && DagKeys[5] == "NodesQueued"
           && DagKeys[6] == "NodesPost" && DagKeys[7] == "NodesReady" && DagKeys[8] == "NodesUnready"
           && DagKeys[9] == "NodesFailed" && DagKeys[10] == "JobProcsHeld" && DagKeys[11] == "JobProcsIdle";
    Present(contents, DagKeys)
  }

  /** The block has every key the `NodeStatus` call looks up. */
  predicate HasNodeKeys(contents: map<string, Line>): (b: bool)
    ensures b <==> && "Node" in contents && "NodeStatus" in contents
                   && "StatusDetails" in contents && "RetryCount" in contents
                   && "JobProcsQueued" in contents && "JobProcsHeld" in contents
  {
    assert NodeKeys[0] == "Node" && NodeKeys[1] == "NodeStatus" && NodeKeys[2] == "StatusDetails"
           && NodeKeys[3] == "RetryCount" && NodeKeys[4] == "JobProcsQueued" && NodeKeys[5] == "JobProcsHeld";
    Present(contents, NodeKeys)
  }

  /** The block has every key the `StatusEnd` call looks up. */
  predicate HasEndKeys(contents: map<string, Line>): (b: bool)
    ensures b <==> "EndTime" in contents && "NextUpdate" in contents
  {
    assert EndKeys[0] == "EndTime" && EndKeys[1] == "NextUpdate";
    Present(contents, EndKeys)
  }

  /** The ten count texts of a `DagStatus` block: the values of its count lines. */
  function DagCountsIn(contents: map<string, Line>): DagCounts
    requires HasDagKeys(contents)
  {
    DagCounts(contents["NodesTotal"].value, contents["NodesDone"].value,
              contents["NodesPre"].value, contents["NodesQueued"].value,
              contents["NodesPost"].value, contents["NodesReady"].value,
              contents["NodesUnready"].value, contents["NodesFailed"].value,
              contents["JobProcsHeld"].value, contents["JobProcsIdle"].value)
  }

  /**
   * Lines 185-196: every field is looked up (in argument order) before any is converted;
   * the timestamp and the status come from the comments of their lines, the counts from
   * the values.
   */
  function DagStatusOf(contents: map<string, Line>): (r: Result<DagStatus>)
    ensures !HasDagKeys(contents) ==> r == Err(MissingKey(DagKeys[FirstAbsent(contents, DagKeys)]))
    ensures HasDagKeys(contents) ==>
              r == NewDagStatus(contents["Timestamp"].comment, contents["DagStatus"].comment,
                                DagCountsIn(contents))
  {
    var f :- LookupAll(contents, DagKeys);
    NewDagStatus(f[0].comment, f[1].comment,
                 DagCounts(f[2].value, f[3].value, f[4].value, f[5].value, f[6].value,
                           f[7].value, f[8].value, f[9].value, f[10].value, f[11].value))
  }

  /** Lines 198-203; the node's status comes from the comment of its `NodeStatus` line. */
  function NodeStatusOf(contents: map<string, Line>): (r: Result<NodeStatus>)
    ensures !HasNodeKeys(contents) ==> r == Err(MissingKey(NodeKeys[FirstAbsent(contents, NodeKeys)]))
    ensures HasNodeKeys(contents) ==>
              r == NewNodeStatus(contents["Node"].value, contents["NodeStatus"].comment,
                                 contents["StatusDetails"].value, contents["RetryCount"].value,
                                 contents["JobProcsQueued"].value, contents["JobProcsHeld"].value)
  {
    var f :- LookupAll(contents, NodeKeys);
    NewNodeStatus(f[0].value, f[1].comment, f[2].value, f[3].value, f[4].value, f[5].value)
  }

  /** Lines 206-207: both times come from comments. */
  function StatusEndOf(contents: map<string, Line>): (r: Result<StatusEnd>)
    ensures !HasEndKeys(contents) ==> r == Err(MissingKey(EndKeys[FirstAbsent(contents, EndKeys)]))
    ensures HasEndKeys(contents) ==>
              r == Ok(NewStatusEnd(contents["EndTime"].comment, contents["NextUpdate"].comment))
  {
    var f :- LookupAll(contents, EndKeys);
    Ok(NewStatusEnd(f[0].comment, f[1].comment))
  }

  /**
   * The dispatch on `contents['Type'].value` (lines 184-211): a block without `Type`
   * fails with a missing key, a `Type` other than the three record kinds fails as an
   * unknown block type, and otherwise the record of that kind is built: it fails on the
   * first of its keys the block lacks, and with all of them present its constructor
   * decides.
   */
  function Classify(contents: map<string, Line>): (r: Result<Block>)
    ensures "Type" !in contents ==> r == Err(MissingKey("Type"))
    ensures "Type" in contents && contents["Type"].value !in {"DagStatus", "NodeStatus", "StatusEnd"}
            ==> r == Err(UnknownBlockType(contents["Type"].value))
    ensures "Type" in contents && contents["Type"].value == "DagStatus" ==>
              && (!HasDagKeys(contents) ==> r == Err(MissingKey(DagKeys[FirstAbsent(contents, DagKeys)])))
              && (HasDagKeys(contents) ==>
                    (r.Ok? <==> CountsUsable(DagCountsIn(contents))) && (r.Ok? ==> r.value.DagBlock?))
    ensures "Type" in contents && contents["Type"].value == "NodeStatus" ==>
              && (!HasNodeKeys(contents) ==> r == Err(MissingKey(NodeKeys[FirstAbsent(contents, NodeKeys)])))
              && (HasNodeKeys(contents) ==>
                    && (r.Ok? <==> && ParseInt(contents["RetryCount"].value).Ok?
                                   && ParseInt(contents["JobProcsQueued"].value).Ok?
                                   && ParseInt(contents["JobProcsHeld"].value).Ok?)
                    && (r.Ok? ==> r.value.NodeBlock?))
    ensures "Type" in contents && contents["Type"].value == "StatusEnd" ==>
              && (!HasEndKeys(contents) ==> r == Err(MissingKey(EndKeys[FirstAbsent(contents, EndKeys)])))
              && (HasEndKeys(contents) ==> r.Ok? && r.value.EndBlock?)
    ensures "Type" in contents && contents["Type"].value == "DagStatus" && r.Err? ==>
              DagStatusOf(contents) == Err(r.error)
    ensures "Type" in contents && contents["Type"].value == "NodeStatus" && r.Err? ==>
              NodeStatusOf(contents) == Err(r.error)
    ensures r.Ok? ==> "Type" in contents
    ensures r.Ok? && r.value.DagBlock? ==> DagStatusOf(contents) == Ok(r.value.dag)
    ensures r.Ok? && r.value.NodeBlock? ==> NodeStatusOf(contents) == Ok(r.value.node)
    ensures r.Ok? && r.value.EndBlock? ==> StatusEndOf(contents) == Ok(r.value.statusEnd)
    ensures r.Ok? && r.value.DagBlock? ==> contents["Type"].value == "DagStatus"
    ensures r.Ok? && r.value.NodeBlock? ==> contents["Type"].value == "NodeStatus"
    ensures r.Ok? && r.value.EndBlock? ==> contents["Type"].value == "StatusEnd"
  {
    var t :- Lookup(contents, "Type");
    if t.value == "DagStatus" then
      var d :- DagStatusOf(contents);
      Ok(DagBlock(d))
    else if t.value == "NodeStatus" then
      var n :- NodeStatusOf(contents);
      Ok(NodeBlock(n))
    else if t.value == "StatusEnd" then
      var e :- StatusEndOf(contents);
      Ok(EndBlock(e))
    else
      Err(UnknownBlockType(t.value))
  }

  // ---------------------------------------------------------------------------
  // The loop, as a state machine

  /** The variables the loop updates. */
  datatype State = State(
    contents: map<string, Line>,
    storeContents: bool,
    dagStatus: Option<DagStatus>,
    nodeStatuses: seq<NodeStatus>,
    statusEnd: Option<StatusEnd>)

  /** Before the first line (lines 170-176). */
  const Start: State := State(map[], false, None, [], None)

  /**
   * What a completed block does to the state (lines 185-213): a `DagStatus` or
   * `StatusEnd` record replaces the previous one, a `NodeStatus` record is appended;
   * then the collected fields are discarded and storing stops.
   */
  function Record(st: State, b: Block): (r: State)
    ensures r.contents == map[] && !r.storeContents
    ensures r.nodeStatuses == st.nodeStatuses + (if b.NodeBlock? then [b.node] else [])
    ensures r.dagStatus == (if b.DagBlock? then Some(b.dag) else st.dagStatus)
    ensures r.statusEnd == (if b.EndBlock? then Some(b.statusEnd) else st.statusEnd)
  {
    var st' := match b
      case DagBlock(d) => st.(dagStatus := Some(d))
      case NodeBlock(n) => st.(nodeStatuses := st.nodeStatuses + [n])
      case EndBlock(e) => st.(statusEnd := Some(e));
    st'.(contents := map[], storeContents := false)
  }

  /**
   * One iteration of the loop (lines 178-221). Storing is on after it exactly when the
   * line resumes storing, or is a plain line seen while storing; only a close line can
   * change the records.
   */
  function Step(st: State, line: string): (r: Result<State>)
    ensures r.Ok? ==>
              r.value.storeContents == (OpensBody(line) || (IsBodyLine(line) && st.storeContents))
    ensures r.Ok? && !IsCloseLine(line) ==>
              && r.value.dagStatus == st.dagStatus && r.value.nodeStatuses == st.nodeStatuses
              && r.value.statusEnd == st.statusEnd
    ensures r.Err? && !IsCloseLine(line) ==> IsBodyLine(line) && st.storeContents
  {
    if OpensBody(line) then
      Ok(st.(storeContents := true))
    else if ClosesBlock(line) then
      var b :- Classify(st.contents);
      Ok(Record(st, b))
    else if PausesBody(line) then
      Ok(st.(storeContents := false))
    else if st.storeContents then
      var l :- InterpretLine(line);
      Ok(st.(contents := st.contents[l.key := l]))
    else
      Ok(st)
  }

  /** The loop over the remaining lines; the first exception ends it. */
  function Run(st: State, lines: seq<string>): Result<State>
    decreases |lines|
  {
    if lines == [] then
      Ok(st)
    else
      var next :- Step(st, lines[0]);
      Run(next, lines[1..])
  }

  /** What `process` hands to the table printer. */
  datatype Report = Report(
    dagStatus: DagStatus,
    nodeStatuses: seq<NodeStatus>,
    statusEnd: Option<StatusEnd>)

  /** Line 222: without a `DagStatus` record the attribute assignment fails; otherwise
      the node list is attached to it. */
  function Finish(st: State): (r: Result<Report>)
    ensures r.Err? <==> st.dagStatus.None?
    ensures r.Err? ==> r.error == NoDagStatus
    ensures r.Ok? ==> && r.value.nodeStatuses == st.nodeStatuses
                      && r.value.dagStatus == st.dagStatus.value.(nodeStatuses := st.nodeStatuses)
                      && r.value.statusEnd == st.statusEnd
  {
    match st.dagStatus
    case None => Err(NoDagStatus)
    case Some(d) => Ok(Report(d.(nodeStatuses := st.nodeStatuses), st.nodeStatuses, st.statusEnd))
  }

  /** The parsing half of `process`, from the file's lines to the records. */
  function Parse(lines: seq<string>): Result<Report> {
    var st :- Run(Start, lines);
    Finish(st)
  }

  /**
   * The loop of `process` (lines 170-222) over the file's lines, as Python's file
   * iteration yields them (each with its newline). It computes what `Parse` describes.
   */
  method Process(lines: seq<string>) returns (r: Result<Report>)
    ensures r == Parse(lines)
  {
    var contents: map<string, Line> := map[];
    var storeContents := false;
    var dagStatus: Option<DagStatus> := None;
    var nodeStatuses: seq<NodeStatus> := [];
    var statusEnd: Option<StatusEnd> := None;
    for i := 0 to |lines|
      invariant Run(Start, lines)
                == Run(State(contents, storeContents, dagStatus, nodeStatuses, statusEnd), lines[i..])
    {
      ghost var before := State(contents, storeContents, dagStatus, nodeStatuses, statusEnd);
      assert lines[i..] == [lines[i]] + lines[i + 1..];
      var line := lines[i];
      if StartsWith(line, "[") || '}' in line {
        storeContents := true;
      } else if StartsWith(line, "]") {
        if "Type" !in contents {
          return Err(MissingKey("Type"));
        }
        var typeName := contents["Type"].value;
        if typeName == "DagStatus" {
          var d :- DagStatusOf(contents);
          dagStatus := Some(d);
        } else if typeName == "NodeStatus" {
          var n :- NodeStatusOf(contents);
          nodeStatuses := nodeStatuses + [n];
        } else if typeName == "StatusEnd" {
          var e :- StatusEndOf(contents);
          statusEnd := Some(e);
        } else {
          return Err(UnknownBlockType(typeName));
        }
        contents := map[];
        storeContents := false;
      } else if '{' in line {
        storeContents := false;
      } else if storeContents {
        var parsed :- InterpretLine(line);
        contents := contents[parsed.key := parsed];
      }
      assert Step(before, line)
             == Ok(State(contents, storeContents, dagStatus, nodeStatuses, statusEnd));
    }
    if dagStatus.None? {
      return Err(NoDagStatus);
    }
    var d := dagStatus.value.(nodeStatuses := nodeStatuses);
    r := Ok(Report(d, nodeStatuses, statusEnd));
  }

  // ---------------------------------------------------------------------------
  // Properties of the loop

  /** Running over two pieces of input is running over the first, then the second. */
  lemma {:induction false} RunConcat(st: State, a: seq<string>, b: seq<string>)
    ensures Run(st, a + b) == (var mid :- Run(st, a); Run(mid, b))
    decreases |a|
  {
    if a == [] {
      assert a + b == b;
    } else {
      assert (a + b)[0] == a[0];
      assert (a + b)[1..] == a[1..] + b;
      match Step(st, a[0])
      case Err(_) =>
      case Ok(next) => RunConcat(next, a[1..], b);
    }
  }

  /** A line that leaves storing off: it neither resumes storing nor closes the block
      (it may hold `{`). */
  predicate StaysPaused(line: string) {
    !OpensBody(line) && !ClosesBlock(line)
  }

  /** Lines seen while storing is off, and that neither resume storing nor close the
      block, change nothing. */
  lemma {:induction false} RunSkipsWhileNotStoring(st: State, lines: seq<string>)
    requires !st.storeContents
    requires forall i :: 0 <= i < |lines| ==> StaysPaused(lines[i])
    ensures Run(st, lines) == Ok(st)
    decreases |lines|
  {
    if lines != [] {
      RunSkipsWhileNotStoring(st, lines[1..]);
    }
  }

  /** Tokenize each line in turn and store it under its key, a later line replacing an
      earlier one with the same key; the first malformed line ends it. */
  function Collect(m: map<string, Line>, lines: seq<string>): (r: Result<map<string, Line>>)
    ensures r.Ok? ==> m.Keys <= r.value.Keys
    decreases |lines|
  {
    if lines == [] then
      Ok(m)
    else
      var l :- InterpretLine(lines[0]);
      Collect(m[l.key := l], lines[1..])
  }

  /** While storing is on, body lines are tokenized into the dictionary and nothing else
      changes. */
  lemma {:induction false} RunStoresBody(st: State, lines: seq<string>)
    requires st.storeContents
    requires forall i :: 0 <= i < |lines| ==> IsBodyLine(lines[i])
    ensures Run(st, lines) == (var c :- Collect(st.contents, lines); Ok(st.(contents := c)))
    decreases |lines|
  {
    if lines != [] {
      var line := lines[0];
      assert IsBodyLine(line);
      match InterpretLine(line)
      case Err(e) =>
        assert Step(st, line) == Err(e);
      case Ok(l) =>
        var next := st.(contents := st.contents[l.key := l]);
        assert Step(st, line) == Ok(next);
        var rest := lines[1..];
        assert forall i :: 0 <= i < |rest| ==> IsBodyLine(rest[i]) by {
          forall i | 0 <= i < |rest| ensures IsBodyLine(rest[i]) {
            assert rest[i] == lines[i + 1];
          }
        }
        RunStoresBody(next, rest);
    }
  }

  /** `lines[j]` is a well-formed body line with key `k`. */
  predicate HasKey(lines: seq<string>, j: int, k: string)
    requires 0 <= j < |lines|
  {
    '=' in lines[j] && KeyOf(lines[j]) == k
  }

  /** A line without `=` makes collecting fail. */
  lemma {:induction false} CollectFailsAt(m: map<string, Line>, lines: seq<string>, j: nat)
    requires j < |lines| && '=' !in lines[j]
    ensures Collect(m, lines).Err?
    decreases |lines|
  {
    var line := lines[0];
    InterpretLineFails(line);
    if j > 0 && '=' in line {
      var l := InterpretLine(line).value;
      assert lines[1..][j - 1] == lines[j];
      CollectFailsAt(m[l.key := l], lines[1..], j - 1);
    }
  }

  /** Lines that all hold `=` collect without failing. */
  lemma {:induction false} CollectSucceeds(m: map<string, Line>, lines: seq<string>)
    requires forall j :: 0 <= j < |lines| ==> '=' in lines[j]
    ensures Collect(m, lines).Ok?
    decreases |lines|
  {
    if lines != [] {
      var line := lines[0];
      InterpretLineFails(line);
      var l := InterpretLine(line).value;
      var rest := lines[1..];
      forall j | 0 <= j < |rest|
        ensures '=' in rest[j]
      {
        assert rest[j] == lines[j + 1];
      }
      CollectSucceeds(m[l.key := l], rest);
    }
  }

  /** Collecting fails exactly when some line holds no `=`. */
  lemma CollectFails(m: map<string, Line>, lines: seq<string>)
    ensures Collect(m, lines).Err? <==> exists j :: 0 <= j < |lines| && '=' !in lines[j]
  {
    if j :| 0 <= j < |lines| && '=' !in lines[j] {
      CollectFailsAt(m, lines, j);
    } else {
      CollectSucceeds(m, lines);
    }
  }

  /** A successful collection took its first line under the key `KeyOf` gives. */
  lemma CollectHead(m: map<string, Line>, lines: seq<string>)
    requires lines != [] && Collect(m, lines).Ok?
    ensures '=' in lines[0]
    ensures InterpretLine(lines[0]).Ok? && InterpretLine(lines[0]).value.key == KeyOf(lines[0])
    ensures Collect(m, lines) == Collect(m[KeyOf(lines[0]) := InterpretLine(lines[0]).value], lines[1..])
  {
    InterpretLineFails(lines[0]);
    InterpretLineKey(lines[0]);
  }

  /** A key no line carries keeps its value, or stays absent. */
  lemma {:induction false} CollectKeeps(m: map<string, Line>, lines: seq<string>, k: string)
    requires Collect(m, lines).Ok?
    requires forall j :: 0 <= j < |lines| ==> !HasKey(lines, j, k)
    ensures (k in Collect(m, lines).value) == (k in m)
    ensures k in m ==> Collect(m, lines).value[k] == m[k]
    decreases |lines|
  {
    if lines != [] {
      var rest := lines[1..];
      CollectHead(m, lines);
      var l := InterpretLine(lines[0]).value;
      assert !HasKey(lines, 0, k);
      forall j | 0 <= j < |rest|
        ensures !HasKey(rest, j, k)
      {
        assert rest[j] == lines[j + 1];
        assert !HasKey(lines, j + 1, k);
      }
      CollectKeeps(m[l.key := l], rest, k);
    }
  }

  /** The tail of `lines` after its first line, with `k` on none of its lines. */
  lemma NoKeyInRest(lines: seq<string>, i: nat, k: string)
    requires i < |lines|
    requires forall j :: i < j < |lines| ==> !HasKey(lines, j, k)
    ensures forall j :: i <= j < |lines| - 1 ==> !HasKey(lines[1..], j, k)
  {
    forall j | i <= j < |lines| - 1
      ensures !HasKey(lines[1..], j, k)
    {
      assert lines[1..][j] == lines[j + 1];
      assert !HasKey(lines, j + 1, k);
    }
  }

  /** The lines from `i` on, where only line `i` may carry key `k`. */
  lemma NoKeyAfter(lines: seq<string>, i: nat, k: string)
    requires i < |lines| && HasKey(lines, i, k)
    requires forall j :: i < j < |lines| ==> !HasKey(lines, j, k)
    ensures HasKey(lines[i..], 0, k)
    ensures forall j :: 0 < j < |lines[i..]| ==> !HasKey(lines[i..], j, k)
  {
    var from := lines[i..];
    assert from[0] == lines[i];
    forall j | 0 < j < |from|
      ensures !HasKey(from, j, k)
    {
      assert from[j] == lines[i + j];
      assert !HasKey(lines, i + j, k);
    }
  }

  /** When the first line is the only one with key `k`, it is what `k` holds. */
  lemma CollectOnlyFirst(m: map<string, Line>, lines: seq<string>, k: string)
    requires Collect(m, lines).Ok?
    requires lines != [] && HasKey(lines, 0, k)
    requires forall j :: 0 < j < |lines| ==> !HasKey(lines, j, k)
    ensures k in Collect(m, lines).value
    ensures InterpretLine(lines[0]) == Ok(Collect(m, lines).value[k])
  {
    CollectHead(m, lines);
    var l := InterpretLine(lines[0]).value;
    NoKeyInRest(lines, 0, k);
    CollectKeeps(m[l.key := l], lines[1..], k);
  }

  /** Collecting two pieces of input is collecting the first, then the second. */
  lemma {:induction false} CollectConcat(m: map<string, Line>, a: seq<string>, b: seq<string>)
    ensures Collect(m, a + b) == (var mid :- Collect(m, a); Collect(mid, b))
    decreases |a|
  {
    if a == [] {
      assert a + b == b;
    } else {
      assert (a + b)[0] == a[0];
      assert (a + b)[1..] == a[1..] + b;
      match InterpretLine(a[0])
      case Err(_) =>
      case Ok(l) => CollectConcat(m[l.key := l], a[1..], b);
    }
  }

  /** Last wins: a key ends up holding the last line that carries it. */
  lemma CollectLastWins(m: map<string, Line>, lines: seq<string>, i: nat, k: string)
    requires Collect(m, lines).Ok?
    requires i < |lines| && HasKey(lines, i, k)
    requires forall j :: i < j < |lines| ==> !HasKey(lines, j, k)
    ensures k in Collect(m, lines).value
    ensures InterpretLine(lines[i]) == Ok(Collect(m, lines).value[k])
  {
    var before := lines[..i];
    var from := lines[i..];
    assert lines == before + from;
    CollectConcat(m, before, from);
    var mid := Collect(m, before).value;
    NoKeyAfter(lines, i, k);
    CollectOnlyFirst(mid, from, k);
  }

  /** The number of lines the loop treats as a block close. */
  function CloseCount(lines: seq<string>): (n: nat)
    ensures n <= |lines|
    decreases |lines|
  {
    if lines == [] then 0 else (if IsCloseLine(lines[0]) then 1 else 0) + CloseCount(lines[1..])
  }

  /** How many records a state holds: its nodes, plus one for a DAG status. */
  function RecordCount(st: State): nat {
    |st.nodeStatuses| + (if st.dagStatus.Some? then 1 else 0)
  }

  /** A DAG status in the state came from the constructor: its done percentage is
      defined and it has no nodes attached yet. */
  predicate DagStatusValid(st: State) {
    st.dagStatus.Some? ==>
      PercentDefined(st.dagStatus.value.nodesDone, st.dagStatus.value.nodesTotal)
      && st.dagStatus.value.nodeStatuses == []
  }

  /** One step keeps earlier nodes in place, keeps a DAG status valid, adds at most one
      record, and adds one only on a close line. */
  lemma StepGrows(st: State, line: string)
    requires Step(st, line).Ok?
    ensures var next := Step(st, line).value;
            && st.nodeStatuses <= next.nodeStatuses
            && (DagStatusValid(st) ==> DagStatusValid(next))
            && RecordCount(next) <= RecordCount(st) + (if IsCloseLine(line) then 1 else 0)
  {
    if IsCloseLine(line) {
      var b := Classify(st.contents).value;
      if b.DagBlock? {
        var c := st.contents;
        assert DagStatusOf(c).Ok?;
      }
    }
  }

  /**
   * Over a whole run, the node list only grows at its end (file order is kept), a DAG
   * status stays valid, and each close line adds at most one record.
   */
  lemma {:induction false} RunGrows(st: State, lines: seq<string>)
    requires Run(st, lines).Ok?
    ensures var last := Run(st, lines).value;
            && st.nodeStatuses <= last.nodeStatuses
            && (DagStatusValid(st) ==> DagStatusValid(last))
            && RecordCount(last) <= RecordCount(st) + CloseCount(lines)
    decreases |lines|
  {
    if lines != [] {
      StepGrows(st, lines[0]);
      RunGrows(Step(st, lines[0]).value, lines[1..]);
    }
  }

  /**
   * A successful parse has a DAG status whose done count and total convert to floats and
   * whose total is not zero (so both percentages are defined), carries the node list
   * both in the report and attached to the DAG status, counts at most as many running
   * jobs as there are nodes, and needs a close line for the DAG status and for every
   * node.
   */
  lemma ParseSucceeds(lines: seq<string>)
    requires Parse(lines).Ok?
    ensures var rep := Parse(lines).value;
            && PercentDefined(rep.dagStatus.nodesDone, rep.dagStatus.nodesTotal)
            && rep.dagStatus.nodeStatuses == rep.nodeStatuses
            && JobProcsRunning(rep.dagStatus) <= |rep.nodeStatuses|
            && |rep.nodeStatuses| + 1 <= CloseCount(lines)
  {
    RunGrows(Start, lines);
  }

  /** A file with no close line yields no report: it fails on a malformed line or for
      want of a DAG status. */
  lemma ParseWithoutClose(lines: seq<string>)
    requires CloseCount(lines) == 0
    ensures Parse(lines).Err?
    ensures Parse(lines).error == NoDagStatus || Parse(lines).error.MalformedLine?
  {
    if Run(Start, lines).Ok? {
      RunGrows(Start, lines);
    } else {
      RunFailsOnLine(Start, lines);
    }
  }

  /** Away from a close line, the only exception a step can raise is a malformed line. */
  lemma StepFailsOnLine(st: State, line: string)
    requires !IsCloseLine(line) && Step(st, line).Err?
    ensures Step(st, line).error == MalformedLine(line)
  {
    InterpretLineFails(line);
  }

  /** Without a close line, the only exception a run can raise is a malformed line. */
  lemma {:induction false} RunFailsOnLine(st: State, lines: seq<string>)
    requires CloseCount(lines) == 0 && Run(st, lines).Err?
    ensures Run(st, lines).error.MalformedLine?
    decreases |lines|
  {
    var line := lines[0];
    if Step(st, line).Err? {
      StepFailsOnLine(st, line);
    } else {
      RunFailsOnLine(Step(st, line).value, lines[1..]);
    }
  }

  // ---------------------------------------------------------------------------
  // Whole files, block by block

  /** The line that opens a block, and the line that closes it. */
  const OpenLine: string := "[\n"
  const CloseLine: string := "]\n"

  /**
   * One item of a block's body: a field line, which is stored; a line that resumes
   * storing (it holds `}` or starts with `[`), which changes nothing while storing is
   * on; or a sub-section such as DAGMan's `DagFiles = {` ... `};`, whose first line holds
   * `{` and stops storing, whose inner lines are skipped, and whose last line holds `}`
   * and resumes storing.
   */
  datatype BodyItem =
    | Field(line: string)
    | Resume(line: string)
    | SubSection(open: string, inner: seq<string>, close: string)

  /** The lines of each kind of item are of the classes the loop treats that way. */
  predicate WellFormedItem(item: BodyItem) {
    match item
    case Field(line) => IsBodyLine(line)
    case Resume(line) => OpensBody(line)
    case SubSection(open, inner, close) =>
      && StaysPaused(open) && PausesBody(open)
      && (forall i :: 0 <= i < |inner| ==> StaysPaused(inner[i]))
      && OpensBody(close)
  }

  /** DAGMan's list of DAG files in a `DagStatus` block is a sub-section the loop skips:
      the listed names need only be free of braces and of a leading `[` or `]`. */
  lemma DagFilesSubSection(names: seq<string>)
    requires forall i :: 0 <= i < |names| ==> '{' !in names[i] && '}' !in names[i]
    ensures WellFormedItem(SubSection("  DagFiles = {\n",
                                      seq(|names|, i requires 0 <= i < |names| => "    \"" + names[i] + "\"\n"),
                                      "  };\n"))
  {
    var inner := seq(|names|, i requires 0 <= i < |names| => "    \"" + names[i] + "\"\n");
    forall i | 0 <= i < |inner| ensures StaysPaused(inner[i]) {
      var line := inner[i];
      assert line == "    \"" + names[i] + "\"\n";
      assert line[0] == ' ';
      assert forall k :: 0 <= k < |line| ==> line[k] != '}' by {
        forall k | 0 <= k < |line| ensures line[k] != '}' {
          if 5 <= k < 5 + |names[i]| {
            assert line[k] == names[i][k - 5];
          }
        }
      }
    }
    var open := "  DagFiles = {\n";
    assert open[0] == ' ';
    assert !StartsWith(open, "[") && !StartsWith(open, "]");
    assert '}' !in open;
    assert StaysPaused(open);
    assert forall i :: 0 <= i < |inner| ==> StaysPaused(inner[i]);
    assert '{' in "  DagFiles = {\n" by {
      assert "  DagFiles = {\n"[13] == '{';
    }
    assert '}' in "  };\n" by {
      assert "  };\n"[2] == '}';
    }
  }

  predicate WellFormedBody(body: seq<BodyItem>) {
    forall i :: 0 <= i < |body| ==> WellFormedItem(body[i])
  }

  predicate WellFormedBodies(bodies: seq<seq<BodyItem>>) {
    forall b :: 0 <= b < |bodies| ==> WellFormedBody(bodies[b])
  }

  function ItemLines(item: BodyItem): seq<string> {
    match item
    case Field(line) => [line]
    case Resume(line) => [line]
    case SubSection(open, inner, close) => [open] + inner + [close]
  }

  /** The lines of a body, in order. */
  function BodyLines(body: seq<BodyItem>): seq<string>
    decreases |body|
  {
    if body == [] then [] else ItemLines(body[0]) + BodyLines(body[1..])
  }

  /** The field lines of an item: the lines the loop tokenizes. */
  function ItemFields(item: BodyItem): seq<string> {
    if item.Field? then [item.line] else []
  }

  /** The field lines of a body, in order. */
  function BodyFields(body: seq<BodyItem>): seq<string>
    decreases |body|
  {
    if body == [] then [] else ItemFields(body[0]) + BodyFields(body[1..])
  }

  /** A file made of blocks with the given bodies. */
  function FileOf(bodies: seq<seq<BodyItem>>): seq<string>
    decreases |bodies|
  {
    if bodies == [] then [] else [OpenLine] + BodyLines(bodies[0]) + [CloseLine] + FileOf(bodies[1..])
  }

  /** The record one block's body stands for, built from its own field lines only. */
  function BlockOf(body: seq<BodyItem>): Result<Block> {
    var c :- Collect(map[], BodyFields(body));
    Classify(c)
  }

  /** The records of the blocks in file order; the first failing block ends it. */
  function BlocksOf(bodies: seq<seq<BodyItem>>): Result<seq<Block>>
    decreases |bodies|
  {
    if bodies == [] then
      Ok([])
    else
      var b :- BlockOf(bodies[0]);
      var rest :- BlocksOf(bodies[1..]);
      Ok([b] + rest)
  }

  /** The state after recording each block in turn. */
  function Apply(st: State, blocks: seq<Block>): State
    decreases |blocks|
  {
    if blocks == [] then st else Apply(Record(st, blocks[0]), blocks[1..])
  }

  /** The line that opens a block starts storing. */
  lemma RunOpen(st: State, rest: seq<string>)
    ensures Run(st, [OpenLine] + rest) == Run(st.(storeContents := true), rest)
  {
    assert ([OpenLine] + rest)[0] == OpenLine && ([OpenLine] + rest)[1..] == rest;
    assert StartsWith(OpenLine, "[");
  }

  /** The line that closes a block records what the block's fields stand for. */
  lemma RunClose(st: State, rest: seq<string>)
    ensures Run(st, [CloseLine] + rest)
            == (var b :- Classify(st.contents); Run(Record(st, b), rest))
  {
    assert ([CloseLine] + rest)[0] == CloseLine && ([CloseLine] + rest)[1..] == rest;
    assert StartsWith(CloseLine, "]") && !StartsWith(CloseLine, "[") && '}' !in CloseLine;
  }

  /** A sub-section seen while storing is on changes nothing: its first line stops
      storing, its inner lines are skipped, and its last line resumes storing. */
  lemma RunSubSection(st: State, open: string, inner: seq<string>, close: string)
    requires st.storeContents && WellFormedItem(SubSection(open, inner, close))
    ensures Run(st, [open] + inner + [close]) == Ok(st)
  {
    var paused := st.(storeContents := false);
    assert [open] + inner + [close] == [open] + (inner + [close]);
    assert Step(st, open) == Ok(paused);
    RunConcat(paused, inner, [close]);
    RunSkipsWhileNotStoring(paused, inner);
    assert Step(paused, close) == Ok(st);
  }

  /** While storing is on, an item stores its field line, if it has one, and changes
      nothing else. */
  lemma RunItem(st: State, item: BodyItem)
    requires st.storeContents && WellFormedItem(item)
    ensures Run(st, ItemLines(item))
            == (var c :- Collect(st.contents, ItemFields(item)); Ok(st.(contents := c)))
  {
    match item
    case Field(line) =>
      RunStoresBody(st, [line]);
    case Resume(line) =>
      assert Step(st, line) == Ok(st);
    case SubSection(open, inner, close) =>
      RunSubSection(st, open, inner, close);
  }

  /** While storing is on, a body's lines store exactly its field lines, in order. */
  lemma {:induction false} RunBody(st: State, body: seq<BodyItem>)
    requires st.storeContents && WellFormedBody(body)
    ensures Run(st, BodyLines(body))
            == (var c :- Collect(st.contents, BodyFields(body)); Ok(st.(contents := c)))
    decreases |body|
  {
    if body != [] {
      var item := body[0];
      var rest := body[1..];
      RunConcat(st, ItemLines(item), BodyLines(rest));
      CollectConcat(st.contents, ItemFields(item), BodyFields(rest));
      RunItem(st, item);
      match Collect(st.contents, ItemFields(item))
      case Err(_) =>
      case Ok(c) =>
        assert WellFormedBody(rest) by {
          forall i | 0 <= i < |rest| ensures WellFormedItem(rest[i]) {
            assert rest[i] == body[i + 1];
          }
        }
        RunBody(st.(contents := c), rest);
    }
  }

  /** One block: its body collects into an empty dictionary, so no field of an earlier
      block can reach this block's record; sub-sections and `}` lines in the body are
      skipped. */
  lemma RunBlock(st: State, body: seq<BodyItem>, rest: seq<string>)
    requires st.contents == map[]
    requires WellFormedBody(body)
    ensures Run(st, [OpenLine] + BodyLines(body) + [CloseLine] + rest)
            == (var b :- BlockOf(body); Run(Record(st, b), rest))
  {
    var storing := st.(storeContents := true);
    var lines := BodyLines(body);
    var tail := [CloseLine] + rest;
    assert [OpenLine] + lines + [CloseLine] + rest == [OpenLine] + (lines + tail);
    RunOpen(st, lines + tail);
    RunConcat(storing, lines, tail);
    RunBody(storing, body);
    if Collect(map[], BodyFields(body)).Ok? {
      var closing := storing.(contents := Collect(map[], BodyFields(body)).value);
      RunClose(closing, rest);
      if Classify(closing.contents).Ok? {
        assert Record(closing, Classify(closing.contents).value)
               == Record(st, Classify(closing.contents).value);
      }
    }
  }

  /** A file of blocks runs to the state that records its blocks in order. */
  lemma {:induction false} RunFile(st: State, bodies: seq<seq<BodyItem>>)
    requires st.contents == map[]
    requires WellFormedBodies(bodies)
    ensures Run(st, FileOf(bodies)) == (var bs :- BlocksOf(bodies); Ok(Apply(st, bs)))
    decreases |bodies|
  {
    if bodies != [] {
      RunBlock(st, bodies[0], FileOf(bodies[1..]));
      match BlockOf(bodies[0])
      case Err(_) =>
      case Ok(b) =>
        assert WellFormedBodies(bodies[1..]) by {
          forall x | 0 <= x < |bodies| - 1 ensures WellFormedBody(bodies[1..][x]) {
            assert bodies[1..][x] == bodies[x + 1];
          }
        }
        RunFile(Record(st, b), bodies[1..]);
    }
  }

  /** The node records among the blocks, in order. */
  function NodesIn(blocks: seq<Block>): seq<NodeStatus>
    decreases |blocks|
  {
    if blocks == [] then []
    else (if blocks[0].NodeBlock? then [blocks[0].node] else []) + NodesIn(blocks[1..])
  }

  /** The last DAG status among the blocks, or `prev` when there is none. */
  function LastDag(prev: Option<DagStatus>, blocks: seq<Block>): Option<DagStatus>
    decreases |blocks|
  {
    if blocks == [] then prev
    else LastDag(if blocks[0].DagBlock? then Some(blocks[0].dag) else prev, blocks[1..])
  }

  /** The last end marker among the blocks, or `prev` when there is none. */
  function LastEnd(prev: Option<StatusEnd>, blocks: seq<Block>): Option<StatusEnd>
    decreases |blocks|
  {
    if blocks == [] then prev
    else LastEnd(if blocks[0].EndBlock? then Some(blocks[0].statusEnd) else prev, blocks[1..])
  }

  /** Recording blocks appends their nodes in order and keeps the last DAG status and
      the last end marker. */
  lemma {:induction false} ApplyBlocks(st: State, blocks: seq<Block>)
    ensures Apply(st, blocks).nodeStatuses == st.nodeStatuses + NodesIn(blocks)
    ensures Apply(st, blocks).dagStatus == LastDag(st.dagStatus, blocks)
    ensures Apply(st, blocks).statusEnd == LastEnd(st.statusEnd, blocks)
    decreases |blocks|
  {
    if blocks != [] {
      var next := Record(st, blocks[0]);
      ApplyBlocks(next, blocks[1..]);
      assert st.nodeStatuses + NodesIn(blocks)
             == next.nodeStatuses + NodesIn(blocks[1..]);
    }
  }

  /**
   * Parsing a file of blocks: every block is decoded on its own, in file order; the
   * report's nodes are exactly the `NodeStatus` blocks in file order, the DAG status is
   * the last `DagStatus` block and the end marker the last `StatusEnd` block; a file
   * without a `DagStatus` block fails.
   */
  lemma ParseFile(bodies: seq<seq<BodyItem>>)
    requires WellFormedBodies(bodies)
    ensures Parse(FileOf(bodies)) == (var bs :- BlocksOf(bodies); Finish(Apply(Start, bs)))
    ensures BlocksOf(bodies).Ok? ==>
              var bs := BlocksOf(bodies).value;
              && (LastDag(None, bs).None? <==> Parse(FileOf(bodies)) == Err(NoDagStatus))
              && (LastDag(None, bs).Some? ==>
                    Parse(FileOf(bodies)) == Ok(Report(
                      LastDag(None, bs).value.(nodeStatuses := NodesIn(bs)),
                      NodesIn(bs),
                      LastEnd(None, bs))))
  {
    RunFile(Start, bodies);
    match BlocksOf(bodies)
    case Err(e) =>
      assert Run(Start, FileOf(bodies)) == Err(e);
    case Ok(bs) =>
      var last := Apply(Start, bs);
      assert Run(Start, FileOf(bodies)) == Ok(last);
      assert Parse(FileOf(bodies)) == Finish(last);
      ApplyBlocks(Start, bs);
      assert last.nodeStatuses == NodesIn(bs);
  }
}
