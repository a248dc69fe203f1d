# DAGMan node-status parser, in Dafny

This project models the parsing core of `DAGstatus.py` from htcondenser. The program reads
the node-status file that HTCondor's DAGMan writes and prints a summary table. The file is
a sequence of blocks:

```
[
  Type = "DagStatus";
  Timestamp = 1462285449; /* "Tue May  3 15:24:09 2016" */
  NodesTotal = 10;
  ...
]
```

Each block's body lines are tokenized into `Line(key, value, comment)` by
`interpret_line`, using `strip_comments` and `strip_doublequotes`. The fields are
collected in a dictionary. On the closing `]` the dictionary becomes a `DagStatus`,
`NodeStatus` or `StatusEnd` record, according to its `Type` field. The DAG status then
receives the list of node records. `job_procs_running` counts the nodes that are
submitted and not idle, and `TColors.color` chooses the terminal colour for a status
string.

The model is split into these modules:

- `Results` (results.dfy): the error kinds and the `Result` type. Each exception the
  program can raise is an error value here:
  - `IndexError` on a line without `=` is `MalformedLine`;
  - `KeyError` on a missing field is `MissingKey`;
  - `KeyError("Unknown block Type")` is `UnknownBlockType`;
  - `ValueError` from `int()` is `NotAnInteger`;
  - `OverflowError` when the done percentage converts a count too large for a float is
    `FloatOverflow`;
  - `ZeroDivisionError` from the done percentage is `ZeroNodesTotal`;
  - `AttributeError` on a file without a `DagStatus` block is `NoDagStatus`.
- `PyStrings` (pystrings.dfy): the Python 2 `str` operations the parser uses, on
  `seq<char>`:
  - `strip`, written as CPython's two index scans, with C's `isspace` in the C locale
    Python 2 starts in (space, and `\t` to `\r`);
  - `startswith`;
  - `split` on one character, and `join`;
  - `replace` of one character, or of a two-character pattern, by the empty string.
- `Tokenizer` (tokenizer.dfy): `strip_comments`, `strip_doublequotes` and
  `interpret_line`. It also has `LineFields`, an independent description of a
  tokenized line written without `split`, and `FormatLine`, the layout of a body line,
  which `interpret_line` inverts.
- `Records` (records.dfy):
  - Python 2's `int()` on strings: optional surrounding whitespace, an optional sign,
    then at least one decimal digit;
  - the three record constructors;
  - `job_procs_running`.
- `TColors` (tcolors.dfy): the colour codes and `TColors.color`.
- `BlockParser` (blockparser.dfy): the loop of `process`. It is written twice:
  - as a state machine (`Step`, `Run`, `Parse`);
  - as the imperative loop `Process`, proved to compute `Parse`.

  Lemmas about whole files describe what the loop does block by block.

The input of `process` is modelled as `seq<string>`: the lines as Python's file iteration
yields them, each with its newline.

Where the code and a plain reading of the file format differ, the model follows the code:
- `interpret_line` removes every newline of the line, not only the trailing one.
- `int()` accepts negative counts and surrounding whitespace.
- A missing field is a `KeyError`, whatever the block type.
- Any line containing `}` switches storing on, as `[` does. A line containing `{` switches
  it off. Body lines read while storing is off are ignored. So a sub-section such as
  `DagFiles = {` ... `};` inside a block is skipped, and its key is never stored.

## Model

| member | source | states |
|---|---|---|
| PyStrings.SkipSpace | htcondenser/exe/DAGstatus.py:234 | the forward scan of `strip` stops at the first non-whitespace character at or after `i`, and every character it passes is whitespace |
| PyStrings.SkipSpaceBack | htcondenser/exe/DAGstatus.py:234 | the backward scan of `strip` never goes below where the forward scan stopped, passes only whitespace, and stops after a non-whitespace character |
| PyStrings.Strip | htcondenser/exe/DAGstatus.py:234 | defines `strip` (no contract of its own) as the forward scan, then the backward scan down to where the first stopped; the lemmas below state its meaning |
| PyStrings.StripDecompose | htcondenser/exe/DAGstatus.py:234 | every string is whitespace, then its stripped form, then whitespace |
| PyStrings.StripIsStripped | htcondenser/exe/DAGstatus.py:234 | the result of `strip` has no whitespace at either end |
| PyStrings.StrippedFixed | htcondenser/exe/DAGstatus.py:234 | `strip` leaves a string without whitespace at its ends unchanged |
| PyStrings.StripIdempotent | htcondenser/exe/DAGstatus.py:234 | stripping twice is stripping once |
| PyStrings.StripLeadingSpaces | htcondenser/exe/DAGstatus.py:234 | leading whitespace does not change the result of `strip` |
| PyStrings.StripTrailingSpaces | htcondenser/exe/DAGstatus.py:234 | trailing whitespace does not change the result of `strip` |
| PyStrings.StripKeepsCount | htcondenser/exe/DAGstatus.py:234 | `strip` keeps the number of occurrences of every non-whitespace character |
| PyStrings.Split | htcondenser/exe/DAGstatus.py:235 | `split(c)` yields one more piece than there are `c`s in the string, and no piece contains `c` |
| PyStrings.JoinSplit | htcondenser/exe/DAGstatus.py:235 | joining the pieces of `split(c)` with `c` gives back the string |
| PyStrings.SplitFirst | htcondenser/exe/DAGstatus.py:235 | the first piece of `split(c)` is the text before the first `c`, and the other pieces are the split of what follows it |
| PyStrings.StripUpToStrip | htcondenser/exe/DAGstatus.py:234-237 | stripping before splitting does not change the stripped first piece |
| PyStrings.StripAfterStrip | htcondenser/exe/DAGstatus.py:234-239 | stripping before splitting does not change the stripped text after the first separator |
| PyStrings.RemoveChar | htcondenser/exe/DAGstatus.py:33 | `replace(c, '')` leaves no `c` |
| PyStrings.RemoveCharKeepsCount | htcondenser/exe/DAGstatus.py:33 | `replace(c, '')` keeps the number of occurrences of every other character |
| PyStrings.RemoveCharConcat | htcondenser/exe/DAGstatus.py:33 | `replace(c, '')` commutes with concatenation, so the kept characters stay in order |
| PyStrings.RemoveCharAbsent | htcondenser/exe/DAGstatus.py:33 | `replace(c, '')` leaves a string without `c` unchanged |
| PyStrings.RemoveCharIdempotent | htcondenser/exe/DAGstatus.py:33 | removing a character twice is removing it once |
| PyStrings.RemoveAll | htcondenser/exe/DAGstatus.py:29 | `replace(p, '')` for a two-character `p` never lengthens the string |
| PyStrings.RemoveAllKeepsCount | htcondenser/exe/DAGstatus.py:29 | `replace(p, '')` keeps the number of occurrences of every character outside `p` |
| PyStrings.RemoveAllKeepsPrefix | htcondenser/exe/DAGstatus.py:29 | a prefix without the first character of `p` passes through `replace(p, '')` unchanged |
| PyStrings.RemoveAllAbsent | htcondenser/exe/DAGstatus.py:29 | a string with no occurrence of `p` is left unchanged |
| PyStrings.RemoveAllShrinks | htcondenser/exe/DAGstatus.py:29 | a string with an occurrence of `p` gets strictly shorter |
| Tokenizer.StripComments | htcondenser/exe/DAGstatus.py:28-29 | defines `strip_comments` (no contract of its own): both marker removals, then `strip`; `StripCommentsShape` and `StripCommentsWrapped` state its meaning |
| Tokenizer.StripCommentsShape | htcondenser/exe/DAGstatus.py:28-29 | `strip_comments` leaves no whitespace at either end and keeps every character other than `/`, `*` and whitespace |
| Tokenizer.StripCommentsWrapped | htcondenser/exe/DAGstatus.py:28-29 | `strip_comments` of `/* c */` is `c` when `c` is stripped and holds no `/` or `*` |
| Tokenizer.StripDoubleQuotes | htcondenser/exe/DAGstatus.py:32-33 | `strip_doublequotes` leaves no `"` |
| Tokenizer.StripDoubleQuotesLaws | htcondenser/exe/DAGstatus.py:32-33 | `strip_doublequotes` commutes with concatenation, leaves quote-free text alone, and is idempotent |
| Tokenizer.InterpretLine | htcondenser/exe/DAGstatus.py:226-242 | defines `interpret_line` (no contract of its own) through `split`, as the code does; `InterpretLineFails`, `InterpretLineFields` and `InterpretFormatLine` state its meaning |
| Tokenizer.InterpretLineFails | htcondenser/exe/DAGstatus.py:234-236 | `interpret_line` fails exactly when the line holds no `=`, and the failure names that line |
| Tokenizer.InterpretLineFields | htcondenser/exe/DAGstatus.py:226-242 | on a line with `=`, `interpret_line` gives exactly the fields described without `split`: the key is the stripped text before the first `=`; the value is the unquoted, stripped text after the first `=`, up to the first `;` or the next `=`; the comment is present only with exactly one `;` between the first and the second `=` (or the end of the line), and is then the unquoted text after that `;` with its comment markers removed |
| Tokenizer.InterpretLineKey | htcondenser/exe/DAGstatus.py:234-242 | a line with `=` tokenizes, under the stripped text before its first `=` |
| Tokenizer.LineFieldsShape | htcondenser/exe/DAGstatus.py:234-242 | every tokenized line has a stripped key without `=`, a value and a comment without `"`, and a comment only where exactly one `;` stands between the first and the second `=` (or the end of the line) |
| Tokenizer.InterpretFormatLine | htcondenser/exe/DAGstatus.py:226-242 | reading back a written body line `Key = value; /* comment */`, with the value and the comment each quoted or bare, gives back its key, value and comment |
| Records.ParseInt | htcondenser/exe/DAGstatus.py:95-104 | `int()` succeeds exactly on a signed decimal literal with surrounding whitespace, and otherwise fails naming its argument |
| Records.DigitsValueNatDigits | htcondenser/exe/DAGstatus.py:95 | the decimal digits of `n` denote `n` |
| Records.ParseFormatInt | htcondenser/exe/DAGstatus.py:95-104 | `int()` of a decimal numeral with surrounding whitespace gives back the number |
| Records.ParseIntPadded | htcondenser/exe/DAGstatus.py:95-104 | surrounding whitespace does not change what `int()` gives |
| Records.NewDagStatus | htcondenser/exe/DAGstatus.py:76-108 | a count that is not an integer fails as such; otherwise the constructor fails with the float-overflow error exactly when the done count or the total is too large for a float, with the zero-total error exactly when both fit and the total is zero, and succeeds in the remaining case; on success the percentage is defined, the node list is empty, the timestamp is kept and the status has no `"` |
| Records.NewDagStatusOfCounts | htcondenser/exe/DAGstatus.py:76-108 | building a DAG status, whose percentage is defined, from the numerals of its own counts gives it back |
| Records.NewNodeStatus | htcondenser/exe/DAGstatus.py:121-136 | the constructor succeeds exactly when the three counts are integers, and the node, status and details have no `"` |
| Records.NewNodeStatusOfFields | htcondenser/exe/DAGstatus.py:121-136 | building a node status from its own fields and count numerals gives it back |
| Records.NewStatusEnd | htcondenser/exe/DAGstatus.py:139-146 | both end-marker fields have no `"` |
| Records.NewStatusEndOfFields | htcondenser/exe/DAGstatus.py:139-146 | an end marker whose fields hold no `"` comes back unchanged from its own fields |
| Records.CountRunning | htcondenser/exe/DAGstatus.py:110-114 | the number of running nodes is at most the number of nodes |
| Records.JobProcsRunning | htcondenser/exe/DAGstatus.py:110-114 | `job_procs_running` counts the attached nodes that are running, so at most the number of attached nodes |
| Records.CountRunningIsSize | htcondenser/exe/DAGstatus.py:110-114 | `job_procs_running` is the number of positions whose node is submitted and not idle |
| Records.CountRunningConcat | htcondenser/exe/DAGstatus.py:110-114 | the running count of two node lists joined is the sum of their counts |
| Records.CountRunningAll | htcondenser/exe/DAGstatus.py:110-114 | the running count equals the number of nodes exactly when every node is running |
| TColors.Color | htcondenser/exe/DAGstatus.py:53-63 | defines `TColors.color` (no contract of its own), the first matching prefix deciding; `ColorByPrefix` states its meaning |
| TColors.ColorByPrefix | htcondenser/exe/DAGstatus.py:53-63 | the colour is red, blue or green exactly when the status starts with `STATUS_ERROR`, `STATUS_SUBMITTED` or `STATUS_DONE`, and the reset code exactly when it starts with none of them |
| BlockParser.LookupAll | htcondenser/exe/DAGstatus.py:185-207 | looking up keys in turn succeeds exactly when all are present, giving their lines in order, and otherwise fails naming the first absent key |
| BlockParser.DagStatusOf | htcondenser/exe/DAGstatus.py:185-196 | a block without all twelve `DagStatus` keys fails on the first absent one in argument order; with all of them, the constructor gets the timestamp and status from the comments of their lines and the ten counts from the values |
| BlockParser.NodeStatusOf | htcondenser/exe/DAGstatus.py:198-203 | a block without all six `NodeStatus` keys fails on the first absent one; with all of them, the constructor gets the node status from its line's comment and the other fields from the values |
| BlockParser.StatusEndOf | htcondenser/exe/DAGstatus.py:206-207 | a block without both end keys fails on the first absent one; with both, the record is built from their comments and always succeeds |
| BlockParser.Classify | htcondenser/exe/DAGstatus.py:184-211 | a block without `Type` fails on that key; a `Type` outside the three record kinds fails as an unknown block type; a known `Type` fails on the first absent key of its kind; with all of its keys present a `DagStatus` block succeeds exactly when its counts are integers that give a defined percentage, a `NodeStatus` block exactly when its three counts are integers, and a `StatusEnd` block always; a record is of the kind its `Type` names, and it is exactly the record `DagStatusOf`, `NodeStatusOf` or `StatusEndOf` builds; a `DagStatus` or `NodeStatus` block fails with exactly the error its record builder gives |
| BlockParser.Record | htcondenser/exe/DAGstatus.py:185-213 | a completed block replaces the DAG status or the end marker, or appends one node, changes nothing else, and then clears the fields and stops storing |
| BlockParser.Process | htcondenser/exe/DAGstatus.py:170-222 | the imperative loop over the file's lines returns what `Parse` describes, error or report |
| BlockParser.Step | htcondenser/exe/DAGstatus.py:178-221 | after one line storing is on exactly when the line resumes storing, or is a plain line read while storing; only a close line can change the records; away from a close line only a plain line read while storing can fail |
| BlockParser.Run | htcondenser/exe/DAGstatus.py:177-221 | defines the loop over the lines (no contract of its own), the first exception ending it; the lemmas below state its meaning |
| BlockParser.Finish | htcondenser/exe/DAGstatus.py:222 | the end of `process` fails exactly when there is no DAG status, and otherwise returns the recorded DAG status with the node list attached and every other field kept, and hands on the nodes and the end marker |
| BlockParser.Parse | htcondenser/exe/DAGstatus.py:170-222 | defines the parsing half of `process` (no contract of its own): the loop from the start state, then the final attachment |
| BlockParser.RunConcat | htcondenser/exe/DAGstatus.py:177-221 | running over two pieces of input is running over the first, then over the second from where it stopped |
| BlockParser.RunSkipsWhileNotStoring | htcondenser/exe/DAGstatus.py:215-221 | while storing is off, lines that neither resume storing nor close the block, including lines with `{`, change nothing |
| BlockParser.RunStoresBody | htcondenser/exe/DAGstatus.py:218-221 | while storing is on, body lines are tokenized into the dictionary and nothing else changes |
| BlockParser.Collect | htcondenser/exe/DAGstatus.py:218-221 | storing tokenized lines under their keys never removes a key |
| BlockParser.CollectFails | htcondenser/exe/DAGstatus.py:220-221 | collecting body lines fails exactly when one of them holds no `=` |
| BlockParser.CollectKeeps | htcondenser/exe/DAGstatus.py:221 | a key that no collected line carries keeps its earlier entry, or stays absent |
| BlockParser.CollectLastWins | htcondenser/exe/DAGstatus.py:221 | a key holds the tokenized form of the last line that carries it |
| BlockParser.StepFailsOnLine | htcondenser/exe/DAGstatus.py:178-221 | except on a closing line, the only exception a line can raise is the malformed-line one |
| BlockParser.RunGrows | htcondenser/exe/DAGstatus.py:184-213 | over a run, earlier nodes keep their places, a recorded DAG status stays valid, and each closing line adds at most one record |
| BlockParser.ParseSucceeds | htcondenser/exe/DAGstatus.py:105-118 | a successful parse has a done count and total that convert to floats and a non-zero total, so both percentages are defined; its nodes are attached to the DAG status; at most that many of them run; and the file has a closing line for the DAG status and for every node |
| BlockParser.ParseWithoutClose | htcondenser/exe/DAGstatus.py:170-222 | a file without a closing line yields no report: it fails on a malformed line or for want of a DAG status |
| BlockParser.DagFilesSubSection | htcondenser/exe/DAGstatus.py:178-217 | DAGMan's `DagFiles = {` ... `};` list, with brace-free names, is a well-formed sub-section |
| BlockParser.RunSubSection | htcondenser/exe/DAGstatus.py:178-217 | while storing is on, a sub-section (a `{` line, skipped lines, a `}` line) changes nothing |
| BlockParser.RunItem | htcondenser/exe/DAGstatus.py:178-221 | while storing is on, a body item stores its field line if it has one and changes nothing else |
| BlockParser.RunBody | htcondenser/exe/DAGstatus.py:178-221 | while storing is on, a body of field lines, `}` lines and sub-sections stores exactly its field lines, in order |
| BlockParser.RunBlock | htcondenser/exe/DAGstatus.py:178-214 | a block `[`, body, `]` read after a completed block, its body holding field lines, `}` lines and sub-sections, is decoded from its own field lines only, then recorded |
| BlockParser.RunFile | htcondenser/exe/DAGstatus.py:174-221 | a file of such blocks runs to the state that records the decoded blocks in order, or fails at the first block that fails |
| BlockParser.ApplyBlocks | htcondenser/exe/DAGstatus.py:184-207 | recording blocks appends their nodes in order and keeps the last DAG status and the last end marker |
| BlockParser.ParseFile | htcondenser/exe/DAGstatus.py:174-222 | parsing a file of blocks, with sub-sections and `}` lines allowed in their bodies, yields the `NodeStatus` blocks in file order, the last `DagStatus` block with those nodes attached, and the last `StatusEnd` block; without a `DagStatus` block it fails |

## Left out

- `print_table` (lines 245-332) and the `print` of the file name: output formatting,
  terminal width from `stty size`, and column sizing are I/O, not parsing.
- The percentages `nodes_done_percent` and `nodes_running_percent` are floating point,
  formatted to one decimal. Only the conditions for computing them are kept: construction
  fails when the done count or the total is too large for a float, and when the total is
  zero. The bound is the one for correctly rounded conversion: 2^1024 - 2^970.
- Opening and reading the file: the model takes its lines as a sequence of strings.
  The `log.debug` calls are left out.
- The command line (`argparse`, `-v`, `-s`, the loop over files): not part of the parser.
- The `ClassAd` base class and its `__init__`: they hold no state.
- `TColors.HEADER`, `BOLD` and `UNDERLINE`: never used by the program.
- Records.ParseInt: Python 2's `int()` also accepts whitespace between the sign and the
  digits. The model accepts the digits only directly after the sign.
